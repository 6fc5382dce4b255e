/** The reconciler (vdom_root.go): the component tree is updated in place, in CompMap, against new elements. The
    ghost arguments name the trees that the code reaches through its pointers. */
module VDomRoot {
  import opened Basics
  import opened Wrappers
  import opened VDomTypes
  import opened VDomTree
  import opened VDomFrames
  import opened VDomExpand

  ghost function IdOf(t: Option<Tree>): Option<StarId> {
    if t.Some? then Some(t.value.id) else None
  }

  class RootElem {
    const cfuncs: map<string, CFunc>
    ghost const scope: Scope
    var atomVals: map<string, Val>
    var dirtyAtoms: set<string>
    var compMap: CompMap
    var usedBy: UsedBy
    var effectQueue: seq<(StarId, nat)>
    var needsRender: set<StarId>
    var nextId: nat
    var root: Option<StarId>
    ghost var tree: Option<Tree>
    ghost var owned: UsedBy  // the users of atoms without the stale ones

    ghost predicate Ready()
      reads this
    {
      Closed(cfuncs, scope) && Issued(compMap, owned, nextId) && Accounted(cfuncs, usedBy, owned, nextId)
    }

    /** CompMap holds exactly the components reachable from the root, each under its own id. The users of an atom are
        exactly the mounted components whose hooks will clean it up, and stale ones; under the rules of hooks none
        is stale. Every component is among the users of the atoms that its last render called. */
    ghost predicate Valid()
      reads this
    {
      && Ready() && Mounted(cfuncs, compMap, owned, tree) && root == IdOf(tree)
      && (forall id :: id in compMap <==> InO(tree, id))
      && (forall a, id :: id in Users(owned, a) ==> InO(tree, id))
      && (tree.Some? ==> scope.has(tree.value.c.elem)) && ListedO(usedBy, tree)
    }

    /** MakeRoot, followed by RegisterComponent for each function */
    constructor (funcs: map<string, CFunc>, ghost scope: Scope)
      requires Closed(funcs, scope)
      ensures Valid() && this.scope == scope && EnvNow() == Env(funcs, map[])
      ensures tree == None && root == None && usedBy == map[] && needsRender == {} && effectQueue == [] && nextId == 0
    {
      this.cfuncs := funcs;
      this.scope := scope;
      atomVals, compMap, usedBy, effectQueue, needsRender := map[], map[], map[], [], {};
      nextId, root, tree, owned, dirtyAtoms := 0, None, None, map[], {};
    }

    /** RootElem.Render: what is read out afterwards is the expansion of the new element, with the hooks of the
        components that are taken over. A component that is gone is left among the users of exactly the atoms that
        none of its hook slots would clean up. */
    method RenderRoot(elem: Option<Elem>)
      requires Valid() && (elem.Some? && elem.value.tag != "" ==> scope.has(elem.value))
      modifies this`compMap, this`usedBy, this`owned, this`effectQueue, this`nextId, this`root, this`tree
      ensures Valid()
      ensures StripO(ReadO(tree)) == if elem.None? then None else Expand(EnvNow(), scope, elem.value, old(tree))
      ensures tree.Some? ==> elem.Some? && Shows(EnvNow(), elem.value, tree.value)
      ensures tree.Some? ==> Carried(EnvNow(), old(nextId), nextId, old(tree), elem.value, tree.value)
      ensures tree.None? <==> elem.None? || elem.value.tag == ""
      ensures effectQueue == old(effectQueue) + QueuedO(old(tree), tree)
      ensures old(nextId) <= nextId
      ensures forall id :: InO(tree, id) ==> InO(old(tree), id) || FreshId(id, old(nextId), nextId)
      ensures forall a, x :: !InO(tree, x) ==>
        (x in Users(usedBy, a) <==> x in Users(old(usedBy), a) && !UsesO(old(tree), x, a))
    {
      hide Closed, StableHooks, Mounted, Shows, Carried, In, TreeOk, IsTree, Distinct, Expand, Accounted,
        Users, StaleKept, Issued, Listed, Uses, Strip, ReadOut, Queued;
      OwnedIsUses(cfuncs, compMap, owned, tree);
      ghost var prev, m, u, lo := tree, compMap, owned, nextId;
      if elem.None? {
        Unmount(root, tree);
        RootReplaced(cfuncs, m, u, lo, prev, compMap, owned, nextId, None);
        root, tree := None, None;
        assert IdsOf(None) == iset{};
        GoneAreStale(old(usedBy), old(owned), usedBy, owned, tree);
        return;
      }
      ghost var next;
      MountedOk(cfuncs, m, u, prev);
      root, next := Render(elem.value, root, tree);
      tree := next;
      RootReplaced(cfuncs, m, u, lo, prev, compMap, owned, nextId, next);
      RenderedElem(EnvNow(), scope, lo, nextId, prev, elem.value, next);
      GoneAreStale(old(usedBy), old(owned), usedBy, owned, tree);
    }

    /** RunWork, without the effect functions themselves: what is queued is dropped, and if a render was asked for
        the root element is rendered again. It panics if there is no root then, having dropped both queues. */
    method RunWork() returns (panicked: bool)
      requires Valid()
      modifies this`compMap, this`usedBy, this`owned, this`effectQueue, this`nextId, this`root, this`tree,
        this`needsRender
      ensures Valid() && needsRender == {}
      ensures panicked <==> old(needsRender) != {} && old(root).None?
      ensures panicked || old(needsRender) == {} ==>
        tree == old(tree) && compMap == old(compMap) && usedBy == old(usedBy) && effectQueue == [] &&
        nextId == old(nextId)
      ensures !panicked && old(needsRender) != {} ==>
        var elem := old(tree).value.c.elem;
        && StripO(ReadO(tree)) == Expand(EnvNow(), scope, elem, old(tree))
        && tree.Some? && Shows(EnvNow(), elem, tree.value)
        && Carried(EnvNow(), old(nextId), nextId, old(tree), elem, tree.value)
        && effectQueue == QueuedO(old(tree), tree) && old(nextId) <= nextId
        && (forall id :: InO(tree, id) ==> InO(old(tree), id) || FreshId(id, old(nextId), nextId))
        && forall a, x :: !InO(tree, x) ==>
            (x in Users(usedBy, a) <==> x in Users(old(usedBy), a) && !UsesO(old(tree), x, a))
    {
      hide Closed, StableHooks, Mounted, Shows, Carried, In, TreeOk, IsTree, Distinct, Expand, Accounted, Users, Issued,
        Listed, Uses, Strip, ReadOut, Queued;
      effectQueue := [];
      if needsRender != {} {
        needsRender := {};
        if root.None? {
          return true;
        }
        TopOf(cfuncs, compMap, owned, tree);
        ScopeTag(cfuncs, scope, tree.value.c.elem);
        RenderRoot(Some(compMap[root.value].elem));
      }
      return false;
    }

    method MakeVDom() returns (r: Option<Elem>)
      requires Valid()
      ensures r == ReadO(tree)
    {
      if root.None? {
        return None;
      }
      r := ConvertToVDom(root.value, tree.value);
    }

    /** convertToVDom and convertBaseToVDom, of a component that is there */
    method ConvertToVDom(id: StarId, ghost t: Tree) returns (r: Option<Elem>)
      requires IsTree(compMap, t) && TreeOk(cfuncs, t) && id == t.id
      ensures r == ReadOut(t)
      decreases t
    {
      var c := compMap[id];
      if c.tag == TEXT_TAG {
        return Some(Elem(NoId, TEXT_TAG, map[], [], c.text));
      }
      if IsBaseTag(c.tag) {
        var children: seq<Elem> := [];
        for i := 0 to |c.children|
          invariant children == ReadKids(t.kids[..i])
        {
          var child := ConvertToVDom(c.children[i], t.kids[i]);
          if child.Some? {
            children := children + [child.value];
          }
          ReadKidsStep(t.kids, i + 1);
        }
        assert t.kids[..|c.children|] == t.kids;
        return Some(Elem(id, c.tag, c.elem.props, children, ""));
      }
      if c.comp.None? {
        return None;
      }
      r := ConvertToVDom(c.comp.value, t.kids[0]);
    }

    /** The setter that UseState returns */
    method SetState(id: StarId, idx: nat, val: Val)
      requires Valid()
      modifies this`compMap, this`needsRender, this`tree
      ensures Valid() && needsRender == old(needsRender) + {id}
      ensures compMap == if id in old(compMap) && idx < |old(compMap)[id].hooks| then
        WithHookValue(old(compMap), id, idx, val) else old(compMap)
      ensures tree == if old(tree).Some? then Some(SetHook(old(tree).value, id, idx, val)) else None
    {
      hide Closed, StableHooks, Mounted, In, IsTree, SetHook, Uses;
      if id in compMap && idx < |compMap[id].hooks| {
        ghost var m := compMap;
        var c := compMap[id];
        compMap := compMap[id := c.(hooks := c.hooks[idx := c.hooks[idx].(val := val)])];
        ghost var t := tree.value;
        SetHookMounted(cfuncs, m, owned, t, id, idx, val);
        tree := Some(SetHook(t, id, idx, val));
        assert Mounted(cfuncs, compMap, owned, tree);
        assert forall x :: InO(tree, x) <==> InO(Some(t), x);
        SetHookListed(usedBy, t, id, idx, val);
      } else if tree.Some? {
        SetHookNothing(cfuncs, compMap, owned, tree.value, id, idx, val);
      }
      needsRender := needsRender + {id};
    }

    /** RootElem.SetAtomVal: it marks an atom for the frontend if asked to and if its value is new, and queues
        nothing. */
    method SetAtomVal(name: string, val: Val, markDirty: bool)
      requires Valid()
      modifies this`atomVals, this`dirtyAtoms
      ensures Valid()
      ensures if markDirty && AtomVal(old(EnvNow()), name) == val then unchanged(this)
              else EnvNow() == old(EnvNow()).(atoms := old(EnvNow()).atoms[name := val])
      ensures dirtyAtoms == old(dirtyAtoms) + if markDirty && AtomVal(old(EnvNow()), name) != val then {name} else {}
    {
      if markDirty {
        if AtomVal(EnvNow(), name) == val {
          return;
        }
        dirtyAtoms := dirtyAtoms + {name};
      }
      atomVals := atomVals[name := val];
    }

    /** The setter that UseAtom returns queues the users of the atom: among them are all mounted components whose last
        render called it or whose hooks will clean it up, and under the rules of hooks no others. */
    method SetFromUseAtom(name: string, val: Val)
      requires Valid()
      modifies this`atomVals, this`needsRender
      ensures Valid() && EnvNow() == old(EnvNow()).(atoms := old(EnvNow()).atoms[name := val])
      ensures needsRender == old(needsRender) + Users(usedBy, name)
      ensures forall id :: UsesO(tree, id, name) || AsksO(tree, id, name) ==> id in needsRender
      ensures StableHooks(cfuncs) ==> forall id :: id in needsRender <==>
        id in old(needsRender) || UsesO(tree, id, name)
    {
      atomVals := atomVals[name := val];
      needsRender := needsRender + Users(usedBy, name);
      OwnedIsUses(cfuncs, compMap, owned, tree);
      UsersOf(cfuncs, usedBy, owned, nextId, name);
      forall id | AsksO(tree, id, name)
        ensures id in Users(usedBy, name)
      {
        AskersListed(usedBy, tree.value, id, name);
      }
    }

    /** The hooks part of unmount: every UnmountFn set by UseAtom runs. */
    method CleanupHooks(id: StarId, hooks: seq<Hook>)
      modifies this`usedBy, this`owned
      ensures forall a, x :: x in Users(usedBy, a) <==> x in Users(old(usedBy), a) && !(x == id && CleanedUp(hooks, a))
      ensures forall a, x :: x in Users(owned, a) <==> x in Users(old(owned), a) && !(x == id && CleanedUp(hooks, a))
    {
      for k := 0 to |hooks|
        invariant forall a, x :: x in Users(usedBy, a) <==>
          x in Users(old(usedBy), a) && !(x == id && CleanedUp(hooks[..k], a))
        invariant forall a, x :: x in Users(owned, a) <==>
          x in Users(old(owned), a) && !(x == id && CleanedUp(hooks[..k], a))
      {
        CleanedUpStep(hooks, k);
        if hooks[k].cleanup.Some? {
          var atom := hooks[k].cleanup.value;
          usedBy := usedBy[atom := Users(usedBy, atom) - {id}];
          owned := owned[atom := Users(owned, atom) - {id}];
        }
      }
      assert hooks[..|hooks|] == hooks;
    }

    /** All the calls of a component's life, from its first render to its unmounting: it stays among the users of
        exactly those atoms that it called but never on a new slot. */
    method CallsThenCleanup(id: StarId, elem: Elem, cs: seq<seq<HookCall>>)
      requires id in compMap && compMap[id].hooks == [] && forall a :: id !in Users(usedBy, a)
      modifies this`compMap, this`usedBy, this`owned, this`effectQueue
      ensures forall a :: id in Users(usedBy, a) <==> EverCalled(cs, a) && !SomeFirstCall(cs, a)
      ensures forall a, x :: x != id ==> (x in Users(usedBy, a) <==> x in Users(old(usedBy), a))
    {
      hide Users, HooksAfter, SomeFirstCall, EverCalled, CleanedUp;
      NeverCalled();
      assert cs[..0] == [];
      for j := 0 to |cs|
        invariant id in compMap && compMap[id].hooks == HooksOver(cs[..j])
        invariant forall a :: id in Users(usedBy, a) <==> EverCalled(cs[..j], a)
        invariant forall a, x :: x != id ==> (x in Users(usedBy, a) <==> x in Users(old(usedBy), a))
      {
        assert cs[..j + 1][..j] == cs[..j];
        EverCalledStep(cs, j);
        StraightCalls(EnvNow(), compMap[id].hooks, cs[j], elem, []);
        var _ := RunHooks(id, Straight(cs[j]), elem);
      }
      assert cs[..|cs|] == cs;
      CleanupHooks(id, compMap[id].hooks);
      forall a
        ensures CleanedUp(HooksOver(cs), a) <==> SomeFirstCall(cs, a)
      {
        CleanedUpIff(cs, a);
      }
    }

    /** unmount of a component that is there */
    method UnmountTree(id: StarId, ghost t: Tree)
      requires Ready() && Mounted(cfuncs, compMap, owned, Some(t)) && id == t.id
      modifies this`compMap, this`usedBy, this`owned
      ensures Ready() && StaleKept(old(usedBy), old(owned), usedBy, owned, iset{})
      ensures Replaced(cfuncs, old(compMap), old(owned), nextId, Some(t), compMap, owned, nextId, None)
      decreases t, 1
    {
      hide Closed, StableHooks, TreeOk, Apart;
      NodeTop(compMap, t);
      var c := compMap[id];
      ghost var m, u := compMap, owned;
      // parent clean up happens first
      CleanupHooks(id, c.hooks);
      ghost var u1 := owned;
      CleanupAccounted(cfuncs, m, t, old(usedBy), u, usedBy, u1, nextId);
      UsersAfterCleanup(cfuncs, m, u, t, u1);
      ghost var used1 := usedBy;
      UnmountChildren(c, t);
      StaleChain(old(usedBy), u, used1, u1, iset{}, usedBy, owned, iset{}, iset{});
      NodeRemoved(cfuncs, m, u, nextId, t, u1, compMap, owned);
      compMap := compMap - {id};
      StillIssued(cfuncs, m, u, nextId, Some(t), compMap, owned, nextId, None);
    }

    /** The sub-component and the children, in the order of the code. */
    method UnmountChildren(c: Comp, ghost t: Tree)
      requires Ready() && IsTree(compMap, t) && Distinct(t) && c == t.c
      requires forall k :: 0 <= k < |t.kids| ==> Mounted(cfuncs, compMap, owned, Some(t.kids[k]))
      modifies this`compMap, this`usedBy, this`owned
      ensures Ready() && StaleKept(old(usedBy), old(owned), usedBy, owned, iset{})
      ensures Partway(cfuncs, old(compMap), old(owned), nextId, AllIds(t.kids), compMap, owned, nextId, [])
      decreases t, 0
    {
      hide Closed, StableHooks, TreeOk, Apart, Mounted, Partway, In, IsTree, Distinct, Accounted, StaleKept;
      ghost var kids, m, u, used := t.kids, compMap, owned, usedBy;
      NodeTop(compMap, t);
      PartwayStart(cfuncs, m, u, nextId);
      StaleSame(used, u, iset{});
      ghost var done: set<nat> := {};
      GoneNone(kids);
      if c.comp.Some? {
        ghost var j := |c.children|;
        UnmountOne(c.comp.value, used, m, u, nextId, kids, done, j, [], iset{});
        done := done + {j};
      }
      for i := 0 to |c.children|
        invariant Ready() && StaleKept(used, u, usedBy, owned, iset{})
        invariant forall j :: j in done <==> 0 <= j < i || (c.comp.Some? && j == |c.children|)
        invariant Partway(cfuncs, m, u, nextId, Gone(kids, done), compMap, owned, nextId, [])
      {
        UnmountOne(c.children[i], used, m, u, nextId, kids, done, i, [], iset{});
        done := done + {i};
      }
      GoneAll(kids, done);
    }

    /** One more of the old children is unmounted; `used`, `m` and `u` are from before the first. */
    method UnmountOne(id: StarId, ghost used: UsedBy, ghost m: CompMap, ghost u: UsedBy, ghost lo: nat,
                      ghost kids: seq<Tree>,
                      ghost done: set<nat>, ghost j: nat, ghost ts: seq<Tree>, ghost ids: iset<StarId>)
      requires Ready() && Issued(m, u, lo) && Apart(kids)
      requires j < |kids| && j !in done && kids[j].id == id
      requires Mounted(cfuncs, m, u, Some(kids[j]))
      requires Partway(cfuncs, m, u, lo, Gone(kids, done), compMap, owned, nextId, ts)
      requires StaleKept(used, u, usedBy, owned, ids) && ListedAll(usedBy, ts)
      modifies this`compMap, this`usedBy, this`owned
      ensures Ready() && StaleKept(used, u, usedBy, owned, ids) && ListedAll(usedBy, ts)
      ensures Partway(cfuncs, m, u, lo, Gone(kids, done + {j}), compMap, owned, nextId, ts)
      decreases kids[j], 2
    {
      hide Closed, StableHooks, TreeOk, Apart, Mounted, Partway, In, IsTree, Distinct, Accounted, StaleKept;
      GoneAdd(kids, done, j);
      PartwayOther(cfuncs, m, u, lo, Gone(kids, done), compMap, owned, nextId, ts, kids[j]);
      ghost var m1, u1, used1 := compMap, owned, usedBy;
      UnmountTree(id, kids[j]);
      MountedInMap(cfuncs, m, u, kids[j]);
      PartwayStep(cfuncs, m, u, lo, Gone(kids, done), m1, u1, nextId, ts, Some(kids[j]), compMap, owned, nextId, None);
      StaleChain(used, u, used1, u1, ids, usedBy, owned, iset{}, ids);
      assert IdsOf(None) == iset{};
      PartwayListed(cfuncs, m, u, lo, Gone(kids, done), ts, m1, used1, u1, nextId, Some(kids[j]), compMap, usedBy,
        owned, nextId, None);
    }

    method Unmount(slot: Option<StarId>, ghost t: Option<Tree>)
      requires Ready() && Mounted(cfuncs, compMap, owned, t) && slot == IdOf(t)
      modifies this`compMap, this`usedBy, this`owned
      ensures Ready() && StaleKept(old(usedBy), old(owned), usedBy, owned, iset{})
      ensures Replaced(cfuncs, old(compMap), old(owned), nextId, t, compMap, owned, nextId, None)
    {
      if slot.None? {
        StaleSame(usedBy, owned, iset{});
        return;
      }
      UnmountTree(slot.value, t.value);
    }

    function EnvNow(): Env
      reads this`atomVals
    {
      Env(cfuncs, atomVals)
    }

    /** One call to UseState, UseAtom or UseEffect, on the i-th hook of a component */
    method RunHook(id: StarId, i: nat, hook: Hook, call: HookCall) returns (hook': Hook, val: Val)
      modifies this`usedBy, this`effectQueue
      ensures hook' == HookAfter(hook, call) && val == HookValue(EnvNow(), hook', call)
      ensures forall a, x :: x in Users(usedBy, a) <==> x in Users(old(usedBy), a) || (x == id && call == UseAtom(a))
      ensures effectQueue == old(effectQueue) +
        if call.UseEffect? && !(hook.init && hook.val == call.deps) then [(id, i)] else []
    {
      hook' := hook;
      match call
      case UseState(initial) =>
        if !hook'.init {
          hook' := hook'.(init := true, val := initial);
        }
        val := hook'.val;
      case UseAtom(name) =>
        if !hook'.init {
          hook' := hook'.(init := true, cleanup := Some(name));
        }
        usedBy := usedBy[name := Users(usedBy, name) + {id}];
        val := AtomVal(EnvNow(), name);
      case UseEffect(deps) =>
        if !hook'.init || hook'.val != deps {
          hook' := hook'.(init := true, val := deps);
          effectQueue := effectQueue + [(id, i)];
        }
        val := "";
    }

    /** A component function runs: it makes its calls to UseState, UseAtom and UseEffect, in order, and returns. */
    method RunHooks(id: StarId, f: CFunc, elem: Elem) returns (part: Part)
      requires id in compMap
      modifies this`compMap, this`usedBy, this`effectQueue
      ensures part == PartFrom(EnvNow(), old(compMap)[id].hooks, f, elem, [])
      ensures
        var calls := CallsFrom(EnvNow(), old(compMap)[id].hooks, f, elem, []);
        && compMap == old(compMap)[id := old(compMap)[id].(hooks := HooksAfter(old(compMap)[id].hooks, calls))]
        && effectQueue == old(effectQueue) + OwnEffects(id, old(compMap)[id].hooks, calls)
        && forall a, x :: x in Users(usedBy, a) <==> x in Users(old(usedBy), a) || (x == id && Calls(calls, a))
    {
      hide Users, Calls, HookAfter, HookValue, CallsFrom, PartFrom, Returns, OwnEffects, HooksAfter;
      ghost var h0 := compMap[id].hooks;
      var hooks := compMap[id].hooks;
      var vals: seq<Val> := [];
      ghost var calls: seq<HookCall> := [];
      NoCalls();
      NoEffects(id, h0);
      SlotsNone(h0);
      while f.next(elem, vals).Call?
        invariant compMap == old(compMap)
        invariant CallsFrom(EnvNow(), h0, f, elem, []) == calls + CallsFrom(EnvNow(), h0, f, elem, vals)
        invariant PartFrom(EnvNow(), h0, f, elem, []) == PartFrom(EnvNow(), h0, f, elem, vals)
        invariant hooks == HooksAfter(h0, calls) && |vals| == |calls|
        invariant forall a, x :: x in Users(usedBy, a) <==>
          x in Users(old(usedBy), a) || (x == id && Calls(calls, a))
        invariant effectQueue == old(effectQueue) + OwnEffects(id, h0, calls)
        decreases f.left(elem, vals)
      {
        var i, call := |vals|, f.next(elem, vals).call;
        // getHookFromCtx
        if |hooks| <= i {
          hooks := hooks + [FRESH_HOOK];
        }
        SlotsNext(h0, calls, call);
        var hook, val := RunHook(id, i, hooks[i], call);
        hooks := hooks[i := hook];
        CallsStep(calls, call);
        EffectsStep(id, h0, calls, call);
        NextCall(EnvNow(), h0, f, elem, vals, calls);
        vals, calls := vals + [val], calls + [call];
      }
      NoMoreCalls(EnvNow(), h0, f, elem, vals, calls);
      compMap := compMap[id := compMap[id].(hooks := hooks)];
      return f.next(elem, vals).part;
    }

    // -------------------------------------------------------------- render

    method Render(elem: Elem, slot: Option<StarId>, ghost t: Option<Tree>)
        returns (slot': Option<StarId>, ghost t': Option<Tree>)
      requires Ready() && Mounted(cfuncs, compMap, owned, t) && slot == IdOf(t)
      requires elem.tag != "" ==> scope.has(elem)
      modifies this`compMap, this`usedBy, this`owned, this`effectQueue, this`nextId
      ensures Ready() && slot' == IdOf(t')
      ensures Replaced(cfuncs, old(compMap), old(owned), old(nextId), t, compMap, owned, nextId, t')
      ensures
        if elem.tag == "" then t'.None?
        else t'.Some? && Shows(EnvNow(), elem, t'.value) && Carried(EnvNow(), old(nextId), nextId, t, elem, t'.value)
      ensures StaleKept(old(usedBy), old(owned), usedBy, owned, IdsOf(t')) && ListedO(usedBy, t')
      ensures effectQueue == old(effectQueue) + QueuedO(t, t')
      decreases scope.rank(elem), 4
    {
      hide Closed, StableHooks, Mounted, Shows, Carried, In, TreeOk, IsTree, Distinct, Accounted, StaleKept,
        Queued, QueuedKids, Issued;
      ghost var used, none: iset<StarId> := usedBy, iset{};
      if elem.tag == "" {
        Unmount(slot, t);
        assert IdsOf(None) == none;
        return None, None;
      }
      ghost var m, u, lo := compMap, owned, nextId;
      TopOf(cfuncs, m, u, t);
      if slot.Some? && compMap[slot.value].tag == elem.tag && compMap[slot.value].key == Key(elem) {
        ghost var t1 := RenderAt(elem, slot.value, t.value);
        return slot, Some(t1);
      }
      Unmount(slot, t);
      ghost var m1, u1 := compMap, owned;
      var id;
      ghost var t1;
      id, t1 := CreateComp(elem);
      Compose(cfuncs, m, u, lo, t, m1, u1, lo, None, compMap, owned, nextId, Some(t1));
      ghost var m2, u2, n2, used2 := compMap, owned, nextId, usedBy;
      ghost var t2 := RenderAt(elem, id, t1);
      StaleChain(used, u, used2, u2, none, usedBy, owned, IdsOf(Some(t2)), IdsOf(Some(t2)));
      Compose(cfuncs, m, u, lo, t, m2, u2, n2, Some(t1), compMap, owned, nextId, Some(t2));
      CarriedNew(EnvNow(), lo, n2, nextId, t, t1, elem, t2);
      ShowsItsElem(EnvNow(), elem, t2);
      QueuedNew(t, t1, t2);
      return Some(id), Some(t2);
    }

    /** createComp: a component without hooks and children, under a new id */
    method CreateComp(elem: Elem) returns (id: StarId, ghost t: Tree)
      requires Ready()
      modifies this`compMap, this`nextId
      ensures Ready() && nextId == old(nextId) + 1 && id == Uuid(old(nextId)) &&
        t == Node(id, Comp(elem.tag, Key(elem), elem, [], "", [], None), [], [])
      ensures Replaced(cfuncs, old(compMap), owned, old(nextId), None, compMap, owned, nextId, Some(t))
    {
      hide Closed, StableHooks, In, TreeOk, IsTree, Distinct;
      ghost var m, lo := compMap, nextId;
      var c := Comp(elem.tag, Key(elem), elem, [], "", [], None);
      id := Uuid(nextId);
      t := Node(id, c, [], []);
      NewNodeOk(cfuncs, t);
      NodeCreated(cfuncs, m, owned, lo, c);
      compMap := compMap[id := c];
      nextId := nextId + 1;
      StillIssued(cfuncs, m, owned, lo, None, compMap, owned, nextId, Some(t));
      AccountedMore(cfuncs, usedBy, owned, lo, nextId);
    }

    /** The rest of render, once the component at hand has the tag and key of the element. */
    method RenderAt(elem: Elem, id: StarId, ghost t: Tree) returns (ghost t': Tree)
      requires Ready() && Mounted(cfuncs, compMap, owned, Some(t)) && id == t.id
      requires t.c.tag == elem.tag && t.c.key == Key(elem) && scope.has(elem)
      modifies this`compMap, this`usedBy, this`owned, this`effectQueue, this`nextId
      ensures Ready() && t'.id == id
      ensures Replaced(cfuncs, old(compMap), old(owned), old(nextId), Some(t), compMap, owned, nextId, Some(t'))
      ensures Shows(EnvNow(), elem, t') && Carried(EnvNow(), old(nextId), nextId, Some(t), elem, t')
      ensures StaleKept(old(usedBy), old(owned), usedBy, owned, IdsOf(Some(t'))) && Listed(usedBy, t')
      ensures effectQueue == old(effectQueue) + Queued(Some(t), t')
      decreases scope.rank(elem), 3
    {
      hide Closed, StableHooks, Mounted, In, IsTree, Distinct, Accounted, StaleKept, Queued, QueuedKids;
      TopOf(cfuncs, compMap, owned, Some(t));
      if elem.tag == TEXT_TAG {
        t' := RenderText(elem, elem.text, id, t);
        QueuedText(Some(t), t');
        StaleSame(usedBy, owned, IdsOf(Some(t')));
      } else if IsBaseTag(elem.tag) {
        t' := RenderSimple(elem, id, t);
      } else if elem.tag !in cfuncs {
        t' := RenderText(elem, "<" + elem.tag + ">", id, t);
        QueuedText(Some(t), t');
        StaleSame(usedBy, owned, IdsOf(Some(t')));
      } else {
        t' := RenderComponent(elem, id, t);
      }
    }

    method RenderText(elem: Elem, text: string, id: StarId, ghost t: Tree) returns (ghost t': Tree)
      requires Ready() && Mounted(cfuncs, compMap, owned, Some(t)) && id == t.id
      requires t.c.tag == elem.tag && t.c.key == Key(elem)
      requires elem.tag == TEXT_TAG || (!IsBaseTag(elem.tag) && elem.tag !in cfuncs)
      modifies this`compMap
      ensures Ready() && t'.id == id
      ensures Replaced(cfuncs, old(compMap), owned, nextId, Some(t), compMap, owned, nextId, Some(t'))
      ensures t'.c.tag == elem.tag && t'.c.key == Key(elem) && t'.c.elem == elem && t'.c.text == text && t'.kids == []
      ensures t'.c.hooks == t.c.hooks && t'.calls == []
    {
      hide Closed, StableHooks, In, IsTree, Distinct, Uses, Mounted, Accounted;
      ghost var m := compMap;
      TopOf(cfuncs, compMap, owned, Some(t));
      TopTreeOk(cfuncs, compMap, owned, t);
      compMap := compMap[id := compMap[id].(elem := elem)];
      ghost var c1 := compMap[id];
      compMap := compMap[id := compMap[id].(text := text)];
      t' := Node(id, compMap[id], [], []);
      NoHooksRun(cfuncs, m, owned, t, compMap[id]);
      PartwayNothing(cfuncs, m[id := c1], owned, nextId, t.kids);
      NodeReplaced(cfuncs, m, owned, nextId, t, c1, owned, m[id := c1], owned, nextId, [], compMap[id], []);
      StillIssued(cfuncs, m, owned, nextId, Some(t), compMap, owned, nextId, Some(t'));
    }

    method RenderSimple(elem: Elem, id: StarId, ghost t: Tree) returns (ghost t': Tree)
      requires Ready() && Mounted(cfuncs, compMap, owned, Some(t)) && id == t.id
      requires t.c.tag == elem.tag && t.c.key == Key(elem) && scope.has(elem)
      requires IsBaseTag(elem.tag) && elem.tag != TEXT_TAG
      modifies this`compMap, this`usedBy, this`owned, this`effectQueue, this`nextId
      ensures Ready() && t'.id == id
      ensures Replaced(cfuncs, old(compMap), old(owned), old(nextId), Some(t), compMap, owned, nextId, Some(t'))
      ensures Shows(EnvNow(), elem, t') && Carried(EnvNow(), old(nextId), nextId, Some(t), elem, t')
      ensures StaleKept(old(usedBy), old(owned), usedBy, owned, IdsOf(Some(t'))) && Listed(usedBy, t')
      ensures effectQueue == old(effectQueue) + Queued(Some(t), t')
      decreases scope.rank(elem), 2
    {
      hide Closed, StableHooks, In, IsTree, Distinct, Uses, Mounted, Partway, Apart, Accounted, StaleKept,
        Queued, QueuedKids, Issued, GoodSiblings, GoodKids, Shows;
      ghost var m, u, lo := compMap, owned, nextId;
      TopOf(cfuncs, m, u, Some(t));
      BaseTreeOk(cfuncs, t);
      ChildrenInScope(cfuncs, scope, elem);
      compMap := compMap[id := compMap[id].(elem := elem)];
      ghost var c1 := compMap[id];
      SetTopIssued(m, u, lo, id, c1);
      forall k | 0 <= k < |t.kids|
        ensures Mounted(cfuncs, compMap, owned, Some(t.kids[k]))
      {
        KidStaysMounted(cfuncs, m, u, t, c1, u, k);
      }
      assert c1.comp == None;  // a component with a base tag never has a sub-component to unmount
      ghost var kids;
      var children;
      children, kids := RenderChildren(elem, compMap[id].children, t.kids);
      TopStays(cfuncs, m, u, lo, t, c1, u, compMap, owned, nextId, kids);
      ghost var m2 := compMap;
      compMap := compMap[id := compMap[id].(children := children)];
      t' := Node(id, compMap[id], [], kids);
      BaseOk(cfuncs, EnvNow(), elem, t');
      QueuedSimple(t, t');
      NoHooksRun(cfuncs, m, u, t, compMap[id]);
      KidsOfNode(t');
      StaleSame(usedBy, owned, iset{});
      StaleChain(old(usedBy), u, usedBy, owned, AllIds(kids), usedBy, owned, iset{}, IdsOf(Some(t')));
      NodeReplaced(cfuncs, m, u, lo, t, c1, u, m2, owned, nextId, kids, compMap[id], []);
      StillIssued(cfuncs, m, u, lo, Some(t), compMap, owned, nextId, Some(t'));
    }

    method RenderChildren(parent: Elem, curChildren: seq<StarId>, ghost olds: seq<Tree>)
        returns (newChildren: seq<StarId>, ghost kids: seq<Tree>)
      requires Ready() && scope.has(parent) && HasChildren(parent)
      requires curChildren == IdSeq(olds) && Apart(olds) && GoodKids(olds)
      requires forall k :: 0 <= k < |olds| ==> Mounted(cfuncs, compMap, owned, Some(olds[k]))
      modifies this`compMap, this`usedBy, this`owned, this`effectQueue, this`nextId
      ensures Ready()
      ensures Partway(cfuncs, old(compMap), old(owned), old(nextId), AllIds(olds), compMap, owned, nextId, kids)
      ensures newChildren == IdSeq(kids) && |kids| == |parent.children|
      ensures forall i :: 0 <= i < |kids| ==> Shows(EnvNow(), parent.children[i], kids[i])
      ensures CarriedKids(EnvNow(), old(nextId), nextId, olds, parent.children, kids)
      ensures StaleKept(old(usedBy), old(owned), usedBy, owned, AllIds(kids)) && ListedAll(usedBy, kids)
      ensures effectQueue == old(effectQueue) + QueuedKids(olds, kids)
      decreases scope.rank(parent), 1
    {
      hide CarriedKids, Closed, StableHooks, In, IsTree, Distinct, Uses, Mounted, Partway, Apart, Shows,
        CarriedChild, GoodKids, GoodSiblings, Lookups, Accounted, StaleKept, ListedAll, Below, KidKey, IsBaseTag,
        Queued, QueuedKids, Taken,
        Matches, MakeChildKey, HasChildren, Key, Issued;
      ghost var m, u, lo, used0 := compMap, owned, nextId, usedBy;
      StaleSame(used0, u, AllIds([]));
      ChildrenInScope(cfuncs, scope, parent);
      NoneYet(used0, olds);
      var curCM := LookupChildren(curChildren, olds);
      PartwayStart(cfuncs, m, u, lo);
      GoneNone(olds);
      CarriedNone(EnvNow(), lo, olds, parent.children);
      TakenNone(olds, parent.children);
      newChildren, kids := [], [];
      var used: set<StarId> := {};
      ghost var done: set<nat> := {};
      for idx := 0 to |parent.children|
        invariant Ready() && lo <= nextId
        invariant |kids| == idx && newChildren == IdSeq(kids)
        invariant Partway(cfuncs, m, u, lo, Gone(olds, done), compMap, owned, nextId, kids)
        invariant Taken(olds, parent.children, idx, used, done)
        invariant forall i :: 0 <= i < idx ==> Shows(EnvNow(), parent.children[i], kids[i])
        invariant CarriedKids(EnvNow(), lo, nextId, olds, parent.children, kids)
        invariant StaleKept(used0, u, usedBy, owned, AllIds(kids)) && ListedAll(usedBy, kids)
        invariant effectQueue == old(effectQueue) + QueuedKids(olds, kids)
      {
        var elem := parent.children[idx];
        var key := MakeChildKey(elem.tag, Key(elem), idx);
        ghost var j := WhichMatches(curCM, olds, parent.children, idx, used, done);
        TakenNext(olds, parent.children, idx, used, done, j);
        var curChild := if key in curCM then Some(curCM[key]) else None;
        if curChild.Some? {
          used := used + {curChild.value};
        }
        ghost var n1 := nextId;
        var id;
        ghost var kid;
        id, kid := RenderChild(parent, idx, curChild, j, used0, m, u, lo, olds, done, kids);
        CarriedNext(EnvNow(), lo, n1, nextId, olds, parent.children, kids, kid, j);
        EffectsNext(EnvNow(), olds, elem, kids, kid, j);
        newChildren, kids := newChildren + [id], kids + [kid];
        done := if j.Some? then done + {j.value} else done;
      }
      TakenAll(olds, parent.children, used, done);
      UnmountUnused(curChildren, used, used0, m, u, lo, olds, done, kids);
    }

    method RenderComponent(elem: Elem, id: StarId, ghost t: Tree) returns (ghost t': Tree)
      requires Ready() && Mounted(cfuncs, compMap, owned, Some(t)) && id == t.id
      requires t.c.tag == elem.tag && t.c.key == Key(elem) && scope.has(elem) && IsFunc(cfuncs, elem.tag)
      modifies this`compMap, this`usedBy, this`owned, this`effectQueue, this`nextId
      ensures Ready() && t'.id == id
      ensures Replaced(cfuncs, old(compMap), old(owned), old(nextId), Some(t), compMap, owned, nextId, Some(t'))
      ensures Shows(EnvNow(), elem, t') && Carried(EnvNow(), old(nextId), nextId, Some(t), elem, t')
      ensures StaleKept(old(usedBy), old(owned), usedBy, owned, IdsOf(Some(t'))) && Listed(usedBy, t')
      ensures effectQueue == old(effectQueue) + Queued(Some(t), t')
      decreases scope.rank(elem), 2
    {
      hide Closed, StableHooks, In, IsTree, Distinct, Uses, Mounted, Partway, Apart, Shows, Carried, HooksRun,
        Calls, TreeOk, FitFunc, Output, CallsFrom, Listed, Replaced, Accounted, StaleKept, Stale,
        Queued, QueuedKids, OwnEffects, HooksAfter, AllCalled, Issued;
      ghost var m, u, lo, used := compMap, owned, nextId, usedBy;
      var result;
      ghost var calls;
      result, calls := CallComponent(elem, id, t);
      ghost var m1, c1, u1, prev, used1 := compMap, compMap[id], owned, FirstKid(t.kids), usedBy;
      var slot := compMap[id].comp;
      ghost var next: Option<Tree>;
      if result.None? {
        Unmount(slot, prev);
        slot, next := None, None;
        assert IdsOf(next) == iset{};
      } else {
        slot, next := Render(result.value, slot, prev);
      }
      OneKidPartway(cfuncs, m1, u1, lo, t.kids, compMap, owned, nextId, next);
      StillListed(cfuncs, m, u, lo, t, m1, u1, used1, calls, prev, compMap, owned, nextId, usedBy, next);
      TopStays(cfuncs, m, u, lo, t, c1, u1, compMap, owned, nextId, OptKid(next));
      ghost var m2 := compMap;
      compMap := compMap[id := compMap[id].(comp := slot)];
      t' := Node(id, compMap[id], calls, OptKid(next));
      ComponentStale(t', next, used, u, used1, u1, usedBy, owned);
      FuncOk(cfuncs, EnvNow(), elem, t.c.hooks, t');
      QueuedFunc(t, t', next);
      FuncCarried(EnvNow(), lo, nextId, t, elem, t');
      SameHooksRun(u, t.id, c1, compMap[id], u1);
      NodeReplaced(cfuncs, m, u, lo, t, c1, u1, m2, owned, nextId, OptKid(next), compMap[id], calls);
      StillIssued(cfuncs, m, u, lo, Some(t), compMap, owned, nextId, Some(t'));
    }

    /** The first half of renderComponent: the component function is called with its hooks. */
    method CallComponent(elem: Elem, id: StarId, ghost t: Tree)
        returns (result: Option<Elem>, ghost calls: seq<HookCall>)
      requires Ready() && Mounted(cfuncs, compMap, owned, Some(t)) && id == t.id
      requires t.c.tag == elem.tag && t.c.key == Key(elem) && scope.has(elem) && IsFunc(cfuncs, elem.tag)
      modifies this`compMap, this`usedBy, this`owned, this`effectQueue
      ensures Ready() && |t.kids| <= 1
      ensures id in old(compMap) &&
        compMap == old(compMap)[id := t.c.(elem := elem, hooks := HooksAfter(t.c.hooks, calls))]
      ensures t.c.children == [] && IdOf(FirstKid(t.kids)) == t.c.comp
      ensures HooksRun(old(owned), id, compMap[id], owned) &&
        StaleKept(old(usedBy), old(owned), usedBy, owned, iset{id})
      ensures forall a :: Stale(usedBy, owned, a, id) <==>
        (Stale(old(usedBy), old(owned), a, id) || Calls(calls, a)) && !CleansUp(compMap[id], a)
      ensures AllCalled(compMap[id].hooks) &&
        (StableHooks(cfuncs) ==> FitFunc(compMap[id].hooks, cfuncs, elem.tag))
      ensures Mounted(cfuncs, compMap, owned, FirstKid(t.kids))
      ensures result == Output(EnvNow(), elem, t.c.hooks) && calls == CallsOf(EnvNow(), elem, t.c.hooks)
      ensures forall a :: Calls(calls, a) ==> id in Users(usedBy, a)
      ensures effectQueue == old(effectQueue) + OwnEffects(id, t.c.hooks, calls)
      ensures ResultBelow(scope, result, elem)
    {
      hide Closed, StableHooks, In, IsTree, Distinct, Uses, Mounted, Apart, HooksRun, Calls, CleansUp,
        Accounted, StaleKept, Stale, WithHooks;
      ghost var m, u, lo := compMap, owned, nextId;
      TopOf(cfuncs, m, u, Some(t));
      FuncTreeOk(cfuncs, t);
      FirstKidId(t);
      compMap := compMap[id := compMap[id].(elem := elem)];
      assert compMap[id].children == [];  // a component function's component never has children to unmount
      calls := CallsOf(EnvNow(), elem, t.c.hooks);
      var part := RunHooks(id, cfuncs[elem.tag], elem);
      ghost var c1 := compMap[id];
      owned := WithHooks(u, id, c1);
      assert compMap == m[id := c1];
      OwnHooks(u, id, c1);
      FuncAccounted(cfuncs, m, u, t, EnvNow(), elem, c1, old(usedBy), usedBy, owned, lo);
      FuncIssued(cfuncs, m, u, lo, t, c1, owned);
      FirstKidMounted(cfuncs, m, u, t, c1, owned);
      result := ResultElem(part);
      ResultInScope(EnvNow(), scope, elem, t.c.hooks);
    }

    /** The map curCM of renderChildren. */
    method LookupChildren(curChildren: seq<StarId>, ghost olds: seq<Tree>) returns (curCM: map<ChildKey, StarId>)
      requires curChildren == IdSeq(olds) && GoodKids(olds)
      requires forall k :: 0 <= k < |olds| ==> Mounted(cfuncs, compMap, owned, Some(olds[k]))
      ensures curCM == LookupMap(olds, |olds|) && Lookups(curCM, olds, |olds|)
    {
      hide In, IsTree, Distinct, Uses, Mounted, GoodKids, Lookups;
      curCM := map[];
      LookupsNone(olds);
      for idx := 0 to |curChildren|
        invariant curCM == LookupMap(olds, idx) && Lookups(curCM, olds, idx)
      {
        TopOf(cfuncs, compMap, owned, Some(olds[idx]));
        var child := compMap[curChildren[idx]];
        LookupsStep(curCM, olds, idx);
        if child.key != "" {
          curCM := curCM[ChildKey(child.tag, 0, child.key) := curChildren[idx]];
        } else {
          curCM := curCM[ChildKey(child.tag, idx, "") := curChildren[idx]];
        }
      }
    }

    /** One turn of the loop over the new elements. */
    method RenderChild(parent: Elem, idx: nat, curChild: Option<StarId>, ghost j: Option<nat>,
                       ghost used: UsedBy, ghost m: CompMap, ghost u: UsedBy, ghost lo: nat,
                       ghost olds: seq<Tree>, ghost done: set<nat>, ghost kids: seq<Tree>)
        returns (id: StarId, ghost kid: Tree)
      requires Ready() && Issued(m, u, lo) && Apart(olds)
      requires scope.has(parent) && HasChildren(parent) && idx < |parent.children|
      requires j.Some? ==> j.value < |olds| && j.value !in done && Mounted(cfuncs, m, u, Some(olds[j.value]))
      requires curChild == IdOf(KidAt(olds, j))
      requires Partway(cfuncs, m, u, lo, Gone(olds, done), compMap, owned, nextId, kids)
      requires StaleKept(used, u, usedBy, owned, AllIds(kids)) && ListedAll(usedBy, kids)
      modifies this`compMap, this`usedBy, this`owned, this`effectQueue, this`nextId
      ensures Ready() && id == kid.id && old(nextId) <= nextId
      ensures Partway(cfuncs, m, u, lo, Gone(olds, if j.Some? then done + {j.value} else done), compMap, owned, nextId,
        kids + [kid])
      ensures StaleKept(used, u, usedBy, owned, AllIds(kids + [kid])) && ListedAll(usedBy, kids + [kid])
      ensures Shows(EnvNow(), parent.children[idx], kid)
      ensures Carried(EnvNow(), old(nextId), nextId, KidAt(olds, j), parent.children[idx], kid)
      ensures effectQueue == old(effectQueue) + Queued(KidAt(olds, j), kid)
      decreases scope.rank(parent), 0
    {
      hide StableHooks, TreeOk, Apart, Mounted, Partway, In, IsTree, Distinct, Shows, Carried, Closed,
        Accounted, StaleKept;
      ghost var prev := KidAt(olds, j);
      ghost var m1, u1, n1, used1 := compMap, owned, nextId, usedBy;
      if j.Some? {
        GoneAdd(olds, done, j.value);
        PartwayOther(cfuncs, m, u, lo, Gone(olds, done), compMap, owned, nextId, kids, olds[j.value]);
        MountedInMap(cfuncs, m, u, olds[j.value]);
      } else {
        NothingMounted(cfuncs, compMap, owned);
        assert Gone(olds, done) + IdsOf(None) == Gone(olds, done);
      }
      ChildrenInScope(cfuncs, scope, parent);
      ScopeTag(cfuncs, scope, parent.children[idx]);
      var slot;
      ghost var next;
      slot, next := Render(parent.children[idx], curChild, prev);
      id, kid := slot.value, next.value;
      PartwayStep(cfuncs, m, u, lo, Gone(olds, done), m1, u1, n1, kids, prev, compMap, owned, nextId, next);
      ReplacedBounds(cfuncs, m1, u1, n1, prev, compMap, owned, nextId, next);
      AllIdsAppend(kids, kid);
      StaleChain(used, u, used1, u1, AllIds(kids), usedBy, owned, IdsOf(next), AllIds(kids + [kid]));
      PartwayListed(cfuncs, m, u, lo, Gone(olds, done), kids, m1, used1, u1, n1, prev, compMap, usedBy, owned,
        nextId, next);
    }

    /** The last loop of renderChildren: old children that no element has taken over are unmounted. */
    method UnmountUnused(curChildren: seq<StarId>, used: set<StarId>, ghost used0: UsedBy, ghost m: CompMap,
                         ghost u: UsedBy,
                         ghost lo: nat, ghost olds: seq<Tree>, ghost done0: set<nat>, ghost kids: seq<Tree>)
      requires Ready() && Issued(m, u, lo) && Apart(olds) && curChildren == IdSeq(olds)
      requires forall k :: 0 <= k < |olds| ==> Mounted(cfuncs, m, u, Some(olds[k]))
      requires forall j :: 0 <= j < |olds| ==> (olds[j].id in used <==> j in done0)
      requires Partway(cfuncs, m, u, lo, Gone(olds, done0), compMap, owned, nextId, kids)
      requires StaleKept(used0, u, usedBy, owned, AllIds(kids)) && ListedAll(usedBy, kids)
      modifies this`compMap, this`usedBy, this`owned
      ensures Ready() && StaleKept(used0, u, usedBy, owned, AllIds(kids)) && ListedAll(usedBy, kids)
      ensures Partway(cfuncs, m, u, lo, AllIds(olds), compMap, owned, nextId, kids)
    {
      hide Closed, StableHooks, TreeOk, Apart, Mounted, Partway, In, IsTree, Distinct, Accounted, StaleKept;
      ghost var done: set<nat> := done0;
      for i := 0 to |curChildren|
        invariant Ready() && StaleKept(used0, u, usedBy, owned, AllIds(kids)) && ListedAll(usedBy, kids)
        invariant forall j :: 0 <= j < |olds| ==> (j in done <==> j in done0 || j < i)
        invariant Partway(cfuncs, m, u, lo, Gone(olds, done), compMap, owned, nextId, kids)
      {
        if curChildren[i] !in used {
          UnmountOne(curChildren[i], used0, m, u, lo, olds, done, i, kids, AllIds(kids));
          done := done + {i};
        }
      }
      GoneAll(olds, done);
    }
  }

  /** All children rendered so far carry over from the old ones. */
  ghost predicate CarriedKids(env: Env, lo: nat, hi: nat, olds: seq<Tree>, children: seq<Elem>, kids: seq<Tree>) {
    |kids| <= |children| && forall i :: 0 <= i < |kids| ==> CarriedChild(env, lo, hi, olds, children[i], i, kids[i])
  }

  lemma CarriedNone(env: Env, lo: nat, olds: seq<Tree>, children: seq<Elem>)
    ensures CarriedKids(env, lo, lo, olds, children, [])
  {
  }

  lemma EffectsNext(env: Env, olds: seq<Tree>, e: Elem, kids: seq<Tree>, kid: Tree, j: Option<nat>)
    requires GoodKids(olds) && Shows(env, e, kid)
    requires j.Some? ==> j.value < |olds| && Matches(olds, j.value, e, |kids|)
    requires j.None? ==> forall j' :: 0 <= j' < |olds| ==> !Matches(olds, j', e, |kids|)
    ensures QueuedKids(olds, kids + [kid]) == QueuedKids(olds, kids) + Queued(KidAt(olds, j), kid)
  {
    hide Queued, QueuedKids;
    QueuedNext(olds, kids, kid);
    assert kid.c.elem == e;
    hide Shows, GoodKids;
    MatchFound(olds, e, |kids|);
    if MatchOf(olds, e, |kids|).Some? {
      var j' :| 0 <= j' < |olds| && Matches(olds, j', e, |kids|) && MatchOf(olds, e, |kids|).value == olds[j'];
      if j' != j.value {
        KidKeysDistinct(olds, j', j.value);
      }
    }
  }

  lemma {:induction false} CarriedNext(env: Env, lo: nat, n1: nat, hi: nat, olds: seq<Tree>, children: seq<Elem>,
                                       kids: seq<Tree>,
                                       kid: Tree, j: Option<nat>)
    requires CarriedKids(env, lo, n1, olds, children, kids) && |kids| < |children| && lo <= n1 <= hi && GoodKids(olds)
    requires j.Some? ==> j.value < |olds| && Matches(olds, j.value, children[|kids|], |kids|)
    requires j.None? ==> forall j' :: 0 <= j' < |olds| ==> !Matches(olds, j', children[|kids|], |kids|)
    requires Carried(env, n1, hi, KidAt(olds, j), children[|kids|], kid)
    ensures CarriedKids(env, lo, hi, olds, children, kids + [kid])
  {
    hide CarriedChild, Carried, Matches, GoodKids;
    forall i | 0 <= i < |kids|
      ensures CarriedChild(env, lo, hi, olds, children[i], i, kids[i])
    {
      CarriedChildMono(env, lo, n1, lo, hi, olds, children[i], i, kids[i]);
    }
    CarriedMono(env, n1, hi, lo, hi, KidAt(olds, j), children[|kids|], kid);
    CarriedMatch(env, lo, hi, olds, children[|kids|], |kids|, kid, j);
  }

  lemma NoCalls()
    ensures forall a :: !Calls([], a)
  {
  }

  lemma SlotsNone(hooks: seq<Hook>)
    ensures HooksAfter(hooks, []) == hooks
  {
  }

  /** One more call changes its own slot only, which is made if need be. */
  lemma SlotsNext(hooks: seq<Hook>, calls: seq<HookCall>, call: HookCall)
    ensures var i, before := |calls|, HooksAfter(hooks, calls);
      var made := if |before| <= i then before + [FRESH_HOOK] else before;
      && i < |made| && made[i] == SlotOrFresh(hooks, i)
      && HooksAfter(hooks, calls + [call]) == made[i := HookAfter(made[i], call)]
  {
    hide HookAfter;
  }

  lemma NoEffects(id: StarId, hooks: seq<Hook>)
    ensures OwnEffects(id, hooks, []) == []
  {
  }

  lemma EffectsStep(id: StarId, hooks: seq<Hook>, calls: seq<HookCall>, call: HookCall)
    ensures var h := SlotOrFresh(hooks, |calls|);
      OwnEffects(id, hooks, calls + [call]) == OwnEffects(id, hooks, calls) +
        if call.UseEffect? && !(h.init && h.val == call.deps) then [(id, |calls|)] else []
  {
    assert (calls + [call])[..|calls|] == calls;
  }

  lemma CallsStep(calls: seq<HookCall>, call: HookCall)
    ensures forall a :: Calls(calls + [call], a) <==> Calls(calls, a) || call == UseAtom(a)
  {
    forall a
      ensures Calls(calls + [call], a) <==> Calls(calls, a) || call == UseAtom(a)
    {
      if Calls(calls, a) {
        var k :| 0 <= k < |calls| && calls[k] == UseAtom(a);
        assert (calls + [call])[k] == UseAtom(a);
      }
      if call == UseAtom(a) {
        assert (calls + [call])[|calls|] == UseAtom(a);
      }
    }
  }

  /** A component function that makes these calls, whatever they return. */
  function Straight(calls: seq<HookCall>): CFunc {
    var f := CFunc((e, vals: seq<Val>) => if |vals| < |calls| then (|calls| - |vals|) as ORDINAL else 0,
      (e, vals: seq<Val>) => if |vals| < |calls| then Call(calls[|vals|]) else Return(PartNil));
    assert Returns(f);
    f
  }

  lemma {:induction false} StraightCalls(env: Env, hooks: seq<Hook>, calls: seq<HookCall>, e: Elem, vals: seq<Val>)
    requires |vals| <= |calls|
    ensures CallsFrom(env, hooks, Straight(calls), e, vals) == calls[|vals|..]
    decreases |calls| - |vals|
  {
    if |vals| < |calls| {
      StraightCalls(env, hooks, calls, e, vals + [NextVal(env, hooks, vals, calls[|vals|])]);
    }
  }

  lemma NoMoreCalls(env: Env, hooks: seq<Hook>, f: CFunc, e: Elem, vals: seq<Val>, calls: seq<HookCall>)
    requires f.next(e, vals).Return?
    ensures calls + CallsFrom(env, hooks, f, e, vals) == calls
    ensures PartFrom(env, hooks, f, e, vals) == f.next(e, vals).part
  {
  }

  lemma NextCall(env: Env, hooks: seq<Hook>, f: CFunc, e: Elem, vals: seq<Val>, calls: seq<HookCall>)
    requires f.next(e, vals).Call?
    ensures var call := f.next(e, vals).call;
      var vals' := vals + [NextVal(env, hooks, vals, call)];
      && calls + CallsFrom(env, hooks, f, e, vals) == calls + [call] + CallsFrom(env, hooks, f, e, vals')
      && PartFrom(env, hooks, f, e, vals) == PartFrom(env, hooks, f, e, vals')
      && f.left(e, vals') < f.left(e, vals)
  {
    assert Returns(f);
  }

  lemma TopOf(cfuncs: map<string, CFunc>, m: CompMap, u: UsedBy, t: Option<Tree>)
    requires Mounted(cfuncs, m, u, t)
    ensures t.Some? ==> t.value.id in m && m[t.value.id] == t.value.c && TreeOk(cfuncs, t.value)
    ensures t.Some? ==>
      |t.value.kids| == |KidIds(t.value.c)| && IdSeq(t.value.kids) == KidIds(t.value.c) && Apart(t.value.kids)
  {
  }

  lemma TopTreeOk(cfuncs: map<string, CFunc>, m: CompMap, u: UsedBy, t: Tree)
    requires Mounted(cfuncs, m, u, Some(t))
    requires t.c.tag == TEXT_TAG || (!IsBaseTag(t.c.tag) && t.c.tag !in cfuncs)
    ensures t.kids == [] && t.c.hooks == [] && t.c.comp == None && t.c.children == []
  {
  }

  lemma NewNodeOk(cfuncs: map<string, CFunc>, t: Tree)
    requires t.c == Comp(t.c.elem.tag, Key(t.c.elem), t.c.elem, [], "", [], None) && t.kids == []
    ensures TreeOk(cfuncs, t)
  {
  }

  /** A component without hooks is registered with no atom. */
  lemma NoHooksRun(cfuncs: map<string, CFunc>, m: CompMap, u: UsedBy, t: Tree, c: Comp)
    requires Mounted(cfuncs, m, u, Some(t)) && t.c.hooks == [] && c.hooks == []
    ensures HooksRun(u, t.id, c, u)
  {
    forall a
      ensures t.id !in Users(u, a)
    {
      TopUses(t, a);
      assert InO(Some(t), t.id) && !UsesO(Some(t), t.id, a);
    }
  }

  lemma PartwayNothing(cfuncs: map<string, CFunc>, m: CompMap, u: UsedBy, lo: nat, kids: seq<Tree>)
    requires kids == []
    ensures Partway(cfuncs, m, u, lo, AllIds(kids), m, u, lo, [])
  {
    assert AllIds(kids) == iset{};
    PartwayStart(cfuncs, m, u, lo);
  }

  /** What a component carries over from one that has just been created is nothing. */
  lemma {:induction false} CarriedNew(env: Env, lo: nat, lo1: nat, hi: nat, t: Option<Tree>, t1: Tree, e: Elem,
                                      t2: Tree)
    requires t1.c.hooks == [] && t1.kids == [] && t1.c.tag == e.tag && t1.c.key == Key(e)
    requires FreshId(t1.id, lo, lo1) && lo <= lo1 <= hi && !SameComp(t, e)
    requires Carried(env, lo1, hi, Some(t1), e, t2)
    ensures Carried(env, lo, hi, t, e, t2)
  {
    CarriedMono(env, lo1, hi, lo, hi, Some(t1), e, t2);
  }

  lemma BaseTreeOk(cfuncs: map<string, CFunc>, t: Tree)
    requires TreeOk(cfuncs, t) && IsBaseTag(t.c.tag) && t.c.tag != TEXT_TAG
    ensures t.c.hooks == [] && t.c.comp == None && GoodKids(t.kids)
  {
  }

  lemma ShowsItsElem(env: Env, e: Elem, t: Tree)
    requires Shows(env, e, t)
    ensures t.c.elem == e
  {
  }

  lemma NoneYet(u: UsedBy, olds: seq<Tree>)
    ensures ListedAll(u, []) && QueuedKids(olds, []) == []
  {
  }

  lemma ChildrenInScope(cfuncs: map<string, CFunc>, scope: Scope, e: Elem)
    requires Closed(cfuncs, scope) && scope.has(e) && HasChildren(e)
    ensures GoodSiblings(e.children) && forall i :: 0 <= i < |e.children| ==> Below(scope, e.children[i], e)
  {
    assert Inside(cfuncs, scope, e);
  }

  lemma ScopeTag(cfuncs: map<string, CFunc>, scope: Scope, e: Elem)
    requires Closed(cfuncs, scope) && scope.has(e)
    ensures e.tag != ""
  {
    assert Inside(cfuncs, scope, e);
  }

  lemma NothingMounted(cfuncs: map<string, CFunc>, m: CompMap, u: UsedBy)
    ensures Mounted(cfuncs, m, u, None)
  {
  }

  lemma ReplacedBounds(cfuncs: map<string, CFunc>, m: CompMap, u: UsedBy, lo: nat, prev: Option<Tree>,
                       m': CompMap, u': UsedBy, hi: nat, next: Option<Tree>)
    requires Replaced(cfuncs, m, u, lo, prev, m', u', hi, next)
    ensures lo <= hi
  {
  }

  lemma LookupsNone(kids: seq<Tree>)
    ensures Lookups(map[], kids, 0)
  {
  }

  lemma {:induction false} IdsDistinct(kids: seq<Tree>, j: nat)
    requires Apart(kids) && j < |kids|
    ensures forall i :: 0 <= i < |kids| && i != j ==> kids[i].id != kids[j].id
  {
    forall i | 0 <= i < |kids| && i != j
      ensures kids[i].id != kids[j].id
    {
      assert In(kids[i], kids[i].id) && In(kids[j], kids[j].id);
    }
  }

  /** The old children that the first n elements have taken over: `used` holds their ids. */
  ghost predicate Taken(olds: seq<Tree>, es: seq<Elem>, n: nat, used: set<StarId>, done: set<nat>)
    requires n <= |es|
  {
    && (forall j :: j in done ==> j < |olds| && exists i :: 0 <= i < n && Matches(olds, j, es[i], i))
    && (forall j :: 0 <= j < |olds| ==> (olds[j].id in used <==> j in done))
  }

  lemma TakenNone(olds: seq<Tree>, es: seq<Elem>)
    ensures Taken(olds, es, 0, {}, {})
  {
  }

  lemma TakenNext(olds: seq<Tree>, es: seq<Elem>, n: nat, used: set<StarId>, done: set<nat>, j: Option<nat>)
    requires n < |es| && Taken(olds, es, n, used, done) && Apart(olds)
    requires j.Some? ==> j.value < |olds| && Matches(olds, j.value, es[n], n)
    ensures Taken(olds, es, n + 1, if j.Some? then used + {olds[j.value].id} else used,
      if j.Some? then done + {j.value} else done)
  {
    hide Matches;
    if j.Some? {
      IdsDistinct(olds, j.value);
    }
  }

  lemma TakenAll(olds: seq<Tree>, es: seq<Elem>, used: set<StarId>, done: set<nat>)
    requires Taken(olds, es, |es|, used, done)
    ensures forall j :: 0 <= j < |olds| ==> (olds[j].id in used <==> j in done)
  {
  }

  /** Which old child the lookup finds: one that no earlier element has taken over. */
  lemma {:induction false} WhichMatches(cm: map<ChildKey, StarId>, olds: seq<Tree>, es: seq<Elem>, i: nat,
                                        used: set<StarId>, done: set<nat>) returns (j: Option<nat>)
    requires Lookups(cm, olds, |olds|) && GoodKids(olds) && GoodSiblings(es) && i < |es|
    requires Taken(olds, es, i, used, done)
    ensures var key := MakeChildKey(es[i].tag, Key(es[i]), i);
      if key in cm then
        j.Some? && j.value < |olds| && Matches(olds, j.value, es[i], i) && j.value !in done &&
          cm[key] == olds[j.value].id
      else j.None? && forall k :: 0 <= k < |olds| ==> !Matches(olds, k, es[i], i)
  {
    var key := MakeChildKey(es[i].tag, Key(es[i]), i);
    if key in cm {
      var k :| 0 <= k < |olds| && key == KidKey(olds, k);
      j := Some(k);
      if k in done {
        var i' :| 0 <= i' < i && Matches(olds, k, es[i'], i');
        ElemKeysDistinct(es, i', i);
      }
    } else {
      j := None;
    }
  }

  lemma SetTopIssued(m: CompMap, u: UsedBy, lo: nat, id: StarId, c: Comp)
    requires Issued(m, u, lo) && id in m
    ensures Issued(m[id := c], u, lo)
  {
  }

  /** The component whose children are rendered keeps its own record meanwhile. */
  lemma {:induction false} TopStays(cfuncs: map<string, CFunc>, m: CompMap, u: UsedBy, lo: nat, t: Tree, c1: Comp,
                                    u1: UsedBy, m2: CompMap, u2: UsedBy, hi: nat, kids: seq<Tree>)
    requires Issued(m, u, lo) && Mounted(cfuncs, m, u, Some(t))
    requires Partway(cfuncs, m[t.id := c1], u1, lo, AllIds(t.kids), m2, u2, hi, kids)
    ensures t.id in m2 && m2[t.id] == c1 && lo <= hi
    ensures forall k :: 0 <= k < |kids| ==> TreeOk(cfuncs, kids[k])
  {
    NodeTop(m, t);
    hide In;
  }

  lemma {:induction false} BaseOk(cfuncs: map<string, CFunc>, env: Env, e: Elem, t: Tree)
    requires IsBaseTag(e.tag) && e.tag != TEXT_TAG && GoodSiblings(e.children)
    requires t.c.tag == e.tag && t.c.key == Key(e) && t.c.elem == e && t.c.hooks == [] && t.c.comp == None
    requires |t.kids| == |e.children| && t.calls == []
    requires forall i :: 0 <= i < |t.kids| ==> Shows(env, e.children[i], t.kids[i]) && TreeOk(cfuncs, t.kids[i])
    ensures Shows(env, e, t) && TreeOk(cfuncs, t)
  {
    TreeOkGoodKids(e.children, t.kids);
  }

  ghost function OptKid(t: Option<Tree>): seq<Tree> {
    if t.Some? then [t.value] else []
  }

  lemma FuncTreeOk(cfuncs: map<string, CFunc>, t: Tree)
    requires TreeOk(cfuncs, t) && IsFunc(cfuncs, t.c.tag)
    ensures t.c.children == [] && KidIds(t.c) == if t.c.comp.Some? then [t.c.comp.value] else []
  {
  }

  lemma FuncIssued(cfuncs: map<string, CFunc>, m: CompMap, u: UsedBy, lo: nat, t: Tree, c1: Comp, u1: UsedBy)
    requires Issued(m, u, lo) && t.id in m && HooksRun(u, t.id, c1, u1)
    ensures Issued(m[t.id := c1], u1, lo)
  {
    hide CleansUp;
    assert FreshId(t.id, 0, lo);
    forall a, x | x in Users(u1, a)
      ensures FreshId(x, 0, lo)
    {
      assert x in Users(u, a) ==> FreshId(x, 0, lo);
      assert x in Users(u1, a) <==> if x == t.id then CleansUp(c1, a) else x in Users(u, a);
    }
  }

  lemma FirstKidMounted(cfuncs: map<string, CFunc>, m: CompMap, u: UsedBy, t: Tree, c1: Comp, u1: UsedBy)
    requires Mounted(cfuncs, m, u, Some(t)) && HooksRun(u, t.id, c1, u1)
    ensures Mounted(cfuncs, m[t.id := c1], u1, FirstKid(t.kids))
  {
    if t.kids != [] {
      KidStaysMounted(cfuncs, m, u, t, c1, u1, 0);
    }
  }

  lemma FuncAccounted(cfuncs: map<string, CFunc>, m: CompMap, owned: UsedBy, t: Tree, env: Env, e: Elem, c: Comp,
                      u: UsedBy, u': UsedBy, owned': UsedBy, lo: nat)
    requires Mounted(cfuncs, m, owned, Some(t)) && IsFunc(cfuncs, t.c.tag) && e.tag == t.c.tag && Issued(m, owned, lo)
    requires env.cfuncs == cfuncs && Accounted(cfuncs, u, owned, lo) && HooksRun(owned, t.id, c, owned')
    requires var calls := CallsOf(env, e, t.c.hooks);
      c.hooks == HooksAfter(t.c.hooks, calls) &&
      forall a, x :: x in Users(u', a) <==> x in Users(u, a) || (x == t.id && Calls(calls, a))
    ensures Accounted(cfuncs, u', owned', lo) && StaleKept(u, owned, u', owned', iset{t.id})
    ensures forall a :: Stale(u', owned', a, t.id) <==>
      (Stale(u, owned, a, t.id) || Calls(CallsOf(env, e, t.c.hooks), a)) && !CleansUp(c, a)
    ensures AllCalled(c.hooks) && (StableHooks(cfuncs) ==> FitFunc(c.hooks, cfuncs, e.tag))
  {
    assert t.id in m && FreshId(t.id, 0, lo) && AllCalled(t.c.hooks);
    assert forall a, x :: x in Users(owned, a) ==> x in Users(u, a);
    hide Mounted, HooksRun, HooksFit, FitFunc, StableHooks, StaleKept, Stale, Calls, CleansUp, Accounted, Users, Issued,
      CallsFrom;
    CallsAccounted(cfuncs, m, owned, t, env, e, c, u, u', owned', lo);
    StaleAfterCalls(cfuncs, m, owned, t, CallsOf(env, e, t.c.hooks), c, u, u', owned');
  }

  /** The registrations that will be undone are those of the hook slots in the tree. */
  lemma OwnedIsUses(cfuncs: map<string, CFunc>, m: CompMap, owned: UsedBy, t: Option<Tree>)
    requires Mounted(cfuncs, m, owned, t) && forall a, x :: x in Users(owned, a) ==> InO(t, x)
    ensures forall a, x :: x in Users(owned, a) <==> UsesO(t, x, a)
  {
    forall a, x
      ensures x in Users(owned, a) <==> UsesO(t, x, a)
    {
      if UsesO(t, x, a) {
        UsesIn(t.value, x, a);
      }
    }
  }

  lemma UsersOf(cfuncs: map<string, CFunc>, u: UsedBy, owned: UsedBy, lo: nat, a: string)
    requires Accounted(cfuncs, u, owned, lo)
    ensures Users(owned, a) <= Users(u, a) && (StableHooks(cfuncs) ==> Users(u, a) == Users(owned, a))
  {
    hide StableHooks;
    assert forall x :: x in Users(u, a) && x !in Users(owned, a) ==> Stale(u, owned, a, x);
  }

  lemma AccountedMore(cfuncs: map<string, CFunc>, u: UsedBy, owned: UsedBy, lo: nat, hi: nat)
    requires Accounted(cfuncs, u, owned, lo) && lo <= hi
    ensures Accounted(cfuncs, u, owned, hi)
  {
    hide StableHooks, Stale;
    forall a, x | x in Users(u, a)
      ensures FreshId(x, 0, hi)
    {
      assert FreshId(x, 0, lo);
    }
  }

  lemma KidsOfNode(t: Tree)
    ensures AllIds(t.kids) <= IdsOf(Some(t)) && t.id in IdsOf(Some(t))
  {
    NodeIds(t);
    hide In;
  }

  lemma AllIdsAppend(ts: seq<Tree>, t: Tree)
    ensures AllIds(ts) <= AllIds(ts + [t]) && IdsOf(Some(t)) <= AllIds(ts + [t])
  {
    hide In;
    forall id | InAny(ts, id) || In(t, id)
      ensures InAny(ts + [t], id)
    {
      InAnyAppend(ts, t, id);
    }
  }

  /** A component function's calls concern its own registrations, and rendering below it those of what is mounted
      there. */
  lemma ComponentStale(t: Tree, next: Option<Tree>, u: UsedBy, owned: UsedBy, u1: UsedBy, owned1: UsedBy, u2: UsedBy,
                       owned2: UsedBy)
    requires t.kids == OptKid(next)
    requires StaleKept(u, owned, u1, owned1, iset{t.id}) && StaleKept(u1, owned1, u2, owned2, IdsOf(next))
    ensures StaleKept(u, owned, u2, owned2, IdsOf(Some(t)))
  {
    hide StaleKept, In;
    KidsOfNode(t);
    forall id | InO(next, id)
      ensures InAny(t.kids, id)
    {
      assert In(t.kids[0], id);
    }
    StaleChain(u, owned, u1, owned1, iset{t.id}, u2, owned2, IdsOf(next), IdsOf(Some(t)));
  }

  /** A component stays among the users of the atoms that it has called while what is below it is rendered. */
  lemma StillListed(cfuncs: map<string, CFunc>, m: CompMap, u: UsedBy, lo: nat, t: Tree, m1: CompMap, u1: UsedBy,
                    used1: UsedBy, calls: seq<HookCall>, prev: Option<Tree>, m2: CompMap, u2: UsedBy, hi: nat,
                    used2: UsedBy, next: Option<Tree>)
    requires Issued(m, u, lo) && Mounted(cfuncs, m, u, Some(t)) && prev == FirstKid(t.kids)
    requires forall a :: Calls(calls, a) ==> t.id in Users(used1, a)
    requires Accounted(cfuncs, used1, u1, lo) && Accounted(cfuncs, used2, u2, hi)
    requires Replaced(cfuncs, m1, u1, lo, prev, m2, u2, hi, next)
    requires StaleKept(used1, u1, used2, u2, IdsOf(next)) && ListedO(used2, next)
    ensures forall c :: Listed(used2, Node(t.id, c, calls, OptKid(next)))
  {
    hide Accounted, UsersReplaced, StaleKept, Calls, Users, TreeOk, Uses, Apart;
    NodeTop(m, t);
    assert FreshId(t.id, 0, lo);
    assert !InO(prev, t.id) by {
      hide In;
      assert t.kids != [] && In(t.kids[0], t.id) ==> InAny(t.kids, t.id);
    }
    assert !InO(next, t.id);
    var own := Node(t.id, t.c, calls, []);
    ListedKept(cfuncs, used1, u1, lo, prev, used2, u2, hi, next, own);
  }

  lemma {:induction false} OneKidPartway(cfuncs: map<string, CFunc>, m: CompMap, u: UsedBy, lo: nat, kids: seq<Tree>,
                                         m2: CompMap, u2: UsedBy, hi: nat, next: Option<Tree>)
    requires Issued(m, u, lo) && |kids| <= 1 && Mounted(cfuncs, m, u, FirstKid(kids))
    requires Replaced(cfuncs, m, u, lo, FirstKid(kids), m2, u2, hi, next)
    ensures Partway(cfuncs, m, u, lo, AllIds(kids), m2, u2, hi, OptKid(next))
  {
    hide Partway, Mounted, In, Replaced;
    PartwayStart(cfuncs, m, u, lo);
    if kids != [] {
      MountedInMap(cfuncs, m, u, kids[0]);
    }
    assert forall id :: !InAny([], id);
    PartwayStep(cfuncs, m, u, lo, iset{}, m, u, lo, [], FirstKid(kids), m2, u2, hi, next);
    assert iset{} + IdsOf(FirstKid(kids)) == AllIds(kids) by {
      if kids != [] {
        assert forall id :: InAny(kids, id) <==> In(kids[0], id);
      }
    }
    if next.Some? {
      assert [] + [next.value] == [next.value];
    }
  }

  lemma FuncOk(cfuncs: map<string, CFunc>, env: Env, e: Elem, hooks: seq<Hook>, t: Tree)
    requires env.cfuncs == cfuncs && IsFunc(cfuncs, e.tag) && t.c.tag == e.tag && t.c.key == Key(e) && t.c.elem == e
    requires t.c.children == [] && AllCalled(t.c.hooks)
    requires t.calls == CallsOf(env, e, hooks) && t.c.hooks == HooksAfter(hooks, t.calls)
    requires StableHooks(cfuncs) ==> FitFunc(t.c.hooks, cfuncs, e.tag)
    requires |t.kids| <= 1 && forall k :: 0 <= k < |t.kids| ==> TreeOk(cfuncs, t.kids[k])
    requires var r := Output(env, e, hooks);
      if r.None? || r.value.tag == "" then t.kids == [] else |t.kids| == 1 && Shows(env, r.value, t.kids[0])
    ensures TreeOk(cfuncs, t) && Shows(env, e, t)
  {
    hide Output, CallsFrom, FitFunc, StableHooks, HooksAfter, AllCalled;
    OutputAgain(env, e, hooks);
  }

  lemma FuncCarried(env: Env, lo: nat, hi: nat, t: Tree, e: Elem, t': Tree)
    requires IsFunc(env.cfuncs, e.tag) && t.c.tag == e.tag && t.c.key == Key(e) && t'.id == t.id
    requires t'.c.hooks == HooksAfter(t.c.hooks, CallsOf(env, e, t.c.hooks))
    requires var r := Output(env, e, t.c.hooks);
      r.Some? && r.value.tag != "" ==> |t'.kids| == 1 && Carried(env, lo, hi, FirstKid(t.kids), r.value, t'.kids[0])
    ensures Carried(env, lo, hi, Some(t), e, t')
  {
    hide Output, CallsFrom, HooksAfter;
  }

  lemma SameHooksRun(u: UsedBy, id: StarId, c: Comp, c': Comp, u1: UsedBy)
    requires HooksRun(u, id, c, u1) && c'.hooks == c.hooks
    ensures HooksRun(u, id, c', u1)
  {
    assert forall a :: CleansUp(c, a) <==> CleansUp(c', a);
  }

  lemma FirstKidId(t: Tree)
    requires KidIds(t.c) == (if t.c.comp.Some? then [t.c.comp.value] else []) && IdSeq(t.kids) == KidIds(t.c)
    ensures |t.kids| <= 1 && IdOf(FirstKid(t.kids)) == t.c.comp
  {
    assert |t.kids| == |IdSeq(t.kids)|;
    if t.kids != [] {
      assert IdSeq(t.kids)[0] == t.kids[0].id;
    }
  }

  lemma MountedOk(cfuncs: map<string, CFunc>, m: CompMap, u: UsedBy, t: Option<Tree>)
    requires Mounted(cfuncs, m, u, t)
    ensures OkO(cfuncs, t)
  {
  }

  /** Replacing the whole tree keeps CompMap and the users exact. */
  lemma {:induction false} RootReplaced(cfuncs: map<string, CFunc>, m: CompMap, u: UsedBy, lo: nat, prev: Option<Tree>,
                                        m': CompMap, u': UsedBy, hi: nat, next: Option<Tree>)
    requires Replaced(cfuncs, m, u, lo, prev, m', u', hi, next)
    requires forall id :: id in m <==> InO(prev, id)
    requires forall a, id :: id in Users(u, a) ==> InO(prev, id)
    ensures forall id :: id in m' <==> InO(next, id)
    ensures forall a, id :: id in Users(u', a) ==> InO(next, id)
  {
    forall a, id | id in Users(u', a)
      ensures InO(next, id)
    {
      if UsesO(next, id, a) {
        UsesIn(next.value, id, a);
      }
    }
  }

  lemma {:induction false} RenderedElem(env: Env, scope: Scope, lo: nat, hi: nat, prev: Option<Tree>, e: Elem,
                                        next: Option<Tree>)
    requires Closed(env.cfuncs, scope) && (e.tag != "" ==> scope.has(e)) && OkO(env.cfuncs, prev)
    requires if e.tag == "" then next.None?
      else next.Some? && Shows(env, e, next.value) && Carried(env, lo, hi, prev, e, next.value)
    ensures StripO(ReadO(next)) == Expand(env, scope, e, prev)
    ensures next.Some? ==> next.value.c.elem == e && scope.has(e)
  {
    if next.Some? {
      ReadsAsExpansion(env, scope, lo, hi, prev, e, next.value);
    }
  }

  function WithHookValue(m: CompMap, id: StarId, idx: nat, val: Val): CompMap
    requires id in m && idx < |m[id].hooks|
  {
    m[id := m[id].(hooks := m[id].hooks[idx := m[id].hooks[idx].(val := val)])]
  }

  /** The tree in which one hook slot of one component has another value. */
  ghost function SetHook(t: Tree, id: StarId, idx: nat, val: Val): Tree {
    var c := if t.id == id && idx < |t.c.hooks| then t.c.(hooks := t.c.hooks[idx := t.c.hooks[idx].(val := val)])
      else t.c;
    Node(t.id, c, t.calls, seq(|t.kids|, i requires 0 <= i < |t.kids| => SetHook(t.kids[i], id, idx, val)))
  }

  lemma {:induction false} SetHookSame(t: Tree, id: StarId, idx: nat, val: Val)
    ensures forall x :: In(SetHook(t, id, idx, val), x) <==> In(t, x)
    ensures forall x, a :: Uses(SetHook(t, id, idx, val), x, a) <==> Uses(t, x, a)
  {
    var t' := SetHook(t, id, idx, val);
    forall i | 0 <= i < |t.kids|
      ensures forall x :: In(t'.kids[i], x) <==> In(t.kids[i], x)
      ensures forall x, a :: Uses(t'.kids[i], x, a) <==> Uses(t.kids[i], x, a)
    {
      SetHookSame(t.kids[i], id, idx, val);
    }
    forall a
      ensures CleansUp(t'.c, a) <==> CleansUp(t.c, a)
    {
      assert forall k :: 0 <= k < |t.c.hooks| ==> t'.c.hooks[k].cleanup == t.c.hooks[k].cleanup;
      if CleansUp(t.c, a) {
        var k :| 0 <= k < |t.c.hooks| && t.c.hooks[k].cleanup == Some(a);
        assert t'.c.hooks[k].cleanup == Some(a);
      }
    }
  }

  lemma SetHookNothing(cfuncs: map<string, CFunc>, m: CompMap, u: UsedBy, t: Tree, id: StarId, idx: nat, val: Val)
    requires Mounted(cfuncs, m, u, Some(t)) && (id !in m || idx >= |m[id].hooks|)
    ensures SetHook(t, id, idx, val) == t
  {
    SetHookElsewhere(m, t, id, idx, val);
  }

  lemma {:induction false} SetHookElsewhere(m: CompMap, t: Tree, id: StarId, idx: nat, val: Val)
    requires IsTree(m, t) && (id !in m || idx >= |m[id].hooks|)
    ensures SetHook(t, id, idx, val) == t
  {
    forall i | 0 <= i < |t.kids|
      ensures SetHook(t.kids[i], id, idx, val) == t.kids[i]
    {
      SetHookElsewhere(m, t.kids[i], id, idx, val);
    }
    assert SetHook(t, id, idx, val).kids == t.kids;
  }

  lemma {:induction false} SetHookListed(u: UsedBy, t: Tree, id: StarId, idx: nat, val: Val)
    requires Listed(u, t)
    ensures Listed(u, SetHook(t, id, idx, val))
  {
    var t' := SetHook(t, id, idx, val);
    forall i | 0 <= i < |t.kids|
      ensures Listed(u, t'.kids[i])
    {
      SetHookListed(u, t.kids[i], id, idx, val);
    }
  }

  lemma {:induction false} SetHookIsTree(m: CompMap, t: Tree, id: StarId, idx: nat, val: Val)
    requires IsTree(m, t) && id in m && idx < |m[id].hooks|
    ensures IsTree(m[id := m[id].(hooks := m[id].hooks[idx := m[id].hooks[idx].(val := val)])],
      SetHook(t, id, idx, val))
  {
    var t' := SetHook(t, id, idx, val);
    forall i | 0 <= i < |t.kids|
      ensures IsTree(m[id := m[id].(hooks := m[id].hooks[idx := m[id].hooks[idx].(val := val)])], t'.kids[i])
    {
      SetHookIsTree(m, t.kids[i], id, idx, val);
    }
  }

  lemma {:induction false} SetHookDistinct(t: Tree, id: StarId, idx: nat, val: Val)
    requires Distinct(t)
    ensures Distinct(SetHook(t, id, idx, val))
  {
    var t' := SetHook(t, id, idx, val);
    forall i | 0 <= i < |t.kids|
      ensures Distinct(t'.kids[i]) && forall x :: In(t'.kids[i], x) <==> In(t.kids[i], x)
    {
      SetHookDistinct(t.kids[i], id, idx, val);
      SetHookSame(t.kids[i], id, idx, val);
    }
  }

  lemma {:induction false} SetHookOk(cfuncs: map<string, CFunc>, t: Tree, id: StarId, idx: nat, val: Val)
    requires TreeOk(cfuncs, t)
    ensures TreeOk(cfuncs, SetHook(t, id, idx, val)) && SetHook(t, id, idx, val).c.elem == t.c.elem
  {
    var t' := SetHook(t, id, idx, val);
    forall i | 0 <= i < |t.kids|
      ensures TreeOk(cfuncs, t'.kids[i]) && t'.kids[i].c.tag == t.kids[i].c.tag && t'.kids[i].c.key == t.kids[i].c.key
    {
      SetHookOk(cfuncs, t.kids[i], id, idx, val);
    }
  }

  lemma {:induction false} SetHookMounted(cfuncs: map<string, CFunc>, m: CompMap, u: UsedBy, t: Tree, id: StarId,
                                          idx: nat, val: Val)
    requires Mounted(cfuncs, m, u, Some(t)) && id in m && idx < |m[id].hooks|
    ensures var m' := m[id := m[id].(hooks := m[id].hooks[idx := m[id].hooks[idx].(val := val)])];
      Mounted(cfuncs, m', u, Some(SetHook(t, id, idx, val)))
    ensures forall x :: In(SetHook(t, id, idx, val), x) <==> In(t, x)
    ensures SetHook(t, id, idx, val).c.elem == t.c.elem && SetHook(t, id, idx, val).id == t.id
  {
    hide IsTree, Distinct, TreeOk, In, Uses, SetHook;
    SetHookIsTree(m, t, id, idx, val);
    SetHookDistinct(t, id, idx, val);
    SetHookOk(cfuncs, t, id, idx, val);
    SetHookSame(t, id, idx, val);
    SetHookTop(t, id, idx, val);
    var t' := SetHook(t, id, idx, val);
    forall a, x | InO(Some(t'), x)
      ensures x in Users(u, a) <==> UsesO(Some(t'), x, a)
    {
      assert InO(Some(t), x) && (UsesO(Some(t'), x, a) <==> UsesO(Some(t), x, a));
    }
  }

  lemma SetHookTop(t: Tree, id: StarId, idx: nat, val: Val)
    ensures SetHook(t, id, idx, val).id == t.id && SetHook(t, id, idx, val).c.elem == t.c.elem
  {
  }
}
