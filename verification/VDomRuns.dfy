/** Whole runs of a root, from its making: renders, work, the setters that components hand out, and read-outs, in any
    order. */
module VDomRuns {
  import opened Wrappers
  import opened VDomTypes
  import opened VDomTree
  import opened VDomFrames
  import opened VDomExpand
  import opened VDomRoot

  /** SetState and SetAtom are the setters that UseState and UseAtom return, SyncAtom is SetAtomVal of the root. */
  datatype Op =
    | Render(elem: Option<Elem>)
    | Work
    | SetState(id: StarId, idx: nat, val: Val)
    | SetAtom(name: string, val: Val)
    | SyncAtom(name: string, val: Val, markDirty: bool)
    | Read

  datatype Out = Done | Panicked | Got(vdom: Option<Elem>)

  /** What matters of a root between two operations. */
  datatype View = View(env: Env, tree: Option<Tree>, needs: set<StarId>, next: nat)

  predicate Mounts(op: Op) {
    op.Render? && op.elem.Some? && op.elem.value.tag != ""
  }

  ghost predicate InScope(scope: Scope, op: Op) {
    Mounts(op) ==> scope.has(op.elem.value)
  }

  ghost predicate ViewOk(cfuncs: map<string, CFunc>, scope: Scope, v: View) {
    && v.env.cfuncs == cfuncs
    && (forall id :: InO(v.tree, id) ==> FreshId(id, 0, v.next))
    && (v.tree.Some? ==> scope.has(v.tree.value.c.elem) && TreeOk(cfuncs, v.tree.value))
  }

  /** The element has been rendered against the old tree: what is read out is its expansion. */
  ghost predicate Rendered(scope: Scope, before: View, elem: Elem, after: View)
    requires Closed(before.env.cfuncs, scope) && scope.has(elem)
  {
    && after.env == before.env && before.next <= after.next && after.tree.Some?
    && StripO(ReadO(after.tree)) == Expand(before.env, scope, elem, before.tree)
    && Shows(after.env, elem, after.tree.value)
    && Carried(after.env, before.next, after.next, before.tree, elem, after.tree.value)
    && forall id :: InO(after.tree, id) ==> InO(before.tree, id) || FreshId(id, before.next, after.next)
  }

  ghost function SetHookO(t: Option<Tree>, id: StarId, idx: nat, val: Val): Option<Tree> {
    if t.Some? then Some(SetHook(t.value, id, idx, val)) else None
  }

  ghost predicate Step(scope: Scope, before: View, op: Op, out: Out, after: View)
    requires Closed(before.env.cfuncs, scope) && ViewOk(before.env.cfuncs, scope, before) && InScope(scope, op)
  {
    match op
    case Render(elem) =>
      && out == Done && after.needs == before.needs
      && if Mounts(op) then Rendered(scope, before, elem.value, after)
         else after.env == before.env && after.tree == None && before.next <= after.next
    case Work =>
      if before.needs == {} then out == Done && after == before
      else if before.tree.None? then out == Panicked && after == before.(needs := {})
      else out == Done && after.needs == {} && Rendered(scope, before, before.tree.value.c.elem, after)
    case SetState(id, idx, val) =>
      out == Done && after == before.(tree := SetHookO(before.tree, id, idx, val), needs := before.needs + {id})
    case SetAtom(name, val) =>
      && out == Done && before.needs <= after.needs
      && after.(needs := before.needs) == before.(env := before.env.(atoms := before.env.atoms[name := val]))
      && forall id :: AsksO(before.tree, id, name) ==> id in after.needs
    case SyncAtom(name, val, markDirty) =>
      && out == Done
      && after == if markDirty && AtomVal(before.env, name) == val then before
                  else before.(env := before.env.(atoms := before.env.atoms[name := val]))
    case Read => out == Got(ReadO(before.tree)) && after == before
  }

  /** views are the states that the operations lead through, and outs their results. */
  ghost predicate Run(cfuncs: map<string, CFunc>, scope: Scope, ops: seq<Op>, outs: seq<Out>, views: seq<View>) {
    && Closed(cfuncs, scope) && |outs| == |ops| && |views| == |ops| + 1
    && (forall k :: 0 <= k < |views| ==> ViewOk(cfuncs, scope, views[k]))
    && (forall k :: 0 <= k < |ops| ==>
          InScope(scope, ops[k]) && Step(scope, views[k], ops[k], outs[k], views[k + 1]))
  }

  ghost function ViewOf(r: RootElem): View
    reads r
  {
    View(r.EnvNow(), r.tree, r.needsRender, r.nextId)
  }

  lemma ValidView(r: RootElem)
    requires r.Valid()
    ensures ViewOk(r.cfuncs, r.scope, ViewOf(r))
  {
    forall id | InO(r.tree, id)
      ensures FreshId(id, 0, r.nextId)
    {
      assert id in r.compMap;
    }
  }

  method RunOne(r: RootElem, op: Op) returns (out: Out)
    requires r.Valid() && InScope(r.scope, op)
    modifies r
    ensures r.Valid() && ViewOk(r.cfuncs, r.scope, old(ViewOf(r))) && ViewOk(r.cfuncs, r.scope, ViewOf(r))
    ensures Step(r.scope, old(ViewOf(r)), op, out, ViewOf(r))
  {
    hide ViewOk, Closed, StableHooks, Mounted, Shows, Carried, In, Expand, Accounted, Issued, Listed, Uses, Users,
      ReadOut, Strip;
    ValidView(r);
    out := Done;
    match op {
      case Render(elem) => r.RenderRoot(elem);
      case Work =>
        var panicked := r.RunWork();
        out := if panicked then Panicked else Done;
      case SetState(id, idx, val) => r.SetState(id, idx, val);
      case SetAtom(name, val) => r.SetFromUseAtom(name, val);
      case SyncAtom(name, val, markDirty) => r.SetAtomVal(name, val, markDirty);
      case Read =>
        var vdom := r.MakeVDom();
        out := Got(vdom);
    }
    ValidView(r);
  }

  /** Every run of a new root. */
  method RunAll(cfuncs: map<string, CFunc>, ghost scope: Scope, ops: seq<Op>)
      returns (r: RootElem, outs: seq<Out>, ghost views: seq<View>)
    requires Closed(cfuncs, scope) && forall k :: 0 <= k < |ops| ==> InScope(scope, ops[k])
    ensures r.Valid() && Run(cfuncs, scope, ops, outs, views)
    ensures views[0] == View(Env(cfuncs, map[]), None, {}, 0) && views[|ops|] == ViewOf(r)
  {
    hide ViewOk, Closed, Step;
    r := new RootElem(cfuncs, scope);
    outs, views := [], [ViewOf(r)];
    ValidView(r);
    for n := 0 to |ops|
      invariant fresh(r) && r.Valid() && r.cfuncs == cfuncs && r.scope == scope
      invariant |outs| == n && |views| == n + 1 && views[n] == ViewOf(r)
      invariant views[0] == View(Env(cfuncs, map[]), None, {}, 0)
      invariant forall k :: 0 <= k <= n ==> ViewOk(cfuncs, scope, views[k]) && views[k].env.cfuncs == cfuncs
      invariant forall k :: 0 <= k < n ==> Step(scope, views[k], ops[k], outs[k], views[k + 1])
    {
      var out := RunOne(r, ops[n]);
      outs, views := outs + [out], views + [ViewOf(r)];
    }
  }

  // ---------------------------------------------------------------- with nothing queued, what is shown is up to date

  /** The atoms as the mounted components have last seen them: SyncAtom queues nothing, so they do not see its value. */
  ghost function Shown(ops: seq<Op>, views: seq<View>, n: nat): map<string, Val>
    requires n <= |ops| && |views| == |ops| + 1
  {
    if n == 0 then views[0].env.atoms
    else match ops[n - 1]
      case Render(_) => views[n].env.atoms
      case Work => if views[n - 1].needs == {} then Shown(ops, views, n - 1) else views[n].env.atoms
      case SetAtom(name, val) => Shown(ops, views, n - 1)[name := val]
      case SetState(_, _, _) => Shown(ops, views, n - 1)
      case SyncAtom(_, _, _) => Shown(ops, views, n - 1)
      case Read => Shown(ops, views, n - 1)
  }

  /** A component function that does not call an atom does not see it change. */
  lemma {:induction false} CallsElsewhere(env: Env, name: string, val: Val, hooks: seq<Hook>, f: CFunc, e: Elem,
                                          vals: seq<Val>)
    requires !Calls(CallsFrom(env, hooks, f, e, vals), name)
    ensures var env' := env.(atoms := env.atoms[name := val]);
      && CallsFrom(env', hooks, f, e, vals) == CallsFrom(env, hooks, f, e, vals)
      && PartFrom(env', hooks, f, e, vals) == PartFrom(env, hooks, f, e, vals)
    decreases f.left(e, vals)
  {
    var env' := env.(atoms := env.atoms[name := val]);
    if f.next(e, vals).Call? {
      var call, calls := f.next(e, vals).call, CallsFrom(env, hooks, f, e, vals);
      var vals' := vals + [NextVal(env, hooks, vals, call)];
      assert calls[0] == call && NextVal(env', hooks, vals, call) == NextVal(env, hooks, vals, call);
      assert calls[1..] == CallsFrom(env, hooks, f, e, vals');
      forall i | 0 <= i < |calls[1..]|
        ensures calls[1..][i] != UseAtom(name)
      {
        assert calls[i + 1] != UseAtom(name);
      }
      CallsElsewhere(env, name, val, hooks, f, e, vals');
    }
  }

  lemma {:induction false} ShowsElsewhere(env: Env, name: string, val: Val, e: Elem, t: Tree)
    requires Shows(env, e, t) && forall id :: !Asks(t, id, name)
    ensures Shows(env.(atoms := env.atoms[name := val]), e, t)
    decreases t
  {
    var env' := env.(atoms := env.atoms[name := val]);
    forall k, id | 0 <= k < |t.kids|
      ensures !Asks(t.kids[k], id, name)
    {
      assert !Asks(t, id, name);
    }
    if IsFunc(env.cfuncs, e.tag) {
      assert !Calls(t.calls, name) by {
        assert !Asks(t, t.id, name);
      }
      CallsElsewhere(env, name, val, t.c.hooks, env.cfuncs[e.tag], e, []);
      var r := Output(env, e, t.c.hooks);
      assert Output(env', e, t.c.hooks) == r;
      if r.Some? && r.value.tag != "" {
        ShowsElsewhere(env, name, val, r.value, t.kids[0]);
      }
    } else if HasChildren(e) {
      forall i | 0 <= i < |t.kids|
        ensures Shows(env', e.children[i], t.kids[i])
      {
        ShowsElsewhere(env, name, val, e.children[i], t.kids[i]);
      }
    }
  }

  /** In any run, whenever nothing is queued the mounted tree shows the element that was rendered last, under the atoms
      as the components have seen them: no setter is forgotten. */
  lemma {:induction false} NothingForgotten(cfuncs: map<string, CFunc>, scope: Scope, ops: seq<Op>, outs: seq<Out>,
                                            views: seq<View>, n: nat)
    requires Run(cfuncs, scope, ops, outs, views) && views[0].tree.None? && n <= |ops|
    requires views[n].needs == {} && views[n].tree.Some?
    ensures Shows(Env(cfuncs, Shown(ops, views, n)), views[n].tree.value.c.elem, views[n].tree.value)
  {
    if n > 0 {
      var before, op, after := views[n - 1], ops[n - 1], views[n];
      assert Step(scope, before, op, outs[n - 1], after) && ViewOk(cfuncs, scope, before);
      hide Shows, Carried, Expand, Closed, Asks, ReadOut, Strip;
      if (op.Work? && before.needs == {}) || op.SyncAtom? || op.Read? {
        NothingForgotten(cfuncs, scope, ops, outs, views, n - 1);
      } else if op.SetAtom? {
        NothingForgotten(cfuncs, scope, ops, outs, views, n - 1);
        var t := before.tree.value;
        forall id
          ensures !Asks(t, id, op.name)
        {
          assert AsksO(before.tree, id, op.name) ==> id in after.needs;
        }
        ShowsElsewhere(Env(cfuncs, Shown(ops, views, n - 1)), op.name, op.val, t.c.elem, t);
      } else {
        ShowsElem(after);
      }
    }
  }

  lemma ShowsElem(v: View)
    requires v.tree.Some?
    ensures forall e :: Shows(v.env, e, v.tree.value) ==> v.tree.value.c.elem == e
  {
  }

  /** Without SetAtomVal what they have seen is what there is. */
  lemma {:induction false} ShownIsNow(cfuncs: map<string, CFunc>, scope: Scope, ops: seq<Op>, outs: seq<Out>,
                                      views: seq<View>, n: nat)
    requires Run(cfuncs, scope, ops, outs, views) && n <= |ops| && forall k :: 0 <= k < n ==> !ops[k].SyncAtom?
    ensures Shown(ops, views, n) == views[n].env.atoms
  {
    if n > 0 {
      ShownIsNow(cfuncs, scope, ops, outs, views, n - 1);
      assert Step(scope, views[n - 1], ops[n - 1], outs[n - 1], views[n]);
    }
  }

  /** So a read-out with nothing queued is the expansion of the mounted element with the state that is there: rendering
      it again would change nothing that is shown. */
  lemma {:induction false} ReadIsUpToDate(cfuncs: map<string, CFunc>, scope: Scope, ops: seq<Op>, outs: seq<Out>,
                                          views: seq<View>, n: nat)
    requires Run(cfuncs, scope, ops, outs, views) && views[0].tree.None? && n < |ops| && ops[n].Read?
    requires views[n].needs == {} && views[n].tree.Some?
    ensures outs[n].Got?
    ensures var t := views[n].tree.value;
      && StripO(outs[n].vdom) == Expand(Env(cfuncs, Shown(ops, views, n)), scope, t.c.elem, Some(t))
      && ((forall k :: 0 <= k < n ==> !ops[k].SyncAtom?) ==>
            StripO(outs[n].vdom) == Expand(views[n].env, scope, t.c.elem, Some(t)))
  {
    var t := views[n].tree.value;
    assert Step(scope, views[n], ops[n], outs[n], views[n + 1]) && ViewOk(cfuncs, scope, views[n]);
    hide Shows, Carried, Expand, Closed, ReadOut, Strip;
    NothingForgotten(cfuncs, scope, ops, outs, views, n);
    ReadsAsSelf(Env(cfuncs, Shown(ops, views, n)), scope, t.c.elem, t);
    if forall k :: 0 <= k < n ==> !ops[k].SyncAtom? {
      ShownIsNow(cfuncs, scope, ops, outs, views, n);
      assert views[n].env == Env(cfuncs, views[n].env.atoms);
    }
  }

  // ---------------------------------------------------------------- what is gone stays gone

  /** An id that has been issued and is not mounted never comes back, */
  lemma {:induction false} NeverBack(cfuncs: map<string, CFunc>, scope: Scope, ops: seq<Op>, outs: seq<Out>,
                                     views: seq<View>, j: nat, k: nat, id: StarId)
    requires Run(cfuncs, scope, ops, outs, views) && j <= k <= |ops|
    requires FreshId(id, 0, views[j].next) && !InO(views[j].tree, id)
    ensures FreshId(id, 0, views[k].next) && !InO(views[k].tree, id)
  {
    if j < k {
      NeverBack(cfuncs, scope, ops, outs, views, j, k - 1, id);
      var before, op := views[k - 1], ops[k - 1];
      assert Step(scope, before, op, outs[k - 1], views[k]);
      if op.SetState? && before.tree.Some? {
        SetHookSame(before.tree.value, op.id, op.idx, op.val);
      }
    }
  }

  /** so the setters that a component has handed out do nothing once it is gone but ask for a render. */
  lemma {:induction false} DeadSetter(cfuncs: map<string, CFunc>, scope: Scope, ops: seq<Op>, outs: seq<Out>,
                                      views: seq<View>, j: nat, k: nat)
    requires Run(cfuncs, scope, ops, outs, views) && j <= k < |ops| && ops[k].SetState?
    requires FreshId(ops[k].id, 0, views[j].next) && !InO(views[j].tree, ops[k].id)
    ensures views[k + 1] == views[k].(needs := views[k].needs + {ops[k].id})
  {
    NeverBack(cfuncs, scope, ops, outs, views, j, k, ops[k].id);
    assert Step(scope, views[k], ops[k], outs[k], views[k + 1]);
    if views[k].tree.Some? {
      SetHookOutside(views[k].tree.value, ops[k].id, ops[k].idx, ops[k].val);
    }
  }

  lemma {:induction false} SetHookOutside(t: Tree, id: StarId, idx: nat, val: Val)
    requires !In(t, id)
    ensures SetHook(t, id, idx, val) == t
  {
    forall i | 0 <= i < |t.kids|
      ensures SetHook(t.kids[i], id, idx, val) == t.kids[i]
    {
      SetHookOutside(t.kids[i], id, idx, val);
    }
    assert SetHook(t, id, idx, val).kids == t.kids;
  }

  // ---------------------------------------------------------------- state is kept

  /** The slot of the component with this id, if it is in the tree, has been called and holds the value. */
  ghost predicate SlotIs(t: Tree, id: StarId, idx: nat, val: Val) {
    && (t.id == id ==> idx < |t.c.hooks| && t.c.hooks[idx].init && t.c.hooks[idx].val == val)
    && forall i :: 0 <= i < |t.kids| ==> SlotIs(t.kids[i], id, idx, val)
  }

  ghost predicate SlotIsO(t: Option<Tree>, id: StarId, idx: nat, val: Val) {
    t.Some? ==> SlotIs(t.value, id, idx, val)
  }

  /** The last render of the component with this id has not called UseEffect on the slot. */
  ghost predicate NoEffectAt(t: Tree, id: StarId, idx: nat) {
    && (t.id == id && idx < |t.calls| ==> !t.calls[idx].UseEffect?)
    && forall i :: 0 <= i < |t.kids| ==> NoEffectAt(t.kids[i], id, idx)
  }

  /** A render keeps a slot, wherever its component moves. */
  lemma {:induction false} CarriedSlot(env: Env, lo: nat, hi: nat, prev: Option<Tree>, e: Elem, t: Tree, id: StarId,
                                       idx: nat, val: Val)
    requires Shows(env, e, t) && Carried(env, lo, hi, prev, e, t)
    requires SlotIsO(prev, id, idx, val) && NoEffectAt(t, id, idx) && !FreshId(id, lo, hi)
    ensures SlotIs(t, id, idx, val)
    decreases t
  {
    hide Carried, Shows, Output, CallsFrom, LastCalls, OldHooks, OldKids, NoEffectAt, FreshId;
    KidsNoEffect(t, id, idx);
    if IsFunc(env.cfuncs, e.tag) {
      FuncSlot(env, lo, hi, prev, e, t, id, idx, val);
      FuncFacts(env, lo, hi, prev, e, t);
      OldKidSlot(prev, e, id, idx, val);
      var r := Output(env, e, OldHooks(prev, e));
      if r.Some? && r.value.tag != "" {
        CarriedSlot(env, lo, hi, FirstKid(OldKids(prev, e)), r.value, t.kids[0], id, idx, val);
      }
    } else {
      NoHooksSlot(env, lo, hi, prev, e, t, id, idx, val);
      forall i | 0 <= i < |t.kids|
        ensures SlotIs(t.kids[i], id, idx, val)
      {
        KidSlot(env, lo, hi, prev, e, t, i, id, idx, val);
        var old' := MatchOf(OldKids(prev, e), e.children[i], i);
        CarriedSlot(env, lo, hi, old', e.children[i], t.kids[i], id, idx, val);
      }
    }
  }

  lemma KidsNoEffect(t: Tree, id: StarId, idx: nat)
    requires NoEffectAt(t, id, idx)
    ensures forall i :: 0 <= i < |t.kids| ==> NoEffectAt(t.kids[i], id, idx)
  {
  }

  lemma OldKidSlot(prev: Option<Tree>, e: Elem, id: StarId, idx: nat, val: Val)
    requires SlotIsO(prev, id, idx, val)
    ensures SlotIsO(FirstKid(OldKids(prev, e)), id, idx, val)
  {
  }

  /** What does not call hooks keeps its slots, and has children to go on with only if it is an element. */
  lemma NoHooksSlot(env: Env, lo: nat, hi: nat, prev: Option<Tree>, e: Elem, t: Tree, id: StarId, idx: nat, val: Val)
    requires !IsFunc(env.cfuncs, e.tag) && Shows(env, e, t) && Carried(env, lo, hi, prev, e, t)
    requires SlotIsO(prev, id, idx, val) && !FreshId(id, lo, hi)
    ensures t.id == id ==> idx < |t.c.hooks| && t.c.hooks[idx].init && t.c.hooks[idx].val == val
    ensures t.kids != [] ==> HasChildren(e) && |t.kids| == |e.children|
  {
  }

  lemma KidSlot(env: Env, lo: nat, hi: nat, prev: Option<Tree>, e: Elem, t: Tree, i: nat, id: StarId, idx: nat,
                val: Val)
    requires HasChildren(e) && Shows(env, e, t) && Carried(env, lo, hi, prev, e, t) && i < |t.kids| == |e.children|
    requires SlotIsO(prev, id, idx, val)
    ensures var old' := MatchOf(OldKids(prev, e), e.children[i], i);
      Shows(env, e.children[i], t.kids[i]) && Carried(env, lo, hi, old', e.children[i], t.kids[i]) &&
      SlotIsO(old', id, idx, val)
  {
    var olds := OldKids(prev, e);
    assert CarriedChild(env, lo, hi, olds, e.children[i], i, t.kids[i]);
    MatchFound(olds, e.children[i], i);
  }

  lemma FuncSlot(env: Env, lo: nat, hi: nat, prev: Option<Tree>, e: Elem, t: Tree, id: StarId, idx: nat, val: Val)
    requires SlotIsO(prev, id, idx, val) && NoEffectAt(t, id, idx) && !FreshId(id, lo, hi)
    requires IsFunc(env.cfuncs, e.tag) && Shows(env, e, t) && Carried(env, lo, hi, prev, e, t)
    ensures t.id == id ==> idx < |t.c.hooks| && t.c.hooks[idx].init && t.c.hooks[idx].val == val
  {
    hide Output, CallsFrom;
    OutputAgain(env, e, OldHooks(prev, e));
  }

  /** Once a slot holds a value it holds it as long as its component is mounted, through all renders, until it is set
      again, unless a render calls UseEffect on it. */
  lemma {:induction false} StateIsKept(cfuncs: map<string, CFunc>, scope: Scope, ops: seq<Op>, outs: seq<Out>,
                                       views: seq<View>, j: nat, k: nat, id: StarId, idx: nat, val: Val)
    requires Run(cfuncs, scope, ops, outs, views) && j <= k <= |ops|
    requires FreshId(id, 0, views[j].next) && SlotIsO(views[j].tree, id, idx, val)
    requires forall n :: j <= n < k ==> !(ops[n].SetState? && ops[n].id == id && ops[n].idx == idx)
    requires forall n :: j < n <= k && views[n].tree.Some? ==> NoEffectAt(views[n].tree.value, id, idx)
    ensures views[j].next <= views[k].next && SlotIsO(views[k].tree, id, idx, val)
  {
    if j < k {
      StateIsKept(cfuncs, scope, ops, outs, views, j, k - 1, id, idx, val);
      var before, op, after := views[k - 1], ops[k - 1], views[k];
      assert Step(scope, before, op, outs[k - 1], after);
      hide Shows, Carried, Expand, SlotIs, NoEffectAt, Closed, ReadOut, Strip;
      if Mounts(op) {
        CarriedSlot(after.env, before.next, after.next, before.tree, op.elem.value, after.tree.value, id, idx, val);
      } else if op.Work? && before.needs != {} && before.tree.Some? {
        var elem := before.tree.value.c.elem;
        CarriedSlot(after.env, before.next, after.next, before.tree, elem, after.tree.value, id, idx, val);
      } else if op.SetState? && before.tree.Some? {
        OtherSlot(before.tree.value, op.id, op.idx, op.val, id, idx, val);
      }
    }
  }

  lemma {:induction false} OtherSlot(t: Tree, id': StarId, idx': nat, val': Val, id: StarId, idx: nat, val: Val)
    requires SlotIs(t, id, idx, val) && !(id' == id && idx' == idx)
    ensures SlotIs(SetHook(t, id', idx', val'), id, idx, val)
  {
    forall i | 0 <= i < |t.kids|
      ensures SlotIs(SetHook(t.kids[i], id', idx', val'), id, idx, val)
    {
      OtherSlot(t.kids[i], id', idx', val', id, idx, val);
    }
  }

  /** The setter that UseState returns sets the slot. */
  lemma {:induction false} SetIsSet(cfuncs: map<string, CFunc>, t: Tree, id: StarId, idx: nat, val: Val)
    requires TreeOk(cfuncs, t) && HasSlot(t, id, idx)
    ensures SlotIs(SetHook(t, id, idx, val), id, idx, val)
  {
    forall i | 0 <= i < |t.kids|
      ensures SlotIs(SetHook(t.kids[i], id, idx, val), id, idx, val)
    {
      SetIsSet(cfuncs, t.kids[i], id, idx, val);
    }
  }

  /** The component with this id, if it is in the tree, has that many slots. */
  ghost predicate HasSlot(t: Tree, id: StarId, idx: nat) {
    (t.id == id ==> idx < |t.c.hooks|) && forall i :: 0 <= i < |t.kids| ==> HasSlot(t.kids[i], id, idx)
  }

  /** A value that has been set is read until it is set again, as long as the component is mounted. */
  lemma {:induction false} SetThenKept(cfuncs: map<string, CFunc>, scope: Scope, ops: seq<Op>, outs: seq<Out>,
                                       views: seq<View>, j: nat, k: nat)
    requires Run(cfuncs, scope, ops, outs, views) && j < k <= |ops| && ops[j].SetState?
    requires views[j].tree.Some? && In(views[j].tree.value, ops[j].id) &&
      HasSlot(views[j].tree.value, ops[j].id, ops[j].idx)
    requires forall n :: j < n < k ==> !(ops[n].SetState? && ops[n].id == ops[j].id && ops[n].idx == ops[j].idx)
    requires forall n :: j < n <= k && views[n].tree.Some? ==> NoEffectAt(views[n].tree.value, ops[j].id, ops[j].idx)
    ensures SlotIsO(views[k].tree, ops[j].id, ops[j].idx, ops[j].val)
  {
    assert Step(scope, views[j], ops[j], outs[j], views[j + 1]) && ViewOk(cfuncs, scope, views[j]);
    assert InO(views[j].tree, ops[j].id);
    hide Shows, Carried, Expand, SlotIs, NoEffectAt, Closed, ReadOut, Strip, HasSlot, TreeOk;
    SetIsSet(cfuncs, views[j].tree.value, ops[j].id, ops[j].idx, ops[j].val);
    StateIsKept(cfuncs, scope, ops, outs, views, j + 1, k, ops[j].id, ops[j].idx, ops[j].val);
  }
}
