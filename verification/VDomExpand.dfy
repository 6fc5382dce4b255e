/** Reading a mounted tree out (convertToVDom), and the pure expansion of an element that it must equal. */
module VDomExpand {
  import opened Wrappers
  import opened VDomTypes
  import opened VDomTree

  /** convertToVDom, on the tree */
  ghost function ReadOut(t: Tree): Option<Elem> {
    if t.c.tag == TEXT_TAG then Some(Elem(NoId, TEXT_TAG, map[], [], t.c.text))
    else if IsBaseTag(t.c.tag) then Some(Elem(t.id, t.c.tag, t.c.elem.props, ReadKids(t.kids), ""))
    else if t.kids == [] then None
    else ReadOut(t.kids[0])
  }

  ghost function ReadKids(ts: seq<Tree>): seq<Elem> {
    if ts == [] then []
    else
      var r := ReadOut(ts[|ts| - 1]);
      ReadKids(ts[..|ts| - 1]) + (if r.Some? then [r.value] else [])
  }

  ghost function ReadO(t: Option<Tree>): Option<Elem> {
    if t.Some? then ReadOut(t.value) else None
  }

  /** An element without ids. */
  ghost function Strip(e: Elem): Elem {
    e.(starId := NoId, children := StripAll(e.children))
  }

  ghost function StripAll(es: seq<Elem>): seq<Elem> {
    if es == [] then [] else StripAll(es[..|es| - 1]) + [Strip(es[|es| - 1])]
  }

  ghost function StripO(e: Option<Elem>): Option<Elem> {
    if e.Some? then Some(Strip(e.value)) else None
  }

  /** The old child that the i-th new element takes over, if any. */
  ghost function MatchOf(kids: seq<Tree>, e: Elem, i: nat): Option<Tree> {
    if kids == [] then None
    else if Matches(kids, |kids| - 1, e, i) then Some(kids[|kids| - 1])
    else MatchOf(kids[..|kids| - 1], e, i)
  }

  /** The pure expansion of an element: components called from the top, each with the hooks of the old component
      that it takes over, or with fresh hooks if there is none. */
  ghost function Expand(env: Env, scope: Scope, e: Elem, prev: Option<Tree>): Option<Elem>
    requires Closed(env.cfuncs, scope) && (e.tag != "" ==> scope.has(e))
    decreases scope.rank(e), 1, 0
  {
    if e.tag == "" then None
    else if e.tag == TEXT_TAG then Some(Elem(NoId, TEXT_TAG, map[], [], e.text))
    else if IsBaseTag(e.tag) then
      Some(Elem(NoId, e.tag, e.props, ExpandKids(env, scope, e, |e.children|, OldKids(prev, e)), ""))
    else if e.tag !in env.cfuncs then None
    else
      assert Inside(env.cfuncs, scope, e) && env == Env(env.cfuncs, env.atoms);
      var r := Output(env, e, OldHooks(prev, e));
      if r.None? || r.value.tag == "" then None else Expand(env, scope, r.value, FirstKid(OldKids(prev, e)))
  }

  /** The expansions of the first n children. */
  ghost function ExpandKids(env: Env, scope: Scope, e: Elem, n: nat, olds: seq<Tree>): seq<Elem>
    requires Closed(env.cfuncs, scope) && scope.has(e) && IsBaseTag(e.tag) && e.tag != TEXT_TAG && n <= |e.children|
    decreases scope.rank(e), 0, n
  {
    if n == 0 then []
    else
      assert Inside(env.cfuncs, scope, e);
      var r := Expand(env, scope, e.children[n - 1], MatchOf(olds, e.children[n - 1], n - 1));
      ExpandKids(env, scope, e, n - 1, olds) + (if r.Some? then [r.value] else [])
  }

  lemma {:induction false} MatchFound(kids: seq<Tree>, e: Elem, i: nat)
    ensures MatchOf(kids, e, i).Some? ==>
      exists j :: 0 <= j < |kids| && Matches(kids, j, e, i) && MatchOf(kids, e, i).value == kids[j]
    ensures MatchOf(kids, e, i).None? ==> forall j :: 0 <= j < |kids| ==> !Matches(kids, j, e, i)
  {
    if kids != [] && !Matches(kids, |kids| - 1, e, i) {
      MatchFound(kids[..|kids| - 1], e, i);
      forall j | 0 <= j < |kids| - 1
        ensures Matches(kids, j, e, i) == Matches(kids[..|kids| - 1], j, e, i)
      {
      }
    }
  }

  ghost predicate OkO(cfuncs: map<string, CFunc>, t: Option<Tree>) {
    t.Some? ==> TreeOk(cfuncs, t.value)
  }

  lemma {:induction false} CarriedByMatch(env: Env, lo: nat, hi: nat, kids: seq<Tree>, e: Elem, i: nat, t: Tree)
    requires CarriedChild(env, lo, hi, kids, e, i, t)
    requires forall k :: 0 <= k < |kids| ==> TreeOk(env.cfuncs, kids[k])
    ensures Carried(env, lo, hi, MatchOf(kids, e, i), e, t) && OkO(env.cfuncs, MatchOf(kids, e, i))
  {
    MatchFound(kids, e, i);
  }

  /** A rendering that carries over from an old tree reads out as the expansion that takes its hooks from there. */
  lemma {:induction false} ReadsAsExpansion(env: Env, scope: Scope, lo: nat, hi: nat, prev: Option<Tree>, e: Elem,
                                            t: Tree)
    requires Closed(env.cfuncs, scope) && scope.has(e) && OkO(env.cfuncs, prev)
    requires Shows(env, e, t) && Carried(env, lo, hi, prev, e, t)
    ensures StripO(ReadOut(t)) == Expand(env, scope, e, prev)
    decreases t, 1, 0
  {
    hide TreeOk, Closed, Carried, Matches, MatchOf, Output, CallsFrom, LastCalls, OldHooks;
    if e.tag == TEXT_TAG {
      assert StripAll([]) == [];
    } else if IsBaseTag(e.tag) {
      KidsReadAsExpansion(env, scope, lo, hi, prev, e, t, |t.kids|);
      assert t.kids[..|t.kids|] == t.kids;
    } else if e.tag in env.cfuncs {
      var r := Output(env, e, OldHooks(prev, e));
      FuncFacts(env, lo, hi, prev, e, t);
      OldKidsOk(env.cfuncs, prev, e);
      if r.Some? && r.value.tag != "" {
        ExpandFunc(env, scope, e, prev);
        ReadsAsExpansion(env, scope, lo, hi, FirstKid(OldKids(prev, e)), r.value, t.kids[0]);
      }
    }
  }

  lemma OldKidsOk(cfuncs: map<string, CFunc>, prev: Option<Tree>, e: Elem)
    requires OkO(cfuncs, prev)
    ensures forall k :: 0 <= k < |OldKids(prev, e)| ==> TreeOk(cfuncs, OldKids(prev, e)[k])
    ensures OkO(cfuncs, FirstKid(OldKids(prev, e)))
  {
  }

  lemma ExpandFunc(env: Env, scope: Scope, e: Elem, prev: Option<Tree>)
    requires Closed(env.cfuncs, scope) && scope.has(e) && IsFunc(env.cfuncs, e.tag)
    ensures var r := Output(env, e, OldHooks(prev, e));
      && ResultBelow(scope, r, e)
      && (r.Some? && r.value.tag != "" ==>
            Expand(env, scope, e, prev) == Expand(env, scope, r.value, FirstKid(OldKids(prev, e))))
  {
    ResultInScope(env, scope, e, OldHooks(prev, e));
    hide Closed, Output, OldHooks, OldKids;
  }

  lemma FuncFacts(env: Env, lo: nat, hi: nat, prev: Option<Tree>, e: Elem, t: Tree)
    requires IsFunc(env.cfuncs, e.tag) && Shows(env, e, t) && Carried(env, lo, hi, prev, e, t)
    ensures var r := Output(env, e, OldHooks(prev, e));
      if r.None? || r.value.tag == "" then t.kids == []
      else (|t.kids| == 1 && Shows(env, r.value, t.kids[0]) &&
        Carried(env, lo, hi, FirstKid(OldKids(prev, e)), r.value, t.kids[0]))
  {
    hide Output, CallsFrom, LastCalls, OldHooks, OldKids, HooksAfter;
    OutputAgain(env, e, OldHooks(prev, e));
  }

  lemma ResultInScope(env: Env, scope: Scope, e: Elem, hooks: seq<Hook>)
    requires Closed(env.cfuncs, scope) && scope.has(e) && IsFunc(env.cfuncs, e.tag)
    ensures ResultBelow(scope, Output(env, e, hooks), e)
  {
    hide Output, ResultBelow;
    assert Inside(env.cfuncs, scope, e) && env == Env(env.cfuncs, env.atoms);
  }

  lemma {:induction false} KidsReadAsExpansion(env: Env, scope: Scope, lo: nat, hi: nat, prev: Option<Tree>,
          e: Elem, t: Tree, n: nat)
    requires Closed(env.cfuncs, scope) && scope.has(e) && OkO(env.cfuncs, prev)
    requires IsBaseTag(e.tag) && e.tag != TEXT_TAG && n <= |t.kids|
    requires Shows(env, e, t) && Carried(env, lo, hi, prev, e, t)
    ensures StripAll(ReadKids(t.kids[..n])) == ExpandKids(env, scope, e, n, OldKids(prev, e))
    decreases t, 0, n
  {
    if n == 0 {
      assert t.kids[..0] == [];
    } else {
      hide Shows, Carried, CarriedChild, Expand, TreeOk, Closed, Matches, ReadOut, ReadKids, StripAll, Strip,
        ExpandKids, MatchOf, OldKids, OkO;
      KidsReadAsExpansion(env, scope, lo, hi, prev, e, t, n - 1);
      KidCarried(env, scope, lo, hi, prev, e, t, n - 1);
      ReadsAsExpansion(env, scope, lo, hi, MatchOf(OldKids(prev, e), e.children[n - 1], n - 1), e.children[n - 1],
        t.kids[n - 1]);
      KidsStep(env, scope, e, OldKids(prev, e), t.kids, n);
    }
  }

  lemma KidsStep(env: Env, scope: Scope, e: Elem, olds: seq<Tree>, ts: seq<Tree>, n: nat)
    requires Closed(env.cfuncs, scope) && scope.has(e) && IsBaseTag(e.tag) && e.tag != TEXT_TAG
    requires 0 < n <= |e.children| && n <= |ts|
    requires StripAll(ReadKids(ts[..n - 1])) == ExpandKids(env, scope, e, n - 1, olds)
    requires scope.has(e.children[n - 1])
    requires var child := e.children[n - 1];
      StripO(ReadOut(ts[n - 1])) == Expand(env, scope, child, MatchOf(olds, child, n - 1))
    ensures StripAll(ReadKids(ts[..n])) == ExpandKids(env, scope, e, n, olds)
  {
    hide Expand, Closed, ReadOut, ReadKids, StripAll, Strip, ExpandKids, MatchOf;
    ReadKidsStep(ts, n);
    ExpandKidsStep(env, scope, e, n, olds);
    var done, r := ReadKids(ts[..n - 1]), ReadOut(ts[n - 1]);
    if r.Some? {
      StripAppend(done, r.value);
    } else {
      assert done + [] == done && StripAll(done) + [] == StripAll(done);
    }
  }

  lemma KidCarried(env: Env, scope: Scope, lo: nat, hi: nat, prev: Option<Tree>, e: Elem, t: Tree, i: nat)
    requires Closed(env.cfuncs, scope) && scope.has(e) && OkO(env.cfuncs, prev)
    requires IsBaseTag(e.tag) && e.tag != TEXT_TAG && i < |t.kids|
    requires Shows(env, e, t) && Carried(env, lo, hi, prev, e, t)
    ensures i < |e.children| && scope.has(e.children[i]) && Shows(env, e.children[i], t.kids[i])
    ensures var old' := MatchOf(OldKids(prev, e), e.children[i], i);
      Carried(env, lo, hi, old', e.children[i], t.kids[i]) && OkO(env.cfuncs, old')
  {
    hide Shows, Carried, CarriedChild, TreeOk, Closed, Matches, MatchOf, OldKids, OkO, FirstKid;
    OldKidsOk(env.cfuncs, prev, e);
    KidFacts(env, scope, lo, hi, prev, e, t, i);
    CarriedByMatch(env, lo, hi, OldKids(prev, e), e.children[i], i, t.kids[i]);
  }

  lemma KidFacts(env: Env, scope: Scope, lo: nat, hi: nat, prev: Option<Tree>, e: Elem, t: Tree, i: nat)
    requires Closed(env.cfuncs, scope) && scope.has(e) && IsBaseTag(e.tag) && e.tag != TEXT_TAG && i < |t.kids|
    requires Shows(env, e, t) && Carried(env, lo, hi, prev, e, t)
    ensures i < |e.children| && scope.has(e.children[i]) && Shows(env, e.children[i], t.kids[i])
    ensures CarriedChild(env, lo, hi, OldKids(prev, e), e.children[i], i, t.kids[i])
  {
  }

  lemma ReadKidsStep(ts: seq<Tree>, n: nat)
    requires 0 < n <= |ts|
    ensures ReadKids(ts[..n]) ==
      ReadKids(ts[..n - 1]) + (if ReadOut(ts[n - 1]).Some? then [ReadOut(ts[n - 1]).value] else [])
  {
    assert ts[..n][..n - 1] == ts[..n - 1];
  }

  lemma ExpandKidsStep(env: Env, scope: Scope, e: Elem, n: nat, olds: seq<Tree>)
    requires Closed(env.cfuncs, scope) && scope.has(e) && IsBaseTag(e.tag) && e.tag != TEXT_TAG && 0 < n <= |e.children|
    ensures
      var r := Expand(env, scope, e.children[n - 1], MatchOf(olds, e.children[n - 1], n - 1));
      ExpandKids(env, scope, e, n, olds) == ExpandKids(env, scope, e, n - 1, olds) + (if r.Some? then [r.value] else [])
  {
  }

  /** The expansions of the children, one by one */
  lemma {:induction false} KidsExpandTo(env: Env, scope: Scope, e: Elem, n: nat, olds: seq<Tree>, vs: seq<Elem>)
    requires Closed(env.cfuncs, scope) && scope.has(e) && HasChildren(e) && n <= |e.children| == |vs|
    requires forall i :: 0 <= i < |e.children| ==> Below(scope, e.children[i], e)
    requires forall i :: 0 <= i < n ==>
      Expand(env, scope, e.children[i], MatchOf(olds, e.children[i], i)) == Some(vs[i])
    ensures ExpandKids(env, scope, e, n, olds) == vs[..n]
  {
    hide Expand, MatchOf, Closed, Below, IsBaseTag;
    if n > 0 {
      hide ExpandKids;
      KidsExpandTo(env, scope, e, n - 1, olds, vs);
      ExpandKidsStep(env, scope, e, n, olds);
      assert vs[..n] == vs[..n - 1] + [vs[n - 1]];
    }
  }

  lemma ExpandBase(env: Env, scope: Scope, e: Elem, prev: Option<Tree>)
    requires Closed(env.cfuncs, scope) && scope.has(e) && HasChildren(e)
    ensures Expand(env, scope, e, prev) ==
      Some(Elem(NoId, e.tag, e.props, ExpandKids(env, scope, e, |e.children|, OldKids(prev, e)), ""))
  {
    assert Inside(env.cfuncs, scope, e);
    hide Closed, Inside, ExpandKids, OldKids;
  }

  /** An element expands to its tag and properties around what its children expand to. */
  lemma ExpandAround(env: Env, scope: Scope, e: Elem, prev: Option<Tree>, vs: seq<Elem>)
    requires Closed(env.cfuncs, scope) && scope.has(e) && HasChildren(e) && |vs| == |e.children|
    requires forall i :: 0 <= i < |e.children| ==> Below(scope, e.children[i], e)
    requires forall i :: 0 <= i < |e.children| ==>
      Expand(env, scope, e.children[i], MatchOf(OldKids(prev, e), e.children[i], i)) == Some(vs[i])
    ensures Expand(env, scope, e, prev) == Some(Elem(NoId, e.tag, e.props, vs, ""))
  {
    hide Closed, Expand, MatchOf, OldKids, ExpandKids, Below, IsBaseTag, HasChildren;
    ExpandBase(env, scope, e, prev);
    KidsExpandTo(env, scope, e, |e.children|, OldKids(prev, e), vs);
    assert vs[..|e.children|] == vs;
  }

  lemma StripAppend(es: seq<Elem>, e: Elem)
    ensures StripAll(es + [e]) == StripAll(es) + [Strip(e)]
  {
    assert (es + [e])[..|es|] == es;
  }

  // ---------------------------------------------------------------- rendering again

  /** A tree that shows an element reads out as the expansion that takes its hooks from the tree itself: rendering again
      would show the same. */
  lemma {:induction false} ReadsAsSelf(env: Env, scope: Scope, e: Elem, t: Tree)
    requires Closed(env.cfuncs, scope) && scope.has(e) && Shows(env, e, t)
    ensures StripO(ReadOut(t)) == Expand(env, scope, e, Some(t))
    decreases t, 1, 0
  {
    hide Closed, Output, CallsFrom, LastCalls, Matches, MatchOf;
    assert SameComp(Some(t), e) && OldKids(Some(t), e) == t.kids && OldHooks(Some(t), e) == t.c.hooks;
    if e.tag == TEXT_TAG {
      assert StripAll([]) == [];
    } else if IsBaseTag(e.tag) {
      KidsReadAsSelf(env, scope, e, t, |t.kids|);
      assert t.kids[..|t.kids|] == t.kids;
    } else if e.tag in env.cfuncs {
      ExpandFunc(env, scope, e, Some(t));
      var r := Output(env, e, t.c.hooks);
      if r.Some? && r.value.tag != "" {
        ReadsAsSelf(env, scope, r.value, t.kids[0]);
      }
    }
  }

  lemma {:induction false} KidsReadAsSelf(env: Env, scope: Scope, e: Elem, t: Tree, n: nat)
    requires Closed(env.cfuncs, scope) && scope.has(e) && Shows(env, e, t)
    requires IsBaseTag(e.tag) && e.tag != TEXT_TAG && n <= |t.kids|
    ensures StripAll(ReadKids(t.kids[..n])) == ExpandKids(env, scope, e, n, t.kids)
    decreases t, 0, n
  {
    if n == 0 {
      assert t.kids[..0] == [];
    } else {
      KidShows(env, scope, e, t, n - 1);
      hide Shows, Expand, Closed, Matches, ReadOut, ReadKids, StripAll, Strip, ExpandKids, MatchOf;
      KidsReadAsSelf(env, scope, e, t, n - 1);
      ReadsAsSelf(env, scope, e.children[n - 1], t.kids[n - 1]);
      KidsStep(env, scope, e, t.kids, t.kids, n);
    }
  }

  lemma KidShows(env: Env, scope: Scope, e: Elem, t: Tree, i: nat)
    requires Closed(env.cfuncs, scope) && scope.has(e) && Shows(env, e, t)
    requires IsBaseTag(e.tag) && e.tag != TEXT_TAG && i < |t.kids|
    ensures i < |e.children| && scope.has(e.children[i]) && Shows(env, e.children[i], t.kids[i])
    ensures MatchOf(t.kids, e.children[i], i) == Some(t.kids[i])
  {
    assert Inside(env.cfuncs, scope, e);
    forall k | 0 <= k < |t.kids|
      ensures t.kids[k].c.tag == e.children[k].tag && t.kids[k].c.key == Key(e.children[k])
    {
      assert Shows(env, e.children[k], t.kids[k]);
    }
    MatchFound(t.kids, e.children[i], i);
    hide Shows, Closed, Inside;
    assert Matches(t.kids, i, e.children[i], i);
    if j: nat :| j < |t.kids| && Matches(t.kids, j, e.children[i], i) && j != i {
      var a, b := if i < j then i else j, if i < j then j else i;
      assert Key(e.children[a]) != "" && e.children[a].tag == e.children[b].tag ==>
        Key(e.children[a]) != Key(e.children[b]);
    }
  }

  // ---------------------------------------------------------------- effects

  /** The effects that a render queues, from the top: those of a component, and then those below it. */
  ghost function Queued(prev: Option<Tree>, t: Tree): seq<(StarId, nat)>
    decreases t
  {
    OwnEffects(t.id, OldHooks(prev, t.c.elem), t.calls) +
    if HasChildren(t.c.elem) then QueuedKids(OldKids(prev, t.c.elem), t.kids)
    else if t.kids == [] then []
    else Queued(FirstKid(OldKids(prev, t.c.elem)), t.kids[0])
  }

  ghost function QueuedKids(olds: seq<Tree>, kids: seq<Tree>): seq<(StarId, nat)>
    decreases kids
  {
    if kids == [] then []
    else
      var n := |kids| - 1;
      QueuedKids(olds, kids[..n]) + Queued(MatchOf(olds, kids[n].c.elem, n), kids[n])
  }

  ghost function QueuedO(prev: Option<Tree>, t: Option<Tree>): seq<(StarId, nat)> {
    if t.Some? then Queued(prev, t.value) else []
  }

  /** A component that is new queues as if there had been nothing. */
  lemma QueuedNew(prev: Option<Tree>, t1: Tree, t: Tree)
    requires !SameComp(prev, t.c.elem) && t1.c.hooks == [] && t1.kids == []
    ensures Queued(Some(t1), t) == Queued(prev, t)
  {
    hide QueuedKids, OwnEffects;
  }

  lemma QueuedText(prev: Option<Tree>, t: Tree)
    requires t.calls == [] && t.kids == []
    ensures Queued(prev, t) == []
  {
  }

  lemma QueuedSimple(prev: Tree, t: Tree)
    requires t.calls == [] && HasChildren(t.c.elem) && SameComp(Some(prev), t.c.elem)
    ensures Queued(Some(prev), t) == QueuedKids(prev.kids, t.kids)
  {
    hide QueuedKids;
    assert [] + QueuedKids(prev.kids, t.kids) == QueuedKids(prev.kids, t.kids);
  }

  lemma QueuedFunc(prev: Tree, t: Tree, next: Option<Tree>)
    requires !HasChildren(t.c.elem) && SameComp(Some(prev), t.c.elem)
    requires t.kids == if next.Some? then [next.value] else []
    ensures Queued(Some(prev), t) ==
      OwnEffects(t.id, prev.c.hooks, t.calls) + QueuedO(FirstKid(prev.kids), next)
  {
    hide OwnEffects;
  }

  lemma QueuedNext(olds: seq<Tree>, kids: seq<Tree>, kid: Tree)
    ensures QueuedKids(olds, kids + [kid]) ==
      QueuedKids(olds, kids) + Queued(MatchOf(olds, kid.c.elem, |kids|), kid)
  {
    assert (kids + [kid])[..|kids|] == kids;
    hide Queued, MatchOf;
  }

  // ---------------------------------------------------------------- consequences

  /** No component function keeps state. */
  ghost predicate Stateless(cfuncs: map<string, CFunc>) {
    forall env, hooks, e: Elem :: e.tag in cfuncs ==> NoState(CallsFrom(env, hooks, cfuncs[e.tag], e, []))
  }

  ghost predicate NoState(calls: seq<HookCall>) {
    forall i :: 0 <= i < |calls| ==> !calls[i].UseState?
  }

  lemma {:induction false} NoStatePart(env: Env, hooks: seq<Hook>, hooks': seq<Hook>, f: CFunc, e: Elem, vals: seq<Val>)
    requires NoState(CallsFrom(env, hooks, f, e, vals))
    ensures PartFrom(env, hooks, f, e, vals) == PartFrom(env, hooks', f, e, vals)
    decreases f.left(e, vals)
  {
    if f.next(e, vals).Call? {
      var call := f.next(e, vals).call;
      var calls := CallsFrom(env, hooks, f, e, vals);
      assert calls[0] == call && NextVal(env, hooks, vals, call) == NextVal(env, hooks', vals, call);
      var vals' := vals + [NextVal(env, hooks, vals, call)];
      assert calls[1..] == CallsFrom(env, hooks, f, e, vals');
      NoStatePart(env, hooks, hooks', f, e, vals');
    }
  }

  lemma StatelessOutput(env: Env, e: Elem, hooks: seq<Hook>, hooks': seq<Hook>)
    requires Stateless(env.cfuncs) && e.tag in env.cfuncs
    ensures Output(env, e, hooks) == Output(env, e, hooks')
  {
    NoStatePart(env, hooks, hooks', env.cfuncs[e.tag], e, []);
  }

  /** Without state, the expansion does not depend on what was mounted before: rendering anew and re-rendering
      give the same. */
  lemma {:induction false} StatelessExpansion(env: Env, scope: Scope, e: Elem, prev: Option<Tree>,
                                              prev': Option<Tree>)
    requires Closed(env.cfuncs, scope) && scope.has(e) && Stateless(env.cfuncs)
    ensures Expand(env, scope, e, prev) == Expand(env, scope, e, prev')
    decreases scope.rank(e), 1, 0
  {
    if IsBaseTag(e.tag) && e.tag != TEXT_TAG {
      StatelessKids(env, scope, e, |e.children|, OldKids(prev, e), OldKids(prev', e));
    } else if !IsBaseTag(e.tag) && e.tag in env.cfuncs {
      StatelessOutput(env, e, OldHooks(prev, e), OldHooks(prev', e));
      var r := Output(env, e, OldHooks(prev, e));
      if r.Some? && r.value.tag != "" {
        StatelessExpansion(env, scope, r.value, FirstKid(OldKids(prev, e)), FirstKid(OldKids(prev', e)));
      }
    }
  }

  lemma {:induction false} StatelessKids(env: Env, scope: Scope, e: Elem, n: nat, olds: seq<Tree>,
                                         olds': seq<Tree>)
    requires Closed(env.cfuncs, scope) && scope.has(e) && IsBaseTag(e.tag) && e.tag != TEXT_TAG && n <= |e.children|
    requires Stateless(env.cfuncs)
    ensures ExpandKids(env, scope, e, n, olds) == ExpandKids(env, scope, e, n, olds')
    decreases scope.rank(e), 0, n
  {
    if n > 0 {
      StatelessKids(env, scope, e, n - 1, olds, olds');
      StatelessExpansion(env, scope, e.children[n - 1], MatchOf(olds, e.children[n - 1], n - 1),
        MatchOf(olds', e.children[n - 1], n - 1));
    }
  }

  /** A component whose key is among the new siblings too keeps its id and its state, wherever it has moved. */
  lemma {:induction false} KeyedChildKept(env: Env, lo: nat, hi: nat, prev: Option<Tree>, e: Elem, t: Tree, i: nat,
                                          j: nat)
    requires IsBaseTag(e.tag) && e.tag != TEXT_TAG && SameComp(prev, e)
    requires Carried(env, lo, hi, prev, e, t)
    requires i < |e.children| && j < |prev.value.kids|
    requires Key(e.children[i]) != "" && prev.value.kids[j].c.key == Key(e.children[i]) &&
      prev.value.kids[j].c.tag == e.children[i].tag
    ensures i < |t.kids| && t.kids[i].id == prev.value.kids[j].id
    ensures forall k :: 0 <= k < |prev.value.kids[j].c.hooks| && prev.value.kids[j].c.hooks[k].init ==>
      k < |t.kids[i].c.hooks| &&
        (KeptSlot(env, e.children[i], prev.value.kids[j].c.hooks, k) ==>
          t.kids[i].c.hooks[k] == prev.value.kids[j].c.hooks[k])
  {
    assert Matches(prev.value.kids, j, e.children[i], i);
    assert Carried(env, lo, hi, Some(prev.value.kids[j]), e.children[i], t.kids[i]);
  }

  /** The slot is not one that the new call overwrites, as UseEffect does with its dependencies. */
  predicate KeptSlot(env: Env, e: Elem, hooks: seq<Hook>, k: nat) {
    var calls := LastCalls(env, e, hooks);
    k < |calls| ==> !calls[k].UseEffect?
  }

  /** A new element that takes over no old child is rendered as a new component, under a new id. */
  lemma {:induction false} NewChildIsFresh(env: Env, lo: nat, hi: nat, prev: Option<Tree>, e: Elem, t: Tree, i: nat)
    requires IsBaseTag(e.tag) && e.tag != TEXT_TAG && i < |e.children|
    requires Carried(env, lo, hi, prev, e, t)
    requires forall j :: 0 <= j < |OldKids(prev, e)| ==> !Matches(OldKids(prev, e), j, e.children[i], i)
    ensures i < |t.kids| && FreshId(t.kids[i].id, lo, hi)
  {
    assert CarriedChild(env, lo, hi, OldKids(prev, e), e.children[i], i, t.kids[i]);
    assert Carried(env, lo, hi, None, e.children[i], t.kids[i]);
  }
}
