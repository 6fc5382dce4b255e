/** The tree of mounted components as a value: where its components are in CompMap, what it shows, and how it
    may follow from an older tree. */
module VDomTree {
  import opened Wrappers
  import opened VDomTypes

  /** ComponentImpl; children and sub-component are given by their ids in CompMap. */
  datatype Comp = Comp(tag: string, key: string, elem: Elem, hooks: seq<Hook>, text: string, children: seq<StarId>,
    comp: Option<StarId>)

  /** A mounted component, the hook calls of its last render, and everything below it. */
  datatype Tree = Node(id: StarId, c: Comp, calls: seq<HookCall>, kids: seq<Tree>)

  type CompMap = map<StarId, Comp>
  type UsedBy = map<string, set<StarId>>

  function KidIds(c: Comp): seq<StarId> {
    c.children + (if c.comp.Some? then [c.comp.value] else [])
  }

  ghost predicate In(t: Tree, id: StarId) {
    t.id == id || exists i :: 0 <= i < |t.kids| && In(t.kids[i], id)
  }

  ghost predicate InAny(ts: seq<Tree>, id: StarId) {
    exists i :: 0 <= i < |ts| && In(ts[i], id)
  }

  ghost predicate InO(t: Option<Tree>, id: StarId) {
    t.Some? && In(t.value, id)
  }

  /** Each component of the tree is in CompMap under its id. */
  ghost predicate IsTree(m: CompMap, t: Tree) {
    && t.id in m && m[t.id] == t.c
    && |t.kids| == |KidIds(t.c)|
    && forall i :: 0 <= i < |t.kids| ==> t.kids[i].id == KidIds(t.c)[i] && IsTree(m, t.kids[i])
  }

  ghost predicate Apart(ts: seq<Tree>) {
    forall i, j, id :: 0 <= i < j < |ts| && In(ts[i], id) ==> !In(ts[j], id)
  }

  /** No two components of the tree have the same id. */
  ghost predicate Distinct(t: Tree) {
    && !InAny(t.kids, t.id)
    && Apart(t.kids)
    && forall i :: 0 <= i < |t.kids| ==> Distinct(t.kids[i])
  }

  lemma {:induction false} IsTreeFrame(m: CompMap, m': CompMap, t: Tree)
    requires IsTree(m, t)
    requires forall id :: In(t, id) ==> id in m' && id in m && m'[id] == m[id]
    ensures IsTree(m', t)
  {
    assert In(t, t.id);
    forall i | 0 <= i < |t.kids|
      ensures IsTree(m', t.kids[i])
    {
      forall id | In(t.kids[i], id)
        ensures In(t, id)
      {
      }
      IsTreeFrame(m, m', t.kids[i]);
    }
  }

  lemma {:induction false} InTreeInMap(m: CompMap, t: Tree, id: StarId)
    requires IsTree(m, t) && In(t, id)
    ensures id in m
  {
    if t.id != id {
      var i :| 0 <= i < |t.kids| && In(t.kids[i], id);
      InTreeInMap(m, t.kids[i], id);
    }
  }

  // ---------------------------------------------------------------- atoms

  function Users(u: UsedBy, atom: string): set<StarId> {
    if atom in u then u[atom] else {}
  }

  /** Some slot will unregister the component from the atom. */
  ghost predicate CleanedUp(hooks: seq<Hook>, atom: string) {
    exists i :: 0 <= i < |hooks| && hooks[i].cleanup == Some(atom)
  }

  ghost predicate CleansUp(c: Comp, atom: string) {
    CleanedUp(c.hooks, atom)
  }

  /** The component with this id is in the tree and its hooks clean up the atom. */
  ghost predicate Uses(t: Tree, id: StarId, atom: string) {
    (t.id == id && CleansUp(t.c, atom)) || exists i :: 0 <= i < |t.kids| && Uses(t.kids[i], id, atom)
  }

  ghost predicate UsesO(t: Option<Tree>, id: StarId, atom: string) {
    t.Some? && Uses(t.value, id, atom)
  }

  lemma {:induction false} UsesIn(t: Tree, id: StarId, atom: string)
    requires Uses(t, id, atom)
    ensures In(t, id)
  {
    if !(t.id == id && CleansUp(t.c, atom)) {
      var i :| 0 <= i < |t.kids| && Uses(t.kids[i], id, atom);
      UsesIn(t.kids[i], id, atom);
    }
  }

  // ---------------------------------------------------------------- the last calls

  ghost predicate Calls(calls: seq<HookCall>, atom: string) {
    exists i :: 0 <= i < |calls| && calls[i] == UseAtom(atom)
  }

  /** The component with this id is in the tree and its last render called UseAtom(atom). */
  ghost predicate Asks(t: Tree, id: StarId, atom: string) {
    (t.id == id && Calls(t.calls, atom)) || exists i :: 0 <= i < |t.kids| && Asks(t.kids[i], id, atom)
  }

  ghost predicate AsksO(t: Option<Tree>, id: StarId, atom: string) {
    t.Some? && Asks(t.value, id, atom)
  }

  /** Every component of the tree is among the users of the atoms that its last render called. */
  ghost predicate Listed(u: UsedBy, t: Tree) {
    && (forall a :: Calls(t.calls, a) ==> t.id in Users(u, a))
    && forall i :: 0 <= i < |t.kids| ==> Listed(u, t.kids[i])
  }

  ghost predicate ListedAll(u: UsedBy, ts: seq<Tree>) {
    forall i :: 0 <= i < |ts| ==> Listed(u, ts[i])
  }

  ghost predicate ListedO(u: UsedBy, t: Option<Tree>) {
    t.Some? ==> Listed(u, t.value)
  }

  lemma {:induction false} AskersListed(u: UsedBy, t: Tree, id: StarId, atom: string)
    requires Listed(u, t) && Asks(t, id, atom)
    ensures id in Users(u, atom)
  {
    if !(t.id == id && Calls(t.calls, atom)) {
      var i :| 0 <= i < |t.kids| && Asks(t.kids[i], id, atom);
      AskersListed(u, t.kids[i], id, atom);
    }
  }

  lemma {:induction false} ListedFrame(u: UsedBy, u': UsedBy, t: Tree)
    requires Listed(u, t) && forall a, id :: In(t, id) && id in Users(u, a) ==> id in Users(u', a)
    ensures Listed(u', t)
  {
    assert In(t, t.id);
    forall i | 0 <= i < |t.kids|
      ensures Listed(u', t.kids[i])
    {
      forall id | In(t.kids[i], id)
        ensures In(t, id)
      {
      }
      ListedFrame(u, u', t.kids[i]);
    }
  }

  // ---------------------------------------------------------------- shapes

  /** The hooks of a mounted component fit the calls of its function. */
  ghost predicate HooksFit(hooks: seq<Hook>, calls: seq<HookCall>) {
    && |hooks| == |calls|
    && forall i :: 0 <= i < |calls| ==>
         hooks[i].init && hooks[i].cleanup == if calls[i].UseAtom? then Some(calls[i].name) else None
  }

  /** The hooks fit the calls of the component function, whatever it is rendered with. */
  ghost predicate FitFunc(hooks: seq<Hook>, cfuncs: map<string, CFunc>, tag: string)
    requires tag in cfuncs
  {
    forall env, old', e: Elem :: e.tag == tag ==> HooksFit(hooks, CallsFrom(env, old', cfuncs[tag], e, []))
  }

  /** Every slot has had a call. */
  ghost predicate AllCalled(hooks: seq<Hook>) {
    forall i :: 0 <= i < |hooks| ==> hooks[i].init
  }

  ghost predicate GoodKids(ts: seq<Tree>) {
    forall i, j :: 0 <= i < j < |ts| && ts[i].c.key != "" && ts[i].c.tag == ts[j].c.tag ==> ts[i].c.key != ts[j].c.key
  }

  /** What is true of every mounted tree, whatever it was rendered from. */
  ghost predicate TreeOk(cfuncs: map<string, CFunc>, t: Tree) {
    && t.c.elem.tag == t.c.tag && Key(t.c.elem) == t.c.key
    && (if IsFunc(cfuncs, t.c.tag) then
          && t.c.children == [] && AllCalled(t.c.hooks)
          && (StableHooks(cfuncs) ==> t.c.hooks == [] || FitFunc(t.c.hooks, cfuncs, t.c.tag))
        else t.c.hooks == [] && t.c.comp == None)
    && (IsBaseTag(t.c.tag) && t.c.tag != TEXT_TAG ==> GoodKids(t.kids))
    && (!IsFunc(cfuncs, t.c.tag) && (t.c.tag == TEXT_TAG || !IsBaseTag(t.c.tag)) ==> t.c.children == [])
    && forall i :: 0 <= i < |t.kids| ==> TreeOk(cfuncs, t.kids[i])
  }

  /** The rules of hooks: which hooks a component function calls, and on which atoms, does not depend on what
      it is rendered with, nor on what its hooks return. */
  ghost predicate StableHooks(cfuncs: map<string, CFunc>) {
    forall env, hooks, e: Elem, env', hooks', e': Elem :: e.tag == e'.tag && e.tag in cfuncs ==>
      SameShape(CallsFrom(env, hooks, cfuncs[e.tag], e, []), CallsFrom(env', hooks', cfuncs[e.tag], e', []))
  }

  ghost predicate SameShape(a: seq<HookCall>, b: seq<HookCall>) {
    && |a| == |b|
    && forall i :: 0 <= i < |a| ==> (a[i].UseAtom? <==> b[i].UseAtom?) && (a[i].UseAtom? ==> a[i] == b[i])
  }

  /** The calls that have left these slots. */
  function LastCalls(env: Env, e: Elem, hooks: seq<Hook>): seq<HookCall> {
    if IsFunc(env.cfuncs, e.tag) then CallsOf(env, e, hooks) else []
  }

  /** The tree is a rendering of the element. */
  ghost predicate Shows(env: Env, e: Elem, t: Tree)
    decreases t
  {
    && t.c.tag == e.tag && t.c.key == Key(e) && t.c.elem == e
    && t.calls == LastCalls(env, e, t.c.hooks)
    && if e.tag == TEXT_TAG then t.c.text == e.text && t.kids == []
       else if IsBaseTag(e.tag) then
         |t.kids| == |e.children| && forall i :: 0 <= i < |t.kids| ==> Shows(env, e.children[i], t.kids[i])
       else if e.tag !in env.cfuncs then t.c.text == "<" + e.tag + ">" && t.kids == []
       else
         var r := Output(env, e, t.c.hooks);
         if r.None? || r.value.tag == "" then t.kids == []
         else |t.kids| == 1 && Shows(env, r.value, t.kids[0])
  }

  // ---------------------------------------------------------------- how a rendering follows from an older tree

  predicate SameComp(prev: Option<Tree>, e: Elem) {
    prev.Some? && prev.value.c.tag == e.tag && prev.value.c.key == Key(e)
  }

  datatype ChildKey = ChildKey(tag: string, idx: nat, key: string)

  function MakeChildKey(tag: string, key: string, idx: nat): ChildKey {
    if key != "" then ChildKey(tag, 0, key) else ChildKey(tag, idx, "")
  }

  function KidKey(kids: seq<Tree>, j: nat): ChildKey
    requires j < |kids|
  {
    MakeChildKey(kids[j].c.tag, kids[j].c.key, j)
  }

  /** The j-th old child is the one that the i-th new element takes over. */
  predicate Matches(kids: seq<Tree>, j: nat, e: Elem, i: nat)
    requires j < |kids|
  {
    KidKey(kids, j) == MakeChildKey(e.tag, Key(e), i)
  }

  predicate FreshId(id: StarId, lo: nat, hi: nat) {
    id.Uuid? && lo <= id.n < hi
  }

  function OldHooks(prev: Option<Tree>, e: Elem): seq<Hook> {
    if SameComp(prev, e) then prev.value.c.hooks else []
  }

  function OldKids(prev: Option<Tree>, e: Elem): seq<Tree> {
    if SameComp(prev, e) then prev.value.kids else []
  }

  function FirstKid(kids: seq<Tree>): Option<Tree> {
    if kids == [] then None else Some(kids[0])
  }

  /** A component with the tag and key of an old one keeps its id and its hooks, wherever it has moved among its
      siblings; any other component is new. */
  ghost predicate Carried(env: Env, lo: nat, hi: nat, prev: Option<Tree>, e: Elem, t: Tree)
    decreases t, 0
  {
    && (if SameComp(prev, e) then t.id == prev.value.id else FreshId(t.id, lo, hi))
    && if IsBaseTag(e.tag) then
         && t.c.hooks == OldHooks(prev, e)
         && (e.tag != TEXT_TAG ==> |t.kids| == |e.children| && forall i :: 0 <= i < |t.kids| ==>
              CarriedChild(env, lo, hi, OldKids(prev, e), e.children[i], i, t.kids[i]))
       else if e.tag !in env.cfuncs then t.c.hooks == OldHooks(prev, e)
       else
         && t.c.hooks == HooksAfter(OldHooks(prev, e), CallsOf(env, e, OldHooks(prev, e)))
         && var r := Output(env, e, OldHooks(prev, e));
            (r.Some? && r.value.tag != "" ==>
              |t.kids| == 1 && Carried(env, lo, hi, FirstKid(OldKids(prev, e)), r.value, t.kids[0]))
  }

  ghost predicate CarriedChild(env: Env, lo: nat, hi: nat, kids: seq<Tree>, e: Elem, i: nat, t: Tree)
    decreases t, 1
  {
    && (forall j :: 0 <= j < |kids| && Matches(kids, j, e, i) ==> Carried(env, lo, hi, Some(kids[j]), e, t))
    && ((forall j :: 0 <= j < |kids| ==> !Matches(kids, j, e, i)) ==> Carried(env, lo, hi, None, e, t))
  }
}
