/** How CompMap and the users of atoms change when one mounted tree replaces another, and how such changes
    compose. */
module VDomFrames {
  import opened Wrappers
  import opened VDomTypes
  import opened VDomTree

  /** All ids in use were issued before `lo`. */
  ghost predicate Issued(m: CompMap, u: UsedBy, lo: nat) {
    && (forall id :: id in m ==> FreshId(id, 0, lo))
    && (forall a, id :: id in Users(u, a) ==> FreshId(id, 0, lo))
  }

  /** A mounted tree, in CompMap and among the users of the atoms it uses, and of no others. */
  ghost predicate Mounted(cfuncs: map<string, CFunc>, m: CompMap, u: UsedBy, t: Option<Tree>) {
    && (t.Some? ==> IsTree(m, t.value) && Distinct(t.value) && TreeOk(cfuncs, t.value))
    && (forall a, id :: InO(t, id) ==> (id in Users(u, a) <==> UsesO(t, id, a)))
  }

  /** CompMap has lost exactly the old tree and gained exactly the new one; nothing else has changed. */
  ghost predicate MapReplaced(m: CompMap, lo: nat, prev: Option<Tree>, m': CompMap, hi: nat, next: Option<Tree>) {
    && lo <= hi
    && (forall id :: id in m' <==> InO(next, id) || (id in m && !InO(prev, id)))
    && (forall id :: id in m && id in m' && !InO(prev, id) && !InO(next, id) ==> m'[id] == m[id])
    && (forall id :: InO(next, id) ==> InO(prev, id) || FreshId(id, lo, hi))
  }

  ghost predicate UsersReplaced(u: UsedBy, prev: Option<Tree>, u': UsedBy, next: Option<Tree>) {
    forall a, id :: id in Users(u', a) <==>
      if InO(prev, id) || InO(next, id) then UsesO(next, id, a) else id in Users(u, a)
  }

  ghost predicate Replaced(cfuncs: map<string, CFunc>, m: CompMap, u: UsedBy, lo: nat, prev: Option<Tree>,
                           m': CompMap, u': UsedBy, hi: nat, next: Option<Tree>) {
    && MapReplaced(m, lo, prev, m', hi, next)
    && UsersReplaced(u, prev, u', next)
    && Mounted(cfuncs, m', u', next)
  }

  lemma {:induction false} Compose(cfuncs: map<string, CFunc>, m: CompMap, u: UsedBy, lo: nat, prev: Option<Tree>,
                                   m1: CompMap, u1: UsedBy, n1: nat, mid: Option<Tree>,
                                   m2: CompMap, u2: UsedBy, hi: nat, next: Option<Tree>)
    requires Issued(m, u, lo)
    requires Replaced(cfuncs, m, u, lo, prev, m1, u1, n1, mid)
    requires Replaced(cfuncs, m1, u1, n1, mid, m2, u2, hi, next)
    ensures Replaced(cfuncs, m, u, lo, prev, m2, u2, hi, next)
  {
    hide Mounted, In, Uses;
    forall a, id
      ensures id in Users(u2, a) <==> if InO(prev, id) || InO(next, id) then UsesO(next, id, a) else id in Users(u, a)
    {
      if UsesO(next, id, a) {
        UsesIn(next.value, id, a);
      }
      if UsesO(mid, id, a) {
        UsesIn(mid.value, id, a);
      }
      assert id in Users(u, a) ==> FreshId(id, 0, lo);
      assert id in Users(u1, a) <==> if InO(prev, id) || InO(mid, id) then UsesO(mid, id, a) else id in Users(u, a);
    }
  }

  /** Replacing keeps the bound on issued ids. */
  lemma {:induction false} StillIssued(cfuncs: map<string, CFunc>, m: CompMap, u: UsedBy, lo: nat, prev: Option<Tree>,
                                       m': CompMap, u': UsedBy, hi: nat, next: Option<Tree>)
    requires Issued(m, u, lo) && Mounted(cfuncs, m, u, prev)
    requires Replaced(cfuncs, m, u, lo, prev, m', u', hi, next)
    ensures Issued(m', u', hi)
  {
    hide In, Uses, Distinct, TreeOk, IsTree;
    forall id | id in m'
      ensures FreshId(id, 0, hi)
    {
      if InO(prev, id) {
        InTreeInMap(m, prev.value, id);
      }
    }
    forall a, id | id in Users(u', a)
      ensures FreshId(id, 0, hi)
    {
      if UsesO(next, id, a) {
        UsesIn(next.value, id, a);
      }
      if InO(prev, id) {
        InTreeInMap(m, prev.value, id);
        assert FreshId(id, 0, lo);
      } else if InO(next, id) {
        assert FreshId(id, lo, hi);
      } else {
        assert id in Users(u, a);
        assert FreshId(id, 0, lo);
      }
    }
  }

  /** A tree that has nothing in common with what was replaced is still mounted. */
  lemma {:induction false} OtherStaysMounted(cfuncs: map<string, CFunc>, m: CompMap, u: UsedBy, lo: nat,
                                             prev: Option<Tree>,
                                             m': CompMap, u': UsedBy, hi: nat, next: Option<Tree>, t: Tree)
    requires Issued(m, u, lo) && Replaced(cfuncs, m, u, lo, prev, m', u', hi, next)
    requires Mounted(cfuncs, m, u, Some(t))
    requires forall id :: In(t, id) ==> !InO(prev, id)
    ensures Mounted(cfuncs, m', u', Some(t))
    ensures forall id :: In(t, id) ==> !InO(next, id)
  {
    hide Distinct, TreeOk, Uses;
    forall id | In(t, id)
      ensures !InO(next, id) && id in m && id in m' && m'[id] == m[id]
    {
      InTreeInMap(m, t, id);
    }
    IsTreeFrame(m, m', t);
  }

  // ---------------------------------------------------------------- replacing a list of children one by one

  ghost function IdsOf(t: Option<Tree>): iset<StarId> {
    iset id | InO(t, id)
  }

  ghost predicate UsesAny(ts: seq<Tree>, id: StarId, atom: string) {
    exists i :: 0 <= i < |ts| && Uses(ts[i], id, atom)
  }

  /** The components with ids in `gone` have been replaced by the trees `ts`. */
  ghost predicate Partway(cfuncs: map<string, CFunc>, m: CompMap, u: UsedBy, lo: nat, gone: iset<StarId>,
                          m': CompMap, u': UsedBy, hi: nat, ts: seq<Tree>) {
    && PartwayIds(m, u, lo, gone, m', u', hi, ts)
    && Apart(ts)
    && forall k :: 0 <= k < |ts| ==> Mounted(cfuncs, m', u', Some(ts[k]))
  }

  ghost predicate PartwayIds(m: CompMap, u: UsedBy, lo: nat, gone: iset<StarId>, m': CompMap, u': UsedBy, hi: nat,
                             ts: seq<Tree>) {
    PartwayMap(m, lo, gone, m', hi, ts) && PartwayUsers(u, gone, u', ts)
  }

  ghost predicate PartwayMap(m: CompMap, lo: nat, gone: iset<StarId>, m': CompMap, hi: nat, ts: seq<Tree>) {
    && lo <= hi
    && (forall id :: id in m' <==> InAny(ts, id) || (id in m && id !in gone))
    && (forall id :: id in m && id in m' && id !in gone && !InAny(ts, id) ==> m'[id] == m[id])
    && (forall id :: InAny(ts, id) ==> id in gone || FreshId(id, lo, hi))
  }

  ghost predicate PartwayUsers(u: UsedBy, gone: iset<StarId>, u': UsedBy, ts: seq<Tree>) {
    forall a, id :: id in Users(u', a) <==>
      if id in gone || InAny(ts, id) then UsesAny(ts, id, a) else id in Users(u, a)
  }

  lemma UsesAnyIn(ts: seq<Tree>, id: StarId, a: string)
    requires UsesAny(ts, id, a)
    ensures InAny(ts, id)
  {
    var i :| 0 <= i < |ts| && Uses(ts[i], id, a);
    UsesIn(ts[i], id, a);
  }

  lemma InAnyAppend(ts: seq<Tree>, t: Tree, id: StarId)
    ensures InAny(ts + [t], id) <==> InAny(ts, id) || In(t, id)
  {
    if InAny(ts, id) {
      var i :| 0 <= i < |ts| && In(ts[i], id);
      assert (ts + [t])[i] == ts[i];
    }
    if In(t, id) {
      assert (ts + [t])[|ts|] == t;
    }
  }

  lemma UsesAnyAppend(ts: seq<Tree>, t: Tree, id: StarId, a: string)
    ensures UsesAny(ts + [t], id, a) <==> UsesAny(ts, id, a) || Uses(t, id, a)
  {
    if UsesAny(ts, id, a) {
      var i :| 0 <= i < |ts| && Uses(ts[i], id, a);
      assert (ts + [t])[i] == ts[i];
    }
    if Uses(t, id, a) {
      assert (ts + [t])[|ts|] == t;
    }
  }

  /** What has not been replaced yet is still mounted. */
  lemma {:induction false} PartwayOther(cfuncs: map<string, CFunc>, m: CompMap, u: UsedBy, lo: nat, gone: iset<StarId>,
                                        m': CompMap, u': UsedBy, hi: nat, ts: seq<Tree>, t: Tree)
    requires Issued(m, u, lo) && Partway(cfuncs, m, u, lo, gone, m', u', hi, ts)
    requires Mounted(cfuncs, m, u, Some(t))
    requires forall id :: In(t, id) ==> id !in gone
    ensures Mounted(cfuncs, m', u', Some(t))
    ensures forall id :: In(t, id) ==> !InAny(ts, id)
  {
    hide Distinct, TreeOk, Uses, Apart, UsesAny, IsTree, In, InAny;
    forall id | In(t, id)
      ensures !InAny(ts, id) && id in m && id in m' && m'[id] == m[id]
    {
      InTreeInMap(m, t, id);
    }
    IsTreeFrame(m, m', t);
  }

  /** Replacing one more old child (or none) by one more new child (or none). */
  lemma {:induction false} PartwayStep(cfuncs: map<string, CFunc>, m: CompMap, u: UsedBy, lo: nat, gone: iset<StarId>,
                                       m1: CompMap, u1: UsedBy, n1: nat, ts: seq<Tree>, prev: Option<Tree>,
                                       m2: CompMap, u2: UsedBy, n2: nat, next: Option<Tree>)
    requires Issued(m, u, lo) && Issued(m1, u1, n1)
    requires Partway(cfuncs, m, u, lo, gone, m1, u1, n1, ts)
    requires Replaced(cfuncs, m1, u1, n1, prev, m2, u2, n2, next)
    requires forall id :: InO(prev, id) ==> id !in gone && !InAny(ts, id) && id in m
    ensures Partway(cfuncs, m, u, lo, gone + IdsOf(prev), m2, u2, n2, if next.Some? then ts + [next.value] else ts)
  {
    hide Mounted, In, PartwayIds, Issued, MapReplaced, UsersReplaced;
    var ts' := if next.Some? then ts + [next.value] else ts;
    forall k | 0 <= k < |ts|
      ensures Mounted(cfuncs, m2, u2, Some(ts[k])) && forall id :: In(ts[k], id) ==> !InO(next, id)
    {
      forall id | In(ts[k], id)
        ensures !InO(prev, id)
      {
        assert InAny(ts, id);
      }
      OtherStaysMounted(cfuncs, m1, u1, n1, prev, m2, u2, n2, next, ts[k]);
    }
    PartwayStepIds(m, u, lo, gone, m1, u1, n1, ts, prev, m2, u2, n2, next);
  }

  lemma {:induction false} PartwayStepIds(m: CompMap, u: UsedBy, lo: nat, gone: iset<StarId>,
                                          m1: CompMap, u1: UsedBy, n1: nat, ts: seq<Tree>, prev: Option<Tree>,
                                          m2: CompMap, u2: UsedBy, n2: nat, next: Option<Tree>)
    requires Issued(m, u, lo) && Issued(m1, u1, n1) && PartwayIds(m, u, lo, gone, m1, u1, n1, ts)
    requires MapReplaced(m1, n1, prev, m2, n2, next) && UsersReplaced(u1, prev, u2, next)
    requires forall id :: InO(prev, id) ==> id !in gone && !InAny(ts, id) && id in m
    ensures PartwayIds(m, u, lo, gone + IdsOf(prev), m2, u2, n2, if next.Some? then ts + [next.value] else ts)
  {
    hide In, Uses, Issued, InAny, UsesAny, MapReplaced, UsersReplaced, PartwayMap, PartwayUsers;
    var ts' := if next.Some? then ts + [next.value] else ts;
    forall id
      ensures InAny(ts', id) <==> InAny(ts, id) || InO(next, id)
    {
      if next.Some? { InAnyAppend(ts, next.value, id); }
    }
    forall id, a
      ensures UsesAny(ts', id, a) <==> UsesAny(ts, id, a) || UsesO(next, id, a)
    {
      if next.Some? { UsesAnyAppend(ts, next.value, id, a); }
    }
    StepMap(m, u, lo, gone, m1, n1, ts, prev, m2, n2, next, ts');
    StepUsers(m, lo, gone, m1, u, u1, n1, ts, prev, m2, u2, n2, next, ts');
  }

  lemma {:induction false} StepMap(m: CompMap, u: UsedBy, lo: nat, gone: iset<StarId>, m1: CompMap, n1: nat,
                                   ts: seq<Tree>,
                                   prev: Option<Tree>, m2: CompMap, n2: nat, next: Option<Tree>, ts': seq<Tree>)
    requires Issued(m, u, lo) && PartwayMap(m, lo, gone, m1, n1, ts) && MapReplaced(m1, n1, prev, m2, n2, next)
    requires forall id :: InO(prev, id) ==> id !in gone && !InAny(ts, id) && id in m
    requires forall id :: InAny(ts', id) <==> InAny(ts, id) || InO(next, id)
    ensures PartwayMap(m, lo, gone + IdsOf(prev), m2, n2, ts')
  {
    hide In, InAny;
  }

  lemma {:induction false} StepUsers(m: CompMap, lo: nat, gone: iset<StarId>, m1: CompMap, u: UsedBy, u1: UsedBy,
                                     n1: nat,
                                     ts: seq<Tree>, prev: Option<Tree>, m2: CompMap, u2: UsedBy, n2: nat,
                                     next: Option<Tree>,
                                     ts': seq<Tree>)
    requires Issued(m, u, lo) && Issued(m1, u1, n1) && PartwayMap(m, lo, gone, m1, n1, ts) &&
      PartwayUsers(u, gone, u1, ts)
    requires MapReplaced(m1, n1, prev, m2, n2, next) && UsersReplaced(u1, prev, u2, next)
    requires forall id :: InO(prev, id) ==> id !in gone && !InAny(ts, id)
    requires forall id :: InAny(ts', id) <==> InAny(ts, id) || InO(next, id)
    requires forall id, a :: UsesAny(ts', id, a) <==> UsesAny(ts, id, a) || UsesO(next, id, a)
    ensures PartwayUsers(u, gone + IdsOf(prev), u2, ts')
  {
    hide In, Uses, InAny, UsesAny;
    forall a, id
      ensures id in Users(u2, a) <==>
        if id in gone + IdsOf(prev) || InAny(ts', id) then UsesAny(ts', id, a) else id in Users(u, a)
    {
      if UsesAny(ts, id, a) { UsesAnyIn(ts, id, a); }
      if UsesO(next, id, a) { UsesIn(next.value, id, a); }
      assert InAny(ts, id) ==> FreshId(id, 0, n1);
      assert id in Users(u1, a) <==> if id in gone || InAny(ts, id) then UsesAny(ts, id, a) else id in Users(u, a);
      assert id in Users(u1, a) ==> FreshId(id, 0, n1);
    }
  }

  lemma PartwayStart(cfuncs: map<string, CFunc>, m: CompMap, u: UsedBy, lo: nat)
    ensures Partway(cfuncs, m, u, lo, iset{}, m, u, lo, [])
  {
  }

  ghost function IdSeq(ts: seq<Tree>): seq<StarId> {
    seq(|ts|, i requires 0 <= i < |ts| => ts[i].id)
  }

  ghost function AllIds(ts: seq<Tree>): iset<StarId> {
    iset id | InAny(ts, id)
  }

  /** The users of atoms after a component has run its hooks. */
  ghost predicate HooksRun(u: UsedBy, id: StarId, c: Comp, u': UsedBy) {
    forall a, x :: x in Users(u', a) <==> if x == id then CleansUp(c, a) else x in Users(u, a)
  }

  /** A component whose record and children have been replaced. */
  lemma {:induction false} NodeReplaced(cfuncs: map<string, CFunc>, m: CompMap, u: UsedBy, lo: nat, t: Tree,
                                        c1: Comp, u1: UsedBy, m2: CompMap, u2: UsedBy, hi: nat, kids: seq<Tree>,
                                        c: Comp, calls: seq<HookCall>)
    requires Issued(m, u, lo) && Mounted(cfuncs, m, u, Some(t))
    requires HooksRun(u, t.id, c, u1)
    requires Partway(cfuncs, m[t.id := c1], u1, lo, AllIds(t.kids), m2, u2, hi, kids)
    requires KidIds(c) == IdSeq(kids) && TreeOk(cfuncs, Node(t.id, c, calls, kids))
    ensures Replaced(cfuncs, m, u, lo, Some(t), m2[t.id := c], u2, hi, Some(Node(t.id, c, calls, kids)))
  {
    hide TreeOk, Apart, HooksRun, In, IsTree, Distinct, Uses, InAny;
    NodeTop(m, t);
    assert FreshId(t.id, 0, lo);
    assert t.id !in AllIds(t.kids) && !InAny(kids, t.id);
    NodeMap(m, lo, t, c1, m2, hi, kids, c, calls);
    NodeUsers(u, u1, u2, t, c, calls, kids);
    NodeMounted(cfuncs, m2, u2, t.id, c, calls, kids);
  }

  lemma {:induction false} NodeMap(m: CompMap, lo: nat, t: Tree, c1: Comp, m2: CompMap, hi: nat, kids: seq<Tree>,
                                   c: Comp, calls: seq<HookCall>)
    requires t.id in m && lo <= hi && !InAny(t.kids, t.id) && !InAny(kids, t.id)
    requires forall id :: id in m2 <==> InAny(kids, id) || (id in m[t.id := c1] && id !in AllIds(t.kids))
    requires forall id :: id in m[t.id := c1] && id in m2 && id !in AllIds(t.kids) && !InAny(kids, id) ==>
      m2[id] == m[t.id := c1][id]
    requires forall id :: InAny(kids, id) ==> id in AllIds(t.kids) || FreshId(id, lo, hi)
    ensures MapReplaced(m, lo, Some(t), m2[t.id := c], hi, Some(Node(t.id, c, calls, kids)))
  {
    NodeIds(t);
    NodeIds(Node(t.id, c, calls, kids));
    hide In;
  }

  lemma {:induction false} NodeMounted(cfuncs: map<string, CFunc>, m2: CompMap, u2: UsedBy, id: StarId, c: Comp,
                                       calls: seq<HookCall>, kids: seq<Tree>)
    requires !InAny(kids, id) && Apart(kids) && KidIds(c) == IdSeq(kids) && TreeOk(cfuncs, Node(id, c, calls, kids))
    requires forall k :: 0 <= k < |kids| ==> Mounted(cfuncs, m2, u2, Some(kids[k]))
    requires var n := Node(id, c, calls, kids);
      forall a, x :: In(n, x) ==> (x in Users(u2, a) <==> Uses(n, x, a))
    ensures Mounted(cfuncs, m2[id := c], u2, Some(Node(id, c, calls, kids)))
  {
    hide TreeOk, Apart, Uses;
    forall k | 0 <= k < |kids|
      ensures IsTree(m2[id := c], kids[k])
    {
      forall x | In(kids[k], x)
        ensures x in m2 && x != id
      {
        assert InAny(kids, x);
        InTreeInMap(m2, kids[k], x);
      }
      IsTreeFrame(m2, m2[id := c], kids[k]);
    }
  }

  lemma NodeTop(m: CompMap, t: Tree)
    requires IsTree(m, t) && Distinct(t)
    ensures t.id in m && m[t.id] == t.c && In(t, t.id) && !InAny(t.kids, t.id) && Apart(t.kids)
    ensures |t.kids| == |KidIds(t.c)| && forall i :: 0 <= i < |t.kids| ==> t.kids[i].id == KidIds(t.c)[i]
  {
  }

  lemma NodeIds(t: Tree)
    ensures forall id :: In(t, id) <==> id == t.id || InAny(t.kids, id)
  {
  }

  lemma {:induction false} NodeUsers(u: UsedBy, u1: UsedBy, u2: UsedBy, t: Tree, c: Comp,
                                     calls: seq<HookCall>, kids: seq<Tree>)
    requires HooksRun(u, t.id, c, u1)
    requires !InAny(t.kids, t.id) && !InAny(kids, t.id)
    requires forall a, id :: id in Users(u2, a) <==>
      if id in AllIds(t.kids) || InAny(kids, id) then UsesAny(kids, id, a) else id in Users(u1, a)
    ensures var n := Node(t.id, c, calls, kids);
      forall a, id :: id in Users(u2, a) <==> if In(t, id) || In(n, id) then Uses(n, id, a) else id in Users(u, a)
  {
    var n := Node(t.id, c, calls, kids);
    forall a, id
      ensures id in Users(u2, a) <==> if In(t, id) || In(n, id) then Uses(n, id, a) else id in Users(u, a)
    {
      assert Uses(n, id, a) <==> (id == t.id && CleansUp(c, a)) || UsesAny(kids, id, a);
      if UsesAny(kids, id, a) { UsesAnyIn(kids, id, a); }
      assert id in Users(u1, a) <==> if id == t.id then CleansUp(c, a) else id in Users(u, a);
    }
  }

  /** A component that has lost its hooks' registrations and its children, and then its own record. */
  lemma {:induction false} NodeRemoved(cfuncs: map<string, CFunc>, m: CompMap, u: UsedBy, lo: nat, t: Tree,
                                       u1: UsedBy, m2: CompMap, u2: UsedBy)
    requires Issued(m, u, lo) && Mounted(cfuncs, m, u, Some(t))
    requires forall a, x :: x in Users(u1, a) <==> x != t.id && x in Users(u, a)
    requires Partway(cfuncs, m, u1, lo, AllIds(t.kids), m2, u2, lo, [])
    ensures Replaced(cfuncs, m, u, lo, Some(t), m2 - {t.id}, u2, lo, None)
  {
    NodeIds(t);
    hide In, IsTree, TreeOk, Distinct;
    forall a, id
      ensures id in Users(u2, a) <==> !In(t, id) && id in Users(u, a)
    {
      assert !UsesAny([], id, a);
      assert !InAny([], id);
      assert id in Users(u2, a) <==>
        if id in AllIds(t.kids) || InAny([], id) then UsesAny([], id, a) else id in Users(u1, a);
    }
    forall id
      ensures id in m2 <==> id in m && !InAny(t.kids, id)
    {
      assert !InAny([], id);
    }
  }

  /** A component that has just been created. */
  lemma {:induction false} NodeCreated(cfuncs: map<string, CFunc>, m: CompMap, u: UsedBy, lo: nat, c: Comp)
    requires Issued(m, u, lo)
    requires KidIds(c) == [] && c.hooks == [] && TreeOk(cfuncs, Node(Uuid(lo), c, [], []))
    ensures Replaced(cfuncs, m, u, lo, None, m[Uuid(lo) := c], u, lo + 1, Some(Node(Uuid(lo), c, [], [])))
  {
    hide TreeOk;
    var t := Node(Uuid(lo), c, [], []);
    NodeIds(t);
    forall a, id
      ensures !Uses(t, id, a) && (In(t, id) ==> id !in Users(u, a) && id !in m)
    {
      assert id in Users(u, a) ==> FreshId(id, 0, lo);
    }
  }

  // ---------------------------------------------------------------- which old children are done

  ghost predicate InSome(kids: seq<Tree>, done: set<nat>, id: StarId) {
    exists j :: j in done && 0 <= j < |kids| && In(kids[j], id)
  }

  ghost function Gone(kids: seq<Tree>, done: set<nat>): iset<StarId> {
    iset id | InSome(kids, done, id)
  }

  lemma {:induction false} GoneAdd(kids: seq<Tree>, done: set<nat>, j: nat)
    requires Apart(kids) && j < |kids| && j !in done
    ensures Gone(kids, done + {j}) == Gone(kids, done) + IdsOf(Some(kids[j]))
    ensures forall id :: In(kids[j], id) ==> id !in Gone(kids, done)
  {
    hide In;
    forall id
      ensures InSome(kids, done + {j}, id) <==> InSome(kids, done, id) || In(kids[j], id)
    {
      if In(kids[j], id) {
        assert j in done + {j};
      }
      if InSome(kids, done, id) {
        var i :| i in done && 0 <= i < |kids| && In(kids[i], id);
        assert i in done + {j};
      }
    }
  }

  lemma {:induction false} GoneAll(kids: seq<Tree>, done: set<nat>)
    requires forall j :: 0 <= j < |kids| ==> j in done
    ensures Gone(kids, done) == AllIds(kids)
  {
    hide In;
  }

  lemma GoneNone(kids: seq<Tree>)
    ensures Gone(kids, {}) == iset{}
  {
  }

  lemma MountedInMap(cfuncs: map<string, CFunc>, m: CompMap, u: UsedBy, t: Tree)
    requires Mounted(cfuncs, m, u, Some(t))
    ensures forall id :: In(t, id) ==> id in m
  {
    forall id | In(t, id)
      ensures id in m
    {
      InTreeInMap(m, t, id);
    }
  }

  /** Running the UnmountFns of a component removes exactly its own registrations. */
  lemma {:induction false} UsersAfterCleanup(cfuncs: map<string, CFunc>, m: CompMap, u: UsedBy, t: Tree, u1: UsedBy)
    requires Mounted(cfuncs, m, u, Some(t))
    requires forall a, x :: x in Users(u1, a) <==> x in Users(u, a) && !(x == t.id && CleansUp(t.c, a))
    ensures forall a, x :: x in Users(u1, a) <==> x != t.id && x in Users(u, a)
    ensures forall k :: 0 <= k < |t.kids| ==> Mounted(cfuncs, m, u1, Some(t.kids[k]))
  {
    forall a
      ensures t.id in Users(u, a) <==> CleansUp(t.c, a)
    {
      TopUses(t, a);
      assert InO(Some(t), t.id) && (UsesO(Some(t), t.id, a) <==> CleansUp(t.c, a));
      assert t.id in Users(u, a) <==> UsesO(Some(t), t.id, a);
    }
    forall k | 0 <= k < |t.kids|
      ensures Mounted(cfuncs, m, u1, Some(t.kids[k]))
    {
      KidMounted(cfuncs, m, u, t, k);
      forall a, id | In(t.kids[k], id)
        ensures id in Users(u1, a) <==> Uses(t.kids[k], id, a)
      {
        assert InAny(t.kids, id);
        assert id in Users(u, a) <==> UsesO(Some(t.kids[k]), id, a);
      }
    }
  }

  lemma {:induction false} TopUses(t: Tree, a: string)
    requires Distinct(t)
    ensures In(t, t.id) && (Uses(t, t.id, a) <==> CleansUp(t.c, a))
  {
    if i :| 0 <= i < |t.kids| && Uses(t.kids[i], t.id, a) {
      UsesIn(t.kids[i], t.id, a);
    }
  }

  /** A child of a mounted tree is mounted. */
  lemma {:induction false} KidMounted(cfuncs: map<string, CFunc>, m: CompMap, u: UsedBy, t: Tree, k: nat)
    requires Mounted(cfuncs, m, u, Some(t)) && k < |t.kids|
    ensures Mounted(cfuncs, m, u, Some(t.kids[k]))
  {
    forall a, id | In(t.kids[k], id)
      ensures id in Users(u, a) <==> UsesO(Some(t.kids[k]), id, a)
    {
      assert InAny(t.kids, id) && InO(Some(t), id);
      assert id in Users(u, a) <==> UsesO(Some(t), id, a);
      if i :| 0 <= i < |t.kids| && i != k && Uses(t.kids[i], id, a) {
        UsesIn(t.kids[i], id, a);
      }
    }
  }

  lemma {:induction false} FitCleansUp(c: Comp, calls: seq<HookCall>, a: string)
    requires HooksFit(c.hooks, calls)
    ensures CleansUp(c, a) <==> Calls(calls, a)
  {
    if CleansUp(c, a) {
      var i :| 0 <= i < |c.hooks| && c.hooks[i].cleanup == Some(a);
      assert calls[i] == UseAtom(a);
    }
    if Calls(calls, a) {
      var i :| 0 <= i < |calls| && calls[i] == UseAtom(a);
      assert c.hooks[i].cleanup == Some(a);
    }
  }

  /** Under the rules of hooks the slots go on fitting the calls. */
  lemma {:induction false} HooksStillFit(cfuncs: map<string, CFunc>, env: Env, hooks: seq<Hook>, e: Elem)
    requires StableHooks(cfuncs) && e.tag in cfuncs && env.cfuncs == cfuncs
    requires hooks == [] || FitFunc(hooks, cfuncs, e.tag)
    ensures var calls := CallsOf(env, e, hooks);
      HooksFit(HooksAfter(hooks, calls), calls) && FitFunc(HooksAfter(hooks, calls), cfuncs, e.tag)
  {
    hide StableHooks, CallsFrom;
    var calls := CallsOf(env, e, hooks);
    var r := HooksAfter(hooks, calls);
    assert hooks != [] ==> HooksFit(hooks, calls);
    forall i | 0 <= i < |calls|
      ensures r[i].init && r[i].cleanup == if calls[i].UseAtom? then Some(calls[i].name) else None
    {
      assert r[i] == HookAfter(SlotOrFresh(hooks, i), calls[i]);
    }
    forall env', hooks', e': Elem | e'.tag == e.tag
      ensures HooksFit(r, CallsFrom(env', hooks', cfuncs[e.tag], e', []))
    {
      StableShape(cfuncs, env, hooks, e, env', hooks', e');
    }
  }

  lemma StableShape(cfuncs: map<string, CFunc>, env: Env, hooks: seq<Hook>, e: Elem, env': Env, hooks': seq<Hook>,
                    e': Elem)
    requires StableHooks(cfuncs) && e.tag == e'.tag && e.tag in cfuncs
    ensures SameShape(CallsFrom(env, hooks, cfuncs[e.tag], e, []), CallsFrom(env', hooks', cfuncs[e.tag], e', []))
  {
  }

  // ---------------------------------------------------------------- registrations that nothing undoes

  /** Component x is registered with atom a, but no hook slot of it will undo that. */
  ghost predicate Stale(u: UsedBy, owned: UsedBy, a: string, x: StarId) {
    x in Users(u, a) && x !in Users(owned, a)
  }

  /** The users of atoms are the registrations `owned` that a hook slot will undo, and stale ones of components that
      exist or existed. Under the rules of hooks none is stale. */
  ghost predicate Accounted(cfuncs: map<string, CFunc>, u: UsedBy, owned: UsedBy, lo: nat) {
    && (forall a, x :: x in Users(owned, a) ==> x in Users(u, a))
    && (forall a, x :: x in Users(u, a) ==> FreshId(x, 0, lo))
    && (StableHooks(cfuncs) ==> forall a, x :: !Stale(u, owned, a, x))
  }

  /** Components with other ids have the stale registrations they had. */
  ghost predicate StaleKept(u: UsedBy, owned: UsedBy, u': UsedBy, owned': UsedBy, ids: iset<StarId>) {
    forall a, x :: x !in ids ==> (Stale(u', owned', a, x) <==> Stale(u, owned, a, x))
  }

  lemma StaleChain(u: UsedBy, owned: UsedBy, u1: UsedBy, owned1: UsedBy, ids1: iset<StarId>,
                   u2: UsedBy, owned2: UsedBy, ids2: iset<StarId>, ids: iset<StarId>)
    requires StaleKept(u, owned, u1, owned1, ids1) && StaleKept(u1, owned1, u2, owned2, ids2) && ids1 <= ids &&
      ids2 <= ids
    ensures StaleKept(u, owned, u2, owned2, ids)
  {
    hide Stale;
  }

  lemma StaleSame(u: UsedBy, owned: UsedBy, ids: iset<StarId>)
    ensures StaleKept(u, owned, u, owned, ids)
  {
  }

  /** The UnmountFns of a component leave its stale registrations, and those of the others. */
  lemma CleanupAccounted(cfuncs: map<string, CFunc>, m: CompMap, t: Tree, u: UsedBy, owned: UsedBy, u': UsedBy,
                         owned': UsedBy, lo: nat)
    requires Accounted(cfuncs, u, owned, lo) && Mounted(cfuncs, m, owned, Some(t))
    requires forall a, x :: x in Users(u', a) <==> x in Users(u, a) && !(x == t.id && CleansUp(t.c, a))
    requires forall a, x :: x in Users(owned', a) <==> x in Users(owned, a) && !(x == t.id && CleansUp(t.c, a))
    ensures Accounted(cfuncs, u', owned', lo) && StaleKept(u, owned, u', owned', iset{})
  {
    forall a
      ensures CleansUp(t.c, a) ==> t.id in Users(owned, a)
    {
      TopUses(t, a);
      assert InO(Some(t), t.id) && (UsesO(Some(t), t.id, a) <==> CleansUp(t.c, a));
    }
    hide CleansUp, StableHooks, Mounted;
    forall a, x
      ensures Stale(u', owned', a, x) <==> Stale(u, owned, a, x)
    {
      assert x in Users(owned, a) ==> x in Users(u, a);
    }
  }

  /** What is gone is left with its stale registrations. */
  lemma GoneAreStale(u: UsedBy, owned: UsedBy, u': UsedBy, owned': UsedBy, t: Option<Tree>)
    requires StaleKept(u, owned, u', owned', IdsOf(t))
    requires forall a, x :: x in Users(owned', a) ==> InO(t, x)
    ensures forall a, x :: !InO(t, x) ==> (x in Users(u', a) <==> Stale(u, owned, a, x))
  {
    hide In;
    forall a, x | !InO(t, x)
      ensures x in Users(u', a) <==> Stale(u, owned, a, x)
    {
      assert x !in IdsOf(t);
      assert Stale(u', owned', a, x) <==> Stale(u, owned, a, x);
    }
  }

  /** The atoms that some slot of a component will unregister it from. */
  ghost function CleanAtoms(c: Comp): set<string> {
    set i | 0 <= i < |c.hooks| && c.hooks[i].cleanup.Some? :: c.hooks[i].cleanup.value
  }

  /** The registrations to be undone, once component id has the slots of c. */
  ghost function WithHooks(owned: UsedBy, id: StarId, c: Comp): UsedBy {
    map a | a in owned.Keys + CleanAtoms(c) :: if CleansUp(c, a) then Users(owned, a) + {id} else Users(owned, a) - {id}
  }

  lemma OwnHooks(owned: UsedBy, id: StarId, c: Comp)
    ensures HooksRun(owned, id, c, WithHooks(owned, id, c))
  {
    forall a
      ensures a in CleanAtoms(c) <==> CleansUp(c, a)
    {
    }
  }

  /** Calls add clean-ups of their own atoms only, and take none away. */
  lemma {:induction false} CleanUpsGrow(c: Comp, c': Comp, calls: seq<HookCall>, a: string)
    requires c'.hooks == HooksAfter(c.hooks, calls) && AllCalled(c.hooks)
    ensures CleansUp(c, a) ==> CleansUp(c', a)
    ensures CleansUp(c', a) ==> CleansUp(c, a) || Calls(calls, a)
    ensures AllCalled(c'.hooks)
  {
    if CleansUp(c, a) {
      var i :| 0 <= i < |c.hooks| && c.hooks[i].cleanup == Some(a);
      assert c'.hooks[i].cleanup == Some(a);
    }
    if CleansUp(c', a) {
      var i :| 0 <= i < |c'.hooks| && c'.hooks[i].cleanup == Some(a);
      if i < |c.hooks| && c.hooks[i].cleanup == Some(a) {
        assert CleansUp(c, a);
      } else {
        assert calls[i] == UseAtom(a);
      }
    }
  }

  /** After the calls of a component, its stale registrations are those it had or has just made, without those that a
      slot will undo. */
  lemma {:induction false} StaleAfterCalls(cfuncs: map<string, CFunc>, m: CompMap, owned: UsedBy, t: Tree,
                                           calls: seq<HookCall>, c: Comp,
                                           u: UsedBy, u': UsedBy, owned': UsedBy)
    requires Mounted(cfuncs, m, owned, Some(t)) && c.hooks == HooksAfter(t.c.hooks, calls) && AllCalled(t.c.hooks)
    requires forall a, x :: x in Users(owned, a) ==> x in Users(u, a)
    requires forall a, x :: x in Users(u', a) <==> x in Users(u, a) || (x == t.id && Calls(calls, a))
    requires HooksRun(owned, t.id, c, owned')
    ensures forall a, x :: x in Users(owned', a) ==> x in Users(u', a)
    ensures forall a, x :: Stale(u', owned', a, x) <==>
      if x == t.id then (Stale(u, owned, a, x) || Calls(calls, a)) && !CleansUp(c, a) else Stale(u, owned, a, x)
  {
    forall a
      ensures (CleansUp(t.c, a) <==> t.id in Users(owned, a)) && (CleansUp(t.c, a) ==> CleansUp(c, a))
      ensures CleansUp(c, a) ==> CleansUp(t.c, a) || Calls(calls, a)
    {
      TopUses(t, a);
      assert InO(Some(t), t.id) && (UsesO(Some(t), t.id, a) <==> CleansUp(t.c, a));
      CleanUpsGrow(t.c, c, calls, a);
    }
    hide Mounted, CleansUp, Calls;
    forall a, x
      ensures x in Users(owned', a) ==> x in Users(u', a)
      ensures Stale(u', owned', a, x) <==>
        if x == t.id then (Stale(u, owned, a, x) || Calls(calls, a)) && !CleansUp(c, a) else Stale(u, owned, a, x)
    {
      assert x in Users(owned', a) <==> if x == t.id then CleansUp(c, a) else x in Users(owned, a);
      assert x in Users(u', a) <==> x in Users(u, a) || (x == t.id && Calls(calls, a));
    }
  }

  /** The users stay accounted for when a component has made its calls. */
  lemma {:induction false} CallsAccounted(cfuncs: map<string, CFunc>, m: CompMap, owned: UsedBy, t: Tree, env: Env,
                                          e: Elem, c: Comp, u: UsedBy, u': UsedBy, owned': UsedBy, lo: nat)
    requires Mounted(cfuncs, m, owned, Some(t)) && IsFunc(cfuncs, t.c.tag) && e.tag == t.c.tag && FreshId(t.id, 0, lo)
    requires env.cfuncs == cfuncs && Accounted(cfuncs, u, owned, lo) && HooksRun(owned, t.id, c, owned')
    requires var calls := CallsOf(env, e, t.c.hooks);
      c.hooks == HooksAfter(t.c.hooks, calls) &&
      forall a, x :: x in Users(u', a) <==> x in Users(u, a) || (x == t.id && Calls(calls, a))
    ensures Accounted(cfuncs, u', owned', lo) && StaleKept(u, owned, u', owned', iset{t.id})
    ensures AllCalled(c.hooks) && (StableHooks(cfuncs) ==> FitFunc(c.hooks, cfuncs, e.tag))
  {
    var calls := CallsOf(env, e, t.c.hooks);
    CleanUpsGrow(t.c, c, calls, "");
    StaleAfterCalls(cfuncs, m, owned, t, calls, c, u, u', owned');
    hide CallsFrom;
    if StableHooks(cfuncs) {
      HooksStillFit(cfuncs, env, t.c.hooks, e);
      forall a
        ensures Calls(calls, a) ==> CleansUp(c, a)
      {
        FitCleansUp(c, calls, a);
      }
    }
    hide Mounted, CleansUp, Calls, StableHooks, HooksFit, FitFunc, HooksRun;
    forall a, x | x in Users(u', a)
      ensures FreshId(x, 0, lo)
    {
      assert x in Users(u, a) || x == t.id;
    }
  }

  /** Replacing a tree does not take from the lists of users the components of any other. */
  lemma ListedKept(cfuncs: map<string, CFunc>, u: UsedBy, owned: UsedBy, lo: nat, prev: Option<Tree>,
                   u': UsedBy, owned': UsedBy, hi: nat, next: Option<Tree>, t: Tree)
    requires Accounted(cfuncs, u, owned, lo) && Accounted(cfuncs, u', owned', hi) && Listed(u, t)
    requires UsersReplaced(owned, prev, owned', next) && StaleKept(u, owned, u', owned', IdsOf(next))
    requires forall id :: In(t, id) ==> !InO(prev, id) && !InO(next, id)
    ensures Listed(u', t)
  {
    hide In, Uses, Listed, StableHooks;
    forall a, id | In(t, id) && id in Users(u, a)
      ensures id in Users(u', a)
    {
      assert id !in IdsOf(next) && (Stale(u', owned', a, id) <==> Stale(u, owned, a, id));
      assert id in Users(owned', a) <==> id in Users(owned, a);
    }
    ListedFrame(u, u', t);
  }

  /** So the children that are done stay listed while one more is replaced. */
  lemma PartwayListed(cfuncs: map<string, CFunc>, m: CompMap, u: UsedBy, lo: nat, gone: iset<StarId>, ts: seq<Tree>,
                      m1: CompMap, used1: UsedBy, u1: UsedBy, n1: nat, prev: Option<Tree>,
                      m2: CompMap, used2: UsedBy, u2: UsedBy, n2: nat, next: Option<Tree>)
    requires Partway(cfuncs, m, u, lo, gone, m1, u1, n1, ts) && Issued(m1, u1, n1)
    requires Replaced(cfuncs, m1, u1, n1, prev, m2, u2, n2, next) && StaleKept(used1, u1, used2, u2, IdsOf(next))
    requires Accounted(cfuncs, used1, u1, n1) && Accounted(cfuncs, used2, u2, n2)
    requires ListedAll(used1, ts) && forall id :: InO(prev, id) ==> !InAny(ts, id)
    ensures ListedAll(used2, ts)
  {
    hide In, Listed, Accounted, UsersReplaced, StaleKept, Mounted, PartwayUsers;
    forall k | 0 <= k < |ts|
      ensures Listed(used2, ts[k])
    {
      forall id | In(ts[k], id)
        ensures !InO(prev, id) && !InO(next, id)
      {
        assert InAny(ts, id) && FreshId(id, 0, n1);
      }
      ListedKept(cfuncs, used1, u1, n1, prev, used2, u2, n2, next, ts[k]);
    }
  }

  // ---------------------------------------------------------------- matching children

  /** curCM holds each old child under its key. */
  ghost predicate Lookups(cm: map<ChildKey, StarId>, kids: seq<Tree>, n: nat)
    requires n <= |kids|
  {
    && (forall j :: 0 <= j < n ==> KidKey(kids, j) in cm && cm[KidKey(kids, j)] == kids[j].id)
    && (forall k :: k in cm ==> exists j :: 0 <= j < n && k == KidKey(kids, j))
  }

  lemma {:induction false} KidKeysDistinct(kids: seq<Tree>, i: nat, j: nat)
    requires GoodKids(kids) && i < |kids| && j < |kids| && i != j
    ensures KidKey(kids, i) != KidKey(kids, j)
  {
    if i < j && kids[i].c.key != "" && kids[i].c.tag == kids[j].c.tag {
      assert kids[i].c.key != kids[j].c.key;
    }
    if j < i && kids[j].c.key != "" && kids[i].c.tag == kids[j].c.tag {
      assert kids[j].c.key != kids[i].c.key;
    }
  }

  lemma {:induction false} ElemKeysDistinct(es: seq<Elem>, i: nat, j: nat)
    requires GoodSiblings(es) && i < j < |es|
    ensures MakeChildKey(es[i].tag, Key(es[i]), i) != MakeChildKey(es[j].tag, Key(es[j]), j)
  {
  }

  lemma {:induction false} LookupsStep(cm: map<ChildKey, StarId>, kids: seq<Tree>, n: nat)
    requires GoodKids(kids) && n < |kids| && Lookups(cm, kids, n)
    ensures Lookups(cm[KidKey(kids, n) := kids[n].id], kids, n + 1)
  {
    var key := KidKey(kids, n);
    var cm' := cm[key := kids[n].id];
    forall j | 0 <= j < n
      ensures KidKey(kids, j) != key
    {
      KidKeysDistinct(kids, j, n);
    }
    forall k | k in cm'
      ensures exists j :: 0 <= j < n + 1 && k == KidKey(kids, j)
    {
      if k in cm {
        var j :| 0 <= j < n && k == KidKey(kids, j);
      }
    }
  }

  /** The map curCM over the first n old children: later ones replace earlier ones under the same key. */
  function LookupMap(kids: seq<Tree>, n: nat): map<ChildKey, StarId>
    requires n <= |kids|
  {
    if n == 0 then map[] else LookupMap(kids, n - 1)[KidKey(kids, n - 1) := kids[n - 1].id]
  }

  /** Why siblings must not share a tag and a key: only the last old child with them is ever taken over, by every new
      element with them, wherever it is. */
  lemma {:induction false} DuplicateKeyShadows(kids: seq<Tree>, j: nat, n: nat, i: nat)
    requires j < n <= |kids| && kids[j].c.key != ""
    requires forall k :: j < k < n ==> kids[k].c.tag != kids[j].c.tag || kids[k].c.key != kids[j].c.key
    ensures var key := MakeChildKey(kids[j].c.tag, kids[j].c.key, i);
      key in LookupMap(kids, n) && LookupMap(kids, n)[key] == kids[j].id
    decreases n
  {
    if j < n - 1 {
      DuplicateKeyShadows(kids, j, n - 1, i);
      assert KidKey(kids, n - 1) != MakeChildKey(kids[j].c.tag, kids[j].c.key, i);
    }
  }

  /** Carried from a later moment is carried from an earlier one. */
  lemma {:induction false} CarriedMono(env: Env, lo: nat, hi: nat, lo': nat, hi': nat, prev: Option<Tree>, e: Elem,
                                       t: Tree)
    requires Carried(env, lo, hi, prev, e, t) && lo' <= lo && hi <= hi'
    ensures Carried(env, lo', hi', prev, e, t)
    decreases t, 0
  {
    if IsBaseTag(e.tag) {
      if e.tag != TEXT_TAG {
        forall i | 0 <= i < |t.kids|
          ensures CarriedChild(env, lo', hi', OldKids(prev, e), e.children[i], i, t.kids[i])
        {
          CarriedChildMono(env, lo, hi, lo', hi', OldKids(prev, e), e.children[i], i, t.kids[i]);
        }
      }
    } else if e.tag in env.cfuncs {
      var r := Output(env, e, OldHooks(prev, e));
      if r.Some? && r.value.tag != "" {
        CarriedMono(env, lo, hi, lo', hi', FirstKid(OldKids(prev, e)), r.value, t.kids[0]);
      }
    }
  }

  lemma {:induction false} CarriedChildMono(env: Env, lo: nat, hi: nat, lo': nat, hi': nat, kids: seq<Tree>, e: Elem,
                                            i: nat, t: Tree)
    requires CarriedChild(env, lo, hi, kids, e, i, t) && lo' <= lo && hi <= hi'
    ensures CarriedChild(env, lo', hi', kids, e, i, t)
    decreases t, 1
  {
    forall j | 0 <= j < |kids| && Matches(kids, j, e, i)
      ensures Carried(env, lo', hi', Some(kids[j]), e, t)
    {
      CarriedMono(env, lo, hi, lo', hi', Some(kids[j]), e, t);
    }
    if forall j :: 0 <= j < |kids| ==> !Matches(kids, j, e, i) {
      CarriedMono(env, lo, hi, lo', hi', None, e, t);
    }
  }

  ghost function KidAt(kids: seq<Tree>, j: Option<nat>): Option<Tree>
    requires j.Some? ==> j.value < |kids|
  {
    if j.Some? then Some(kids[j.value]) else None
  }

  /** The one old child that matches decides what is carried. */
  lemma {:induction false} CarriedMatch(env: Env, lo: nat, hi: nat, kids: seq<Tree>, e: Elem, i: nat, t: Tree,
                                        j: Option<nat>)
    requires GoodKids(kids)
    requires j.Some? ==> j.value < |kids| && Matches(kids, j.value, e, i)
    requires j.None? ==> forall j' :: 0 <= j' < |kids| ==> !Matches(kids, j', e, i)
    requires Carried(env, lo, hi, KidAt(kids, j), e, t)
    ensures CarriedChild(env, lo, hi, kids, e, i, t)
  {
    forall j' | 0 <= j' < |kids| && Matches(kids, j', e, i)
      ensures j == Some(j')
    {
      if j != Some(j') {
        KidKeysDistinct(kids, j.value, j');
      }
    }
  }

  lemma TreeOkGoodKids(es: seq<Elem>, kids: seq<Tree>)
    requires GoodSiblings(es) && |kids| == |es|
    requires forall i :: 0 <= i < |kids| ==> kids[i].c.tag == es[i].tag && kids[i].c.key == Key(es[i])
    ensures GoodKids(kids)
  {
  }

  /** Only the record of the component itself has changed, not those below it. */
  lemma {:induction false} KidStaysMounted(cfuncs: map<string, CFunc>, m: CompMap, u: UsedBy, t: Tree, c1: Comp,
                                           u1: UsedBy, k: nat)
    requires Mounted(cfuncs, m, u, Some(t)) && k < |t.kids|
    requires forall a, x :: x != t.id ==> (x in Users(u1, a) <==> x in Users(u, a))
    ensures Mounted(cfuncs, m[t.id := c1], u1, Some(t.kids[k]))
  {
    KidMounted(cfuncs, m, u, t, k);
    hide TreeOk, Uses;
    forall id | In(t.kids[k], id)
      ensures id in m && id != t.id
    {
      assert InAny(t.kids, id);
      InTreeInMap(m, t.kids[k], id);
    }
    IsTreeFrame(m, m[t.id := c1], t.kids[k]);
  }

  // ---------------------------------------------------------------- the whole life of a component

  /** The hook slots after renders with these calls, the first of them on a new component. */
  function HooksOver(cs: seq<seq<HookCall>>): seq<Hook> {
    if cs == [] then [] else HooksAfter(HooksOver(cs[..|cs| - 1]), cs[|cs| - 1])
  }

  /** Some render called UseAtom(a). */
  ghost predicate EverCalled(cs: seq<seq<HookCall>>, a: string) {
    exists j :: 0 <= j < |cs| && Calls(cs[j], a)
  }

  /** The i-th slot was made by the j-th render, which called UseAtom(a) on it. */
  ghost predicate FirstCall(cs: seq<seq<HookCall>>, j: nat, i: nat, a: string) {
    j < |cs| && i < |cs[j]| && cs[j][i] == UseAtom(a) && forall k :: 0 <= k < j ==> |cs[k]| <= i
  }

  ghost predicate FirstCallIn(cs: seq<seq<HookCall>>, j: nat, a: string) {
    exists i: nat :: FirstCall(cs, j, i, a)
  }

  ghost predicate SomeFirstCall(cs: seq<seq<HookCall>>, a: string) {
    exists j: nat, i: nat :: FirstCall(cs, j, i, a)
  }

  lemma {:induction false} SlotsOver(cs: seq<seq<HookCall>>)
    ensures forall k :: 0 <= k < |cs| ==> |cs[k]| <= |HooksOver(cs)|
    ensures |HooksOver(cs)| > 0 ==> exists k :: 0 <= k < |cs| && |cs[k]| == |HooksOver(cs)|
    ensures AllCalled(HooksOver(cs))
  {
    if cs != [] {
      var front, last := cs[..|cs| - 1], cs[|cs| - 1];
      SlotsOver(front);
      forall i | 0 <= i < |HooksOver(cs)|
        ensures HooksOver(cs)[i].init
      {
        assert i >= |last| ==> HooksOver(cs)[i] == HooksOver(front)[i];
      }
      if |HooksOver(front)| > |last| {
        var k :| 0 <= k < |front| && |front[k]| == |HooksOver(front)|;
        assert cs[k] == front[k];
      }
      forall k | 0 <= k < |cs|
        ensures |cs[k]| <= |HooksOver(cs)|
      {
        assert k < |front| ==> cs[k] == front[k];
      }
    }
  }

  /** A slot registers its clean-up on its first call only. */
  lemma {:induction false} CleanedUpIff(cs: seq<seq<HookCall>>, a: string)
    ensures CleanedUp(HooksOver(cs), a) <==> SomeFirstCall(cs, a)
  {
    if cs != [] {
      var n := |cs| - 1;
      var front, last := cs[..n], cs[n];
      CleanedUpIff(front, a);
      SlotsOver(front);
      FirstCallStep(cs, a);
      LastSlots(HooksOver(front), last, a);
      if i :| |HooksOver(front)| <= i < |last| && last[i] == UseAtom(a) {
        assert FirstCall(cs, n, i, a);
      }
      if i: nat :| FirstCall(cs, n, i, a) {
        if |HooksOver(front)| > 0 {
          var k :| 0 <= k < |front| && |front[k]| == |HooksOver(front)|;
          assert |cs[k]| <= i;
        }
      }
    }
  }

  lemma {:induction false} FirstCallStep(cs: seq<seq<HookCall>>, a: string)
    requires cs != []
    ensures SomeFirstCall(cs, a) <==> SomeFirstCall(cs[..|cs| - 1], a) || FirstCallIn(cs, |cs| - 1, a)
  {
    var front := cs[..|cs| - 1];
    forall j: nat, i: nat | j < |front|
      ensures FirstCall(cs, j, i, a) <==> FirstCall(front, j, i, a)
    {
      assert cs[j] == front[j] && forall k :: 0 <= k < j ==> cs[k] == front[k];
    }
    if SomeFirstCall(front, a) {
      var j: nat, i: nat :| FirstCall(front, j, i, a);
      assert FirstCall(cs, j, i, a);
    }
  }

  lemma {:induction false} LastSlots(hooks: seq<Hook>, calls: seq<HookCall>, a: string)
    requires AllCalled(hooks)
    ensures CleanedUp(HooksAfter(hooks, calls), a) <==>
      CleanedUp(hooks, a) || exists i :: |hooks| <= i < |calls| && calls[i] == UseAtom(a)
  {
    var r := HooksAfter(hooks, calls);
    forall i | 0 <= i < |r|
      ensures r[i].cleanup == if i < |hooks| then hooks[i].cleanup
                              else if calls[i].UseAtom? then Some(calls[i].name) else None
    {
    }
    if i :| 0 <= i < |hooks| && hooks[i].cleanup == Some(a) {
      assert r[i].cleanup == Some(a);
    }
    if i :| |hooks| <= i < |calls| && calls[i] == UseAtom(a) {
      assert r[i].cleanup == Some(a);
    }
  }

  lemma NeverCalled()
    ensures forall a :: !EverCalled([], a)
  {
  }

  lemma EverCalledStep(cs: seq<seq<HookCall>>, j: nat)
    requires j < |cs|
    ensures forall a :: EverCalled(cs[..j + 1], a) <==> EverCalled(cs[..j], a) || Calls(cs[j], a)
  {
    hide Calls;
    forall a
      ensures EverCalled(cs[..j + 1], a) <==> EverCalled(cs[..j], a) || Calls(cs[j], a)
    {
      if EverCalled(cs[..j], a) {
        var k :| 0 <= k < j && Calls(cs[..j][k], a);
        assert Calls(cs[..j + 1][k], a);
      }
      if Calls(cs[j], a) {
        assert Calls(cs[..j + 1][j], a);
      }
      if EverCalled(cs[..j + 1], a) && !Calls(cs[j], a) {
        var k :| 0 <= k < j + 1 && Calls(cs[..j + 1][k], a);
        assert Calls(cs[..j][k], a);
      }
    }
  }

  lemma CleanedUpStep(hooks: seq<Hook>, k: nat)
    requires k < |hooks|
    ensures forall a :: CleanedUp(hooks[..k + 1], a) <==> CleanedUp(hooks[..k], a) || hooks[k].cleanup == Some(a)
  {
    forall a
      ensures CleanedUp(hooks[..k + 1], a) <==> CleanedUp(hooks[..k], a) || hooks[k].cleanup == Some(a)
    {
      if CleanedUp(hooks[..k], a) {
        var i :| 0 <= i < k && hooks[..k][i].cleanup == Some(a);
        assert hooks[..k + 1][i].cleanup == Some(a);
      }
      if hooks[k].cleanup == Some(a) {
        assert hooks[..k + 1][k].cleanup == Some(a);
      }
    }
  }

  /** Unmounting undoes all registrations a component has ever made if and only if every atom it ever used was used by
      the first call on some slot. */
  lemma {:induction false} UnmountLeaksNothingIff(cs: seq<seq<HookCall>>)
    ensures (forall a :: EverCalled(cs, a) ==> CleanedUp(HooksOver(cs), a)) <==>
      forall a :: EverCalled(cs, a) ==> SomeFirstCall(cs, a)
  {
    forall a
      ensures CleanedUp(HooksOver(cs), a) <==> SomeFirstCall(cs, a)
    {
      CleanedUpIff(cs, a);
    }
  }

  /** A leak: the second of three renders uses another atom in the only slot. */
  lemma {:induction false} VaryingAtomLeaks(a: string, b: string)
    requires a != b
    ensures var cs := [[UseAtom(a)], [UseAtom(b)], [UseAtom(a)]];
      EverCalled(cs, b) && !CleanedUp(HooksOver(cs), b) && CleanedUp(HooksOver(cs), a)
  {
    var cs := [[UseAtom(a)], [UseAtom(b)], [UseAtom(a)]];
    assert cs[1][0] == UseAtom(b) && Calls(cs[1], b);
    CleanedUpIff(cs, a);
    CleanedUpIff(cs, b);
    assert FirstCall(cs, 0, 0, a);
    forall j: nat, i: nat
      ensures !FirstCall(cs, j, i, b)
    {
      assert |cs[0]| == 1;
    }
  }
}
