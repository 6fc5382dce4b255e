/** The publish/subscribe broker (pkg/wps/wps.go: subscriptions and the routes an event goes to). */
module Wps {
  import opened Slices
  import opened WpsTable

  /** BrokerSubscription: the indexes of one event. */
  class BrokerSubscription {
    var allSubs: seq<Route>
    var scopeSubs: ScopeMap
    var starSubs: ScopeMap

    constructor ()
      ensures View() == NOTHING
    {
      allSubs, scopeSubs, starSubs := [], map[], map[];
    }

    function View(): Subs
      reads this
    {
      Subs(allSubs, scopeSubs, starSubs)
    }

    /** IsEmpty */
    predicate IsEmpty()
      reads this
    {
      |allSubs| == 0 && |scopeSubs| == 0 && |starSubs| == 0
    }

    /** What unsubscribing does to the indexes of an event */
    method RemoveRoute(r: Route, ghost table: Table, ghost e: Event)
      requires Indexed(View(), table, e)
      modifies this
      ensures Indexed(View(), table - {(e, r)}, e)
    {
      ghost var was := View();
      allSubs := Remove(allSubs, r);
      scopeSubs := RemoveStrFromAll(scopeSubs, r);
      starSubs := RemoveStrFromAll(starSubs, r);
      hide Indexed, Remove;
      RemovedIndexed(was, table, e, r, View());
    }

    /** What subscribing adds to the indexes of an event that does not list the route yet */
    method AddRoute(r: Route, sub: Request, ghost table: Table)
      requires Indexed(View(), table, sub.event) && (sub.event, r) !in table
      modifies this
      ensures Indexed(View(), table[(sub.event, r) := sub], sub.event)
    {
      hide NoDups, Tidy, Lists, AddStr, HasStar;
      ghost var e := sub.event;
      ghost var table' := table[(e, r) := sub];
      assert forall q :: WantsAll(table', e, q) <==> WantsAll(table, e, q) || (q == r && sub.allScopes);
      assert forall q, s :: Wants(table', e, q, s) <==>
        Wants(table, e, q, s) || (q == r && !sub.allScopes && s in sub.scopes);
      if sub.allScopes {
        allSubs := AddUniq(allSubs, r);
        return;
      }
      ghost var was := View();
      for i := 0 to |sub.scopes|
        invariant allSubs == was.allSubs && Tidy(scopeSubs) && Tidy(starSubs)
        invariant forall s, q :: Lists(scopeSubs, s, q) <==>
                    Lists(was.scopeSubs, s, q) || (q == r && s in sub.scopes[..i] && !HasStar(s))
        invariant forall s, q :: Lists(starSubs, s, q) <==>
                    Lists(was.starSubs, s, q) || (q == r && s in sub.scopes[..i] && HasStar(s))
      {
        var scope := sub.scopes[i];
        assert sub.scopes[..i + 1] == sub.scopes[..i] + [scope];
        var starMatch := HasStar(scope);
        if starMatch {
          AddStrLists(starSubs, scope, r);
          starSubs := AddStr(starSubs, scope, r);
        } else {
          AddStrLists(scopeSubs, scope, r);
          scopeSubs := AddStr(scopeSubs, scope, r);
        }
      }
      assert sub.scopes[..|sub.scopes|] == sub.scopes;
    }
  }

  class Broker {
    var subMap: map<Event, BrokerSubscription>
    ghost var table: Table

    constructor ()
      ensures Valid() && table == map[] && subMap == map[]
    {
      subMap, table := map[], map[];
      new;
      assert forall e :: Indexed(NOTHING, map[], e);
    }

    ghost function Views(): map<Event, Subs>
      reads `subMap, subMap.Values
    {
      map e | e in subMap :: subMap[e].View()
    }

    /** The indexes together are the table, and no two events share theirs. */
    ghost predicate Valid()
      reads this, subMap.Values
    {
      AllIndexed(Views(), table) && Apart()
    }

    ghost predicate Apart()
      reads `subMap
    {
      forall d, e :: d in subMap && e in subMap && subMap[d] == subMap[e] ==> d == e
    }

    /** unsubscribe_nolock */
    method UnsubscribeNoLock(r: Route, e: Event)
      requires Valid()
      modifies this, subMap.Values
      ensures Valid() && old(subMap.Keys) - {e} <= subMap.Keys <= old(subMap.Keys) &&
        (forall d :: d in subMap ==> subMap[d] == old(subMap)[d])
      ensures table == old(table) - {(e, r)}
    {
      hide Indexed, AllIndexed;
      if e !in subMap {
        IndexedAt(Views(), table, e);
        NothingRemoved(table, e, r);
        ChangeOne(Views(), table, e, Views(), table - {(e, r)});
        table := table - {(e, r)};
        return;
      }
      var bs := subMap[e];
      RemoveFrom(bs, r, e);
      if bs.IsEmpty() {
        DropEmpty(e);
      }
    }

    method RemoveFrom(bs: BrokerSubscription, r: Route, e: Event)
      requires Valid() && e in subMap && subMap[e] == bs
      modifies `table, bs
      ensures Valid() && table == old(table) - {(e, r)}
    {
      hide Indexed, AllIndexed;
      ghost var was, views := table, Views();
      IndexedAt(views, was, e);
      bs.RemoveRoute(r, was, e);
      table := was - {(e, r)};
      ChangeOne(views, was, e, Views(), table);
    }

    method DropEmpty(e: Event)
      requires Valid() && e in subMap && subMap[e].View() == NOTHING
      modifies `subMap
      ensures Valid() && subMap == old(subMap) - {e}
    {
      hide Indexed, AllIndexed;
      ghost var views := Views();
      IndexedAt(views, table, e);
      subMap := subMap - {e};
      ChangeOne(views, table, e, Views(), table);
    }

    method Unsubscribe(r: Route, e: Event)
      requires Valid()
      modifies this, subMap.Values
      ensures Valid() && fresh(subMap.Values - old(subMap.Values)) && table == old(table) - {(e, r)}
    {
      UnsubscribeNoLock(r, e);
    }

    /** Subscribe replaces an earlier subscription to the same event. */
    method Subscribe(r: Route, sub: Request)
      requires Valid()
      modifies this, subMap.Values
      ensures Valid() && fresh(subMap.Values - old(subMap.Values))
      ensures table == if sub.event == "" then old(table) else old(table)[(sub.event, r) := sub]
    {
      hide Indexed, AllIndexed;
      if sub.event == "" {
        return;
      }
      var e := sub.event;
      UnsubscribeNoLock(r, e);
      var bs := SubscriptionFor(e);
      AddTo(bs, r, sub);
    }

    /** The indexes of an event, new ones if it has none */
    method SubscriptionFor(e: Event) returns (bs: BrokerSubscription)
      requires Valid()
      modifies `subMap
      ensures Valid() && e in subMap && subMap[e] == bs && fresh(subMap.Values - old(subMap.Values))
    {
      hide Indexed, AllIndexed;
      if e in subMap {
        return subMap[e];
      }
      ghost var views := Views();
      IndexedAt(views, table, e);
      bs := new BrokerSubscription();
      subMap := subMap[e := bs];
      ChangeOne(views, table, e, Views(), table);
    }

    method AddTo(bs: BrokerSubscription, r: Route, sub: Request)
      requires Valid() && sub.event in subMap && subMap[sub.event] == bs && (sub.event, r) !in table
      modifies `table, bs
      ensures Valid() && table == old(table)[(sub.event, r) := sub]
    {
      hide Indexed, AllIndexed;
      ghost var was, views := table, Views();
      IndexedAt(views, was, sub.event);
      bs.AddRoute(r, sub, was);
      table := was[(sub.event, r) := sub];
      ChangeOne(views, was, sub.event, Views(), table);
    }

    method UnsubscribeAll(r: Route)
      requires Valid()
      modifies this, subMap.Values
      ensures Valid() && fresh(subMap.Values - old(subMap.Values))
      ensures table == map k | k in old(table) && k.1 != r :: old(table)[k]
    {
      hide Indexed, AllIndexed;
      ghost var was := table;
      var todo := subMap.Keys;
      while todo != {}
        invariant Valid() && todo <= subMap.Keys <= old(subMap.Keys)
        invariant forall e :: e in subMap ==> subMap[e] == old(subMap)[e]
        invariant table.Keys <= was.Keys && forall k :: k in table ==> table[k] == was[k]
        invariant forall k: (Event, Route) :: k in was && k.1 != r ==> k in table
        invariant forall e :: (e, r) in table && e in old(subMap) ==> e in todo
        decreases todo
      {
        var e :| e in todo;
        UnsubscribeNoLock(r, e);
        todo := todo - {e};
      }
      ghost var left := table;
      table := map k | k in was && k.1 != r :: was[k];
      RestDropped(Views(), left, table, r);
    }

    /** getMatchingRouteIds: exactly the routes whose latest subscription covers the event, each once. */
    method GetMatchingRouteIds(e: Event, scopes: seq<Scope>) returns (rtn: seq<Route>)
      requires Valid()
      ensures NoDups(rtn) && forall r :: r in rtn <==> TableCovers(table, e, r, scopes)
    {
      hide Indexed, AllIndexed, Covers;
      IndexedAt(Views(), table, e);
      ghost var v := if e in subMap then subMap[e].View() else NOTHING;
      assert Indexed(v, table, e);
      if e !in subMap {
        CoversIsReached(v, table, e, scopes);
        return [];
      }
      var bs := subMap[e];
      var routeIds := AddAll({}, bs.allSubs);
      for i := 0 to |scopes|
        invariant forall r :: r in routeIds <==> r in v.allSubs || ReachesAny(v, scopes[..i], r)
      {
        ghost var was := routeIds;
        var scope := scopes[i];
        if scope in bs.scopeSubs {
          routeIds := AddAll(routeIds, bs.scopeSubs[scope]);
        }
        var todo := bs.starSubs.Keys;
        while todo != {}
          invariant todo <= bs.starSubs.Keys
          invariant forall r :: r in routeIds <==>
                      r in was || Lists(v.scopeSubs, scope, r) || StarsReach(v, v.starSubs.Keys - todo, scope, r)
          decreases todo
        {
          var starScope :| starScope in todo;
          var matched := StarMatchString(starScope, scope);
          if matched {
            routeIds := AddAll(routeIds, bs.starSubs[starScope]);
          }
          StarStep(v, v.starSubs.Keys - todo, starScope, scope);
          assert v.starSubs.Keys - (todo - {starScope}) == v.starSubs.Keys - todo + {starScope};
          todo := todo - {starScope};
        }
        ScopeStep(v, scopes, i);
      }
      assert scopes[..|scopes|] == scopes;
      CoversIsReached(v, table, e, scopes);
      rtn := InSomeOrder(routeIds);
    }
  }

  /** An event with this scope reaches route r through the indexes. */
  ghost predicate Reaches(v: Subs, scope: Scope, r: Route) {
    Lists(v.scopeSubs, scope, r) || StarsReach(v, v.starSubs.Keys, scope, r)
  }

  ghost predicate StarsReach(v: Subs, patterns: set<Scope>, scope: Scope, r: Route) {
    exists p :: p in patterns && Lists(v.starSubs, p, r) && Matches(p, scope)
  }

  ghost predicate ReachesAny(v: Subs, scopes: seq<Scope>, r: Route) {
    exists s :: s in scopes && Reaches(v, s, r)
  }

  lemma StarStep(v: Subs, patterns: set<Scope>, p: Scope, scope: Scope)
    ensures forall r :: StarsReach(v, patterns + {p}, scope, r) <==>
                  StarsReach(v, patterns, scope, r) || (Lists(v.starSubs, p, r) && Matches(p, scope))
  {
    hide Lists, Matches;
    forall r | Lists(v.starSubs, p, r) && Matches(p, scope)
      ensures StarsReach(v, patterns + {p}, scope, r)
    {
      assert p in patterns + {p};
    }
    forall r | StarsReach(v, patterns, scope, r)
      ensures StarsReach(v, patterns + {p}, scope, r)
    {
      var q :| q in patterns && Lists(v.starSubs, q, r) && Matches(q, scope);
      assert q in patterns + {p};
    }
  }

  lemma ScopeStep(v: Subs, scopes: seq<Scope>, i: nat)
    requires i < |scopes|
    ensures forall r :: ReachesAny(v, scopes[..i + 1], r) <==> ReachesAny(v, scopes[..i], r) || Reaches(v, scopes[i], r)
  {
    hide Reaches;
    assert scopes[..i + 1] == scopes[..i] + [scopes[i]];
    forall r | ReachesAny(v, scopes[..i], r) || Reaches(v, scopes[i], r)
      ensures ReachesAny(v, scopes[..i + 1], r)
    {
      if Reaches(v, scopes[i], r) {
        assert scopes[i] in scopes[..i + 1];
      } else {
        var s :| s in scopes[..i] && Reaches(v, s, r);
        assert s in scopes[..i + 1];
      }
    }
  }

  /** What the indexes reach is what the table covers. */
  lemma {:induction false} CoversIsReached(v: Subs, table: Table, e: Event, scopes: seq<Scope>)
    requires Indexed(v, table, e)
    ensures forall r :: TableCovers(table, e, r, scopes) <==> r in v.allSubs || ReachesAny(v, scopes, r)
  {
    hide Covers, Reaches;
    forall r
      ensures TableCovers(table, e, r, scopes) <==> r in v.allSubs || ReachesAny(v, scopes, r)
    {
      assert r in v.allSubs <==> WantsAll(table, e, r);
      if (e, r) in table && !table[(e, r)].allScopes {
        forall s | s in scopes
          ensures CoversScope(table[(e, r)], s) <==> Reaches(v, s, r)
        {
          ScopeIsReached(v, table, e, r, s);
        }
        CoversByScope(table[(e, r)], scopes);
      } else {
        forall s | s in scopes
          ensures !Reaches(v, s, r)
        {
          NotReached(v, table, e, r, s);
        }
        assert (e, r) in table ==> Covers(table[(e, r)], scopes) by { AllCovered(table, e, r, scopes); }
      }
    }
  }

  lemma CoversByScope(request: Request, scopes: seq<Scope>)
    requires !request.allScopes
    ensures Covers(request, scopes) <==> exists s :: s in scopes && CoversScope(request, s)
  {
  }

  lemma AllCovered(table: Table, e: Event, r: Route, scopes: seq<Scope>)
    ensures WantsAll(table, e, r) ==> Covers(table[(e, r)], scopes)
  {
  }

  lemma ScopeIsReached(v: Subs, table: Table, e: Event, r: Route, s: Scope)
    requires Indexed(v, table, e) && (e, r) in table && !table[(e, r)].allScopes
    ensures CoversScope(table[(e, r)], s) <==> Reaches(v, s, r)
  {
    hide Tidy, Matches, HasStar, NoDups;
    assert Lists(v.scopeSubs, s, r) <==> Wants(table, e, r, s) && !HasStar(s);
    forall p
      ensures Lists(v.starSubs, p, r) <==> p in table[(e, r)].scopes && HasStar(p)
    {
      assert Lists(v.starSubs, p, r) <==> Wants(table, e, r, p) && HasStar(p);
    }
    if StarsReach(v, v.starSubs.Keys, s, r) {
      var p :| p in v.starSubs.Keys && Lists(v.starSubs, p, r) && Matches(p, s);
      assert p in table[(e, r)].scopes;
    }
  }

  lemma NotReached(v: Subs, table: Table, e: Event, r: Route, s: Scope)
    requires Indexed(v, table, e) && ((e, r) in table ==> table[(e, r)].allScopes)
    ensures !Reaches(v, s, r)
  {
    hide Tidy, Matches, HasStar, NoDups;
    assert !Wants(table, e, r, s) && forall p :: !Wants(table, e, r, p);
  }

  method AddAll(routeIds: set<Route>, routes: seq<Route>) returns (r: set<Route>)
    ensures forall x :: x in r <==> x in routeIds || x in routes
  {
    r := routeIds;
    for i := 0 to |routes|
      invariant forall x :: x in r <==> x in routeIds || x in routes[..i]
    {
      assert routes[..i + 1] == routes[..i] + [routes[i]];
      r := r + {routes[i]};
    }
    assert routes[..|routes|] == routes;
  }

  /** Ranging over a Go map */
  method InSomeOrder(routeIds: set<Route>) returns (rtn: seq<Route>)
    ensures NoDups(rtn) && forall r :: r in rtn <==> r in routeIds
  {
    rtn := [];
    var todo := routeIds;
    while todo != {}
      invariant NoDups(rtn) && todo <= routeIds && forall r :: r in rtn <==> r in routeIds && r !in todo
      decreases todo
    {
      var r :| r in todo;
      rtn := rtn + [r];
      todo := todo - {r};
    }
  }

  function ViewOf(views: map<Event, Subs>, e: Event): Subs {
    if e in views then views[e] else NOTHING
  }

  ghost predicate AllIndexed(views: map<Event, Subs>, table: Table) {
    forall e :: Indexed(ViewOf(views, e), table, e)
  }

  lemma IndexedAt(views: map<Event, Subs>, table: Table, e: Event)
    requires AllIndexed(views, table)
    ensures Indexed(ViewOf(views, e), table, e)
  {
  }

  /** A change to the requests for one event and to its indexes leaves the others right. */
  lemma ChangeOne(views: map<Event, Subs>, table: Table, e: Event, views': map<Event, Subs>, table': Table)
    requires AllIndexed(views, table) && Indexed(ViewOf(views', e), table', e)
    requires forall k: (Event, Route) :: k.0 != e ==>
      ((k in table' <==> k in table) && (k in table ==> table'[k] == table[k]))
    requires forall d :: d != e ==> ViewOf(views', d) == ViewOf(views, d)
    ensures AllIndexed(views', table')
  {
    hide Indexed;
    forall d
      ensures Indexed(ViewOf(views', d), table', d)
    {
      if d != e {
        OtherEventIndexed(ViewOf(views, d), table, table', d);
      }
    }
  }

  /** Dropping the requests of a route for events that have no indexes. */
  lemma RestDropped(views: map<Event, Subs>, table: Table, table': Table, r: Route)
    requires AllIndexed(views, table)
    requires forall e :: (e, r) in table ==> ViewOf(views, e) == NOTHING
    requires forall k: (Event, Route) :: k in table' <==> k in table && k.1 != r
    requires forall k: (Event, Route) :: k in table' ==> table'[k] == table[k]
    ensures AllIndexed(views, table')
  {
    hide Indexed;
    forall e
      ensures Indexed(ViewOf(views, e), table', e)
    {
      if (e, r) in table {
        NothingRemoved(table, e, r);
        OtherEventIndexed(NOTHING, table - {(e, r)}, table', e);
      } else {
        OtherEventIndexed(ViewOf(views, e), table, table', e);
      }
    }
  }

  lemma NothingRemoved(table: Table, e: Event, r: Route)
    requires Indexed(NOTHING, table, e)
    ensures Indexed(NOTHING, table - {(e, r)}, e)
  {
    RemovedIndexed(NOTHING, table, e, r, NOTHING);
  }

  // ---------------------------------------------------------------- runs

  datatype Op = SubscribeOp(route: Route, request: Request) | UnsubscribeOp(route: Route, event: Event)
    | UnsubscribeAllOp(route: Route)

  /** The operation decides what route r gets of event e from then on. */
  predicate Decides(op: Op, e: Event, r: Route) {
    && op.route == r
    && match op
       case SubscribeOp(_, request) => request.event == e && e != ""
       case UnsubscribeOp(_, event) => event == e
       case UnsubscribeAllOp(_) => true
  }

  /** The last operation of the run that decides it, if there is one, is at index i. */
  ghost predicate IsLatest(ops: seq<Op>, i: nat, e: Event, r: Route) {
    i < |ops| && Decides(ops[i], e, r) && forall j :: i < j < |ops| ==> !Decides(ops[j], e, r)
  }

  /** The table holds, for every event and route, the request of the latest subscription that was not undone. */
  ghost predicate HoldsLatest(ops: seq<Op>, table: Table) {
    forall e, r :: HoldsLatestOf(ops, table, e, r)
  }

  ghost predicate HoldsLatestOf(ops: seq<Op>, table: Table, e: Event, r: Route) {
    && ((e, r) in table <==> exists i: nat :: IsLatest(ops, i, e, r) && ops[i].SubscribeOp?)
    && (forall i: nat :: IsLatest(ops, i, e, r) && ops[i].SubscribeOp? ==>
        (e, r) in table && table[(e, r)] == ops[i].request)
  }

  /** The latest operation that decides what route r gets of event e, at index i of the run, is a subscription that
      covers the scopes. */
  ghost predicate Subscribed(ops: seq<Op>, i: nat, e: Event, r: Route, scopes: seq<Scope>) {
    IsLatest(ops, i, e, r) && ops[i].SubscribeOp? && Covers(ops[i].request, scopes)
  }

  /** After any run on a new broker, an event goes to exactly the routes whose latest subscription covers it, each
      once. */
  method RunThenPublish(ops: seq<Op>, e: Event, scopes: seq<Scope>) returns (routes: seq<Route>)
    ensures NoDups(routes) && forall r :: r in routes <==> exists i: nat :: Subscribed(ops, i, e, r, scopes)
  {
    hide Covers, HoldsLatestOf, IsLatest;
    var b := new Broker();
    NothingYet();
    for n := 0 to |ops|
      invariant fresh(b) && fresh(b.subMap.Values) && b.Valid() && HoldsLatest(ops[..n], b.table)
    {
      ghost var was := b.table;
      match ops[n] {
        case SubscribeOp(route, request) => b.Subscribe(route, request);
        case UnsubscribeOp(route, event) => b.Unsubscribe(route, event);
        case UnsubscribeAllOp(route) => b.UnsubscribeAll(route);
      }
      assert ops[..n + 1] == ops[..n] + [ops[n]];
      LatestNext(ops[..n], was, ops[n], b.table);
    }
    assert ops[..|ops|] == ops;
    routes := b.GetMatchingRouteIds(e, scopes);
    LatestCovers(ops, b.table, e, scopes);
  }

  lemma LatestCovers(ops: seq<Op>, table: Table, e: Event, scopes: seq<Scope>)
    requires HoldsLatest(ops, table)
    ensures forall r :: TableCovers(table, e, r, scopes) <==> exists i: nat :: Subscribed(ops, i, e, r, scopes)
  {
    hide Covers;
    forall r
      ensures TableCovers(table, e, r, scopes) <==> exists i: nat :: Subscribed(ops, i, e, r, scopes)
    {
      assert HoldsLatestOf(ops, table, e, r);
      if TableCovers(table, e, r, scopes) {
        var i: nat :| IsLatest(ops, i, e, r) && ops[i].SubscribeOp?;
        assert Subscribed(ops, i, e, r, scopes);
      }
    }
  }

  lemma NothingYet()
    ensures HoldsLatest([], map[])
  {
    forall e, r
      ensures HoldsLatestOf([], map[], e, r)
    {
    }
  }

  ghost predicate Steps(table: Table, op: Op, table': Table) {
    match op
    case SubscribeOp(r, request) => table' == if request.event == "" then table
      else table[(request.event, r) := request]
    case UnsubscribeOp(r, e) => table' == table - {(e, r)}
    case UnsubscribeAllOp(r) => table' == map k | k in table && k.1 != r :: table[k]
  }

  lemma {:induction false} LatestNext(ops: seq<Op>, table: Table, op: Op, table': Table)
    requires HoldsLatest(ops, table) && Steps(table, op, table')
    ensures HoldsLatest(ops + [op], table')
  {
    forall e, r
      ensures HoldsLatestOf(ops + [op], table', e, r)
    {
      assert HoldsLatestOf(ops, table, e, r);
      LatestOfNext(ops, op, e, r);
      if Decides(op, e, r) {
        assert IsLatest(ops + [op], |ops|, e, r);
      } else {
        assert (e, r) in table' <==> (e, r) in table;
        if i: nat :| IsLatest(ops, i, e, r) && ops[i].SubscribeOp? {
          assert IsLatest(ops + [op], i, e, r);
        }
      }
    }
  }

  lemma LatestOfNext(ops: seq<Op>, op: Op, e: Event, r: Route)
    ensures forall i: nat :: IsLatest(ops + [op], i, e, r) <==>
      if Decides(op, e, r) then i == |ops| else IsLatest(ops, i, e, r)
  {
    hide Decides;
    var all := ops + [op];
    forall i: nat
      ensures IsLatest(all, i, e, r) <==> if Decides(op, e, r) then i == |ops| else IsLatest(ops, i, e, r)
    {
      assert all[|ops|] == op;
      if IsLatest(all, i, e, r) && i < |ops| {
        assert !Decides(all[|ops|], e, r);
        forall j | i < j < |ops|
          ensures !Decides(ops[j], e, r)
        {
          assert all[j] == ops[j];
        }
      }
    }
  }
}
