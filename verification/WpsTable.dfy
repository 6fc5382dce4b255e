/** The subscriptions of a broker as one table, and how its indexes stand for it (pkg/wps/wps.go). */
module WpsTable {
  import opened Slices

  type Event = string

  type Route = string

  /** A scope, split at its colons. */
  type Scope = seq<string>

  datatype Request = Request(event: Event, scopes: seq<Scope>, allScopes: bool)

  /** scopeHasStarMatch */
  predicate HasStar(scope: Scope) {
    "*" in scope || "**" in scope
  }

  /** The latest request of every route for every event. */
  type Table = map<(Event, Route), Request>

  predicate WantsAll(table: Table, e: Event, r: Route) {
    (e, r) in table && table[(e, r)].allScopes
  }

  predicate Wants(table: Table, e: Event, r: Route, scope: Scope) {
    (e, r) in table && !table[(e, r)].allScopes && scope in table[(e, r)].scopes
  }

  // ---------------------------------------------------------------- star scopes

  /** A pattern matches a scope part by part; a "*" matches any part, and a "**" at the end any rest. */
  predicate Matches(pattern: Scope, s: Scope) {
    if pattern == [] then s == []
    else if pattern[0] == "**" then |pattern| == 1
    else s != [] && (pattern[0] == "*" || pattern[0] == s[0]) && Matches(pattern[1..], s[1..])
  }

  /** utilfn.StarMatchString, on split strings */
  method StarMatchString(patternParts: Scope, stringParts: Scope) returns (r: bool)
    ensures r == Matches(patternParts, stringParts)
  {
    var pLen, sLen := |patternParts|, |stringParts|;
    for i := 0 to pLen
      invariant i <= sLen && Matches(patternParts, stringParts) == Matches(patternParts[i..], stringParts[i..])
    {
      if patternParts[i] == "**" {
        return i == pLen - 1;
      }
      if i >= sLen {
        return false;
      }
      if patternParts[i] != "*" && patternParts[i] != stringParts[i] {
        return false;
      }
    }
    return pLen == sLen;
  }

  /** What a star pattern matches, without recursion: a "**" must be its last part and stands for any rest. */
  lemma {:induction false} MatchesMeaning(pattern: Scope, s: Scope)
    ensures Matches(pattern, s) <==>
              if "**" in pattern
              then |pattern| - 1 <= |s| && pattern[|pattern| - 1] == "**" &&
                PartsMatch(pattern[..|pattern| - 1], s[..|pattern| - 1])
              else |pattern| == |s| && PartsMatch(pattern, s)
  {
    if pattern != [] {
      assert "**" in pattern <==> pattern[0] == "**" || "**" in pattern[1..];
      if pattern[0] == "**" {
        if |pattern| > 1 {
          assert pattern[..|pattern| - 1][0] == "**";
        }
      } else if s != [] {
        MatchesMeaning(pattern[1..], s[1..]);
        var n := |pattern| - 1;
        PartsMatchStep(pattern, s);
        if "**" in pattern[1..] && n <= |s| {
          PartsMatchStep(pattern[..n], s[..n]);
          assert pattern[..n][1..] == pattern[1..][..n - 1] && s[..n][1..] == s[1..][..n - 1];
        }
      }
    }
  }

  predicate PartsMatch(pattern: Scope, s: Scope) {
    |pattern| == |s| && forall i :: 0 <= i < |s| ==> PartMatches(pattern[i], s[i])
  }

  predicate PartMatches(p: string, x: string) {
    p != "**" && (p == "*" || p == x)
  }

  lemma PartsMatchStep(pattern: Scope, s: Scope)
    requires pattern != [] && s != []
    ensures PartsMatch(pattern, s) <==> PartMatches(pattern[0], s[0]) && PartsMatch(pattern[1..], s[1..])
  {
    if PartMatches(pattern[0], s[0]) && PartsMatch(pattern[1..], s[1..]) {
      forall i | 0 <= i < |s|
        ensures PartMatches(pattern[i], s[i])
      {
        if i > 0 {
          assert PartMatches(pattern[1..][i - 1], s[1..][i - 1]);
        }
      }
    }
  }

  // ---------------------------------------------------------------- what an event reaches

  /** A request covers the scopes of an event: all there are, one of them by name, or one of them by a star. */
  ghost predicate Covers(request: Request, scopes: seq<Scope>) {
    request.allScopes || exists s :: s in scopes && CoversScope(request, s)
  }

  ghost predicate CoversScope(request: Request, scope: Scope) {
    || (scope in request.scopes && !HasStar(scope))
    || exists p :: p in request.scopes && HasStar(p) && Matches(p, scope)
  }

  /** Covering is matching: the two indexes do not differ in what they let through. */
  lemma CoversIsMatching(request: Request, scope: Scope)
    ensures CoversScope(request, scope) <==> exists p :: p in request.scopes && Matches(p, scope)
  {
    forall p | !HasStar(p)
      ensures Matches(p, scope) <==> p == scope
    {
      NoStarIsEqual(p, scope);
    }
  }

  lemma {:induction false} NoStarIsEqual(p: Scope, s: Scope)
    requires "*" !in p && "**" !in p
    ensures Matches(p, s) <==> p == s
  {
    if p != [] && s != [] {
      NoStarIsEqual(p[1..], s[1..]);
      assert p == [p[0]] + p[1..] && s == [s[0]] + s[1..];
      assert p[0] in p;
    }
  }

  /** The request in the table of route r for event e covers the scopes. */
  ghost predicate TableCovers(table: Table, e: Event, r: Route, scopes: seq<Scope>) {
    (e, r) in table && Covers(table[(e, r)], scopes)
  }

  // ---------------------------------------------------------------- the indexes of one event

  type ScopeMap = map<Scope, seq<Route>>

  datatype Subs = Subs(allSubs: seq<Route>, scopeSubs: ScopeMap, starSubs: ScopeMap)

  predicate Lists(m: ScopeMap, scope: Scope, r: Route) {
    scope in m && r in m[scope]
  }

  /** No route twice under a scope, and no scope without routes. */
  predicate Tidy(m: ScopeMap) {
    forall scope :: scope in m ==> NoDups(m[scope]) && m[scope] != []
  }

  /** Under every scope the map lists the routes that want it, if it is the right map for the scope. */
  ghost predicate IndexOf(m: ScopeMap, table: Table, e: Event, star: bool) {
    Tidy(m) && forall scope, r :: Lists(m, scope, r) <==> Wants(table, e, r, scope) && HasStar(scope) == star
  }

  ghost predicate Indexed(v: Subs, table: Table, e: Event) {
    && NoDups(v.allSubs) && (forall r :: r in v.allSubs <==> WantsAll(table, e, r))
    && IndexOf(v.scopeSubs, table, e, false) && IndexOf(v.starSubs, table, e, true)
  }

  const NOTHING := Subs([], map[], map[])

  // ---------------------------------------------------------------- maps of scopes

  /** removeStrFromScopeMap */
  function RemoveStr(m: ScopeMap, scope: Scope, r: Route): ScopeMap {
    var subs := Remove(if scope in m then m[scope] else [], r);
    if subs == [] then m - {scope} else m[scope := subs]
  }

  /** addStrToScopeMap */
  function AddStr(m: ScopeMap, scope: Scope, r: Route): ScopeMap {
    m[scope := AddUniq(if scope in m then m[scope] else [], r)]
  }

  /** m' is m without a route. */
  ghost predicate WithoutRoute(m: ScopeMap, r: Route, m': ScopeMap) {
    Tidy(m') && forall scope, q :: Lists(m', scope, q) <==> Lists(m, scope, q) && q != r
  }

  /** The loop that removes a route under every scope */
  method RemoveStrFromAll(m: ScopeMap, r: Route) returns (m': ScopeMap)
    requires Tidy(m)
    ensures WithoutRoute(m, r, m')
  {
    hide NoDups, Remove;
    m' := m;
    var todo := m.Keys;
    while todo != {}
      invariant todo <= m'.Keys && m'.Keys <= m.Keys && Tidy(m')
      invariant forall scope :: scope in todo ==> m'[scope] == m[scope]
      invariant forall scope, q :: scope !in todo ==> (Lists(m', scope, q) <==> Lists(m, scope, q) && q != r)
      decreases todo
    {
      var scope :| scope in todo;
      RemoveFromSet(m[scope], r);
      m' := RemoveStr(m', scope, r);
      todo := todo - {scope};
    }
  }

  lemma AddStrLists(m: ScopeMap, scope: Scope, r: Route)
    requires Tidy(m)
    ensures Tidy(AddStr(m, scope, r))
    ensures forall s, q :: Lists(AddStr(m, scope, r), s, q) <==> Lists(m, s, q) || (s == scope && q == r)
  {
    hide NoDups, AddUniq;
    NoDupsEmpty();
    var was := if scope in m then m[scope] else [];
    assert NoDups(was) && r in AddUniq(was, r);
  }

  lemma NoDupsEmpty()
    ensures NoDups<Route>([])
  {
  }

  /** A route's request for the event is gone from the table when it is gone from the indexes. */
  lemma {:induction false} RemovedIndexed(v: Subs, table: Table, e: Event, r: Route, v': Subs)
    requires Indexed(v, table, e)
    requires v'.allSubs == Remove(v.allSubs, r) && WithoutRoute(v.scopeSubs, r, v'.scopeSubs) &&
      WithoutRoute(v.starSubs, r, v'.starSubs)
    ensures Indexed(v', table - {(e, r)}, e)
  {
    hide NoDups, Tidy, Lists;
    RemoveFromSet(v.allSubs, r);
    forall q
      ensures WantsAll(table - {(e, r)}, e, q) <==> WantsAll(table, e, q) && q != r
    {
    }
    forall q, scope
      ensures Wants(table - {(e, r)}, e, q, scope) <==> Wants(table, e, q, scope) && q != r
    {
    }
  }

  /** Only the requests for an event matter to its indexes. */
  lemma OtherEventIndexed(v: Subs, table: Table, table': Table, e: Event)
    requires Indexed(v, table, e)
    requires forall r ::
      ((e, r) in table' <==> (e, r) in table) && ((e, r) in table ==> table'[(e, r)] == table[(e, r)])
    ensures Indexed(v, table', e)
  {
    hide NoDups, Tidy, Lists;
    forall q
      ensures WantsAll(table', e, q) <==> WantsAll(table, e, q)
    {
    }
    forall q, scope
      ensures Wants(table', e, q, scope) <==> Wants(table, e, q, scope)
    {
    }
  }
}
