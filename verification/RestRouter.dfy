/** Route registration and dispatch: internal/restxml/router.go. */
module RestRouter {
  import opened Options
  import opened UriText
  import opened UriTemplate

  type Values = map<string, seq<string>>

  datatype Request = Request(
    verb: string, rawPath: string, path: string, query: Values, header: string -> string)

  datatype Route = Route(
    verb: string, path: string, query: map<string, string>,
    requiredHeaders: seq<string>, requiredQueries: seq<string>, forbiddenQueries: seq<string>,
    handler: nat, operation: string)

  datatype RouteOptions = RouteOptions(
    requiredHeaders: seq<string>, requiredQueries: seq<string>, forbiddenQueries: seq<string>)

  // ----- the query part of a template

  /** What follows the first '?', if there is one. */
  function AfterQuery(s: string): Option<string> {
    if s == [] then None else if s[0] == '?' then Some(s[1..]) else AfterQuery(s[1..])
  }

  /** One `key=value` or bare `key`; an empty piece says nothing. */
  function AddPair(q: map<string, string>, kv: string): map<string, string> {
    if kv == [] then q
    else
      var key := UpTo(kv, '=');
      if |key| < |kv| then q[key := kv[|key| + 1..]] else q[kv := []]
  }

  function AddPairs(q: map<string, string>, kvs: seq<string>): map<string, string>
    decreases |kvs|
  {
    if kvs == [] then q else AddPairs(AddPair(q, kvs[0]), kvs[1..])
  }

  function TemplateQuery(template: string): map<string, string> {
    match AfterQuery(template)
    case None => map[]
    case Some(rest) => AddPairs(map[], Split(rest, '&'))
  }

  method SplitTemplate(template: string) returns (path: string, query: map<string, string>)
    ensures path == UpTo(template, '?') && query == TemplateQuery(template)
  {
    hide Split;
    path := UpTo(template, '?');
    query := map[];
    var after := AfterQuery(template);
    if after.Some? {
      var kvs := Split(after.value, '&');
      var i := 0;
      while i < |kvs|
        invariant 0 <= i <= |kvs|
        invariant AddPairs(query, kvs[i..]) == AddPairs(map[], kvs)
      {
        assert kvs[i..][1..] == kvs[i + 1..];
        query := AddPair(query, kvs[i]);
        i := i + 1;
      }
    }
  }

  /** A printed key, with a value or bare; a bare key asks for presence only. */
  type Pair = (string, Option<string>)

  function PairText(p: Pair): string {
    if p.1.Some? then p.0 + "=" + p.1.value else p.0
  }

  function PairTexts(kvs: seq<Pair>): seq<string> {
    seq(|kvs|, i requires 0 <= i < |kvs| => PairText(kvs[i]))
  }

  function Wanted(p: Pair): string {
    if p.1.Some? then p.1.value else ""
  }

  ghost predicate PairOk(p: Pair) {
    '=' !in p.0 && '&' !in p.0 && (if p.1.Some? then '&' !in p.1.value else p.0 != [])
  }

  ghost predicate PairsOk(kvs: seq<Pair>) {
    forall i :: 0 <= i < |kvs| ==> PairOk(kvs[i])
  }

  /** The query map says of every key what the last of its pairs says. */
  ghost predicate LastWins(q: map<string, string>, kvs: seq<Pair>) {
    && (forall k :: k in q <==> exists i :: 0 <= i < |kvs| && kvs[i].0 == k)
    && forall i :: 0 <= i < |kvs| && (forall j :: i < j < |kvs| ==> kvs[j].0 != kvs[i].0) ==>
         kvs[i].0 in q && q[kvs[i].0] == Wanted(kvs[i])
  }

  lemma {:induction false} PairsReadBack(kvs: seq<Pair>)
    requires PairsOk(kvs)
    ensures LastWins(AddPairs(map[], PairTexts(kvs)), kvs)
  {
    hide LastWins, AddPairs, AddPair, PairText, Wanted, PairOk;
    if kvs == [] {
      NoPairs();
    } else {
      var n := |kvs| - 1;
      var front := kvs[..n];
      var q := AddPairs(map[], PairTexts(front));
      PairsReadBack(front);
      assert PairTexts(kvs) == PairTexts(front) + [PairText(kvs[n])];
      AddLast(map[], PairTexts(front), PairText(kvs[n]));
      PairAdded(q, kvs[n]);
      LastIsAdded(q, front, kvs[n]);
      assert front + [kvs[n]] == kvs;
    }
  }

  lemma NoPairs()
    ensures LastWins(AddPairs(map[], PairTexts([])), [])
  {
  }

  lemma LastIsAdded(q: map<string, string>, kvs: seq<Pair>, p: Pair)
    requires LastWins(q, kvs)
    ensures LastWins(q[p.0 := Wanted(p)], kvs + [p])
  {
    hide Wanted;
    var all, after := kvs + [p], q[p.0 := Wanted(p)];
    assert all[|kvs|] == p;
    forall k ensures k in after <==> exists i :: 0 <= i < |all| && all[i].0 == k {
      if k in q {
        var i :| 0 <= i < |kvs| && kvs[i].0 == k;
        assert all[i].0 == k;
      }
    }
    forall i | 0 <= i < |all| && (forall j :: i < j < |all| ==> all[j].0 != all[i].0)
      ensures all[i].0 in after && after[all[i].0] == Wanted(all[i])
    {
      if i < |kvs| {
        assert all[|kvs|].0 != all[i].0;
        assert forall j :: i < j < |kvs| ==> kvs[j] == all[j];
      }
    }
  }

  lemma {:induction false} AddLast(q: map<string, string>, kvs: seq<string>, kv: string)
    ensures AddPairs(q, kvs + [kv]) == AddPair(AddPairs(q, kvs), kv)
    decreases |kvs|
  {
    hide AddPair;
    if kvs == [] {
      assert ([] + [kv])[1..] == [];
    } else {
      assert (kvs + [kv])[1..] == kvs[1..] + [kv];
      AddLast(AddPair(q, kvs[0]), kvs[1..], kv);
    }
  }

  lemma PairAdded(q: map<string, string>, p: Pair)
    requires PairOk(p)
    ensures AddPair(q, PairText(p)) == q[p.0 := Wanted(p)]
  {
    hide UpTo;
    if p.1.Some? {
      UpToSeparator(p.0, p.1.value, '=');
      assert (p.0 + "=" + p.1.value)[|p.0| + 1..] == p.1.value;
    } else {
      UpToIs(p.0, '=');
    }
  }

  // ----- which routes a request matches

  predicate Present(q: Values, name: string) {
    name in q && q[name] != []
  }

  ghost predicate QueryMatches(q: Values, required: map<string, string>) {
    forall k :: k in required ==> Present(q, k) && (required[k] == [] || required[k] in q[k])
  }

  ghost predicate AllHeaders(header: string -> string, names: seq<string>) {
    forall i :: 0 <= i < |names| ==> header(names[i]) != []
  }

  ghost predicate AllPresent(q: Values, names: seq<string>) {
    forall i :: 0 <= i < |names| ==> Present(q, names[i])
  }

  ghost predicate AnyPresent(q: Values, names: seq<string>) {
    exists i :: 0 <= i < |names| && Present(q, names[i])
  }

  function MatchPath(req: Request): string {
    if req.rawPath != [] then req.rawPath else req.path
  }

  ghost predicate Matches(req: Request, r: Route) {
    && r.verb == req.verb
    && Matched(MatchPath(req), r.path).Some?
    && QueryMatches(req.query, r.query)
    && AllHeaders(req.header, r.requiredHeaders)
    && AllPresent(req.query, r.requiredQueries)
    && !AnyPresent(req.query, r.forbiddenQueries)
  }

  /** What a match is, in terms of the request alone: the verb, a path the template
      takes, every fixed query present (with its value, if it has one), every
      required header and query present, and no forbidden query. */
  lemma MatchMeans(req: Request, r: Route)
    ensures var present := set k | k in req.query && |req.query[k]| > 0;
      Matches(req, r) <==>
        && req.verb == r.verb
        && Matched(if |req.rawPath| > 0 then req.rawPath else req.path, r.path) != None
        && r.query.Keys <= present
        && (forall k :: k in r.query && r.query[k] != "" ==> k in req.query && r.query[k] in req.query[k])
        && (forall h :: h in r.requiredHeaders ==> req.header(h) != "")
        && (forall k :: k in r.requiredQueries ==> k in present)
        && (forall k :: k in r.forbiddenQueries ==> k !in present)
  {
    hide Matched;
    var q := req.query;
    var present := set k | k in q && |q[k]| > 0;
    assert forall k :: Present(q, k) <==> k in present;
    assert QueryMatches(q, r.query) <==>
      && r.query.Keys <= present
      && (forall k :: k in r.query && r.query[k] != "" ==> k in q && r.query[k] in q[k]);
    assert forall i :: 0 <= i < |r.requiredHeaders| ==> r.requiredHeaders[i] in r.requiredHeaders;
    assert forall i :: 0 <= i < |r.requiredQueries| ==> r.requiredQueries[i] in r.requiredQueries;
    assert forall i :: 0 <= i < |r.forbiddenQueries| ==> r.forbiddenQueries[i] in r.forbiddenQueries;
  }

  method CheckQuery(q: Values, required: map<string, string>) returns (ok: bool)
    ensures ok <==> QueryMatches(q, required)
  {
    var left := required.Keys;
    while left != {}
      invariant left <= required.Keys
      invariant forall k :: k in required && k !in left ==> Present(q, k) && (required[k] == [] || required[k] in q[k])
      decreases left
    {
      var k :| k in left;
      if k !in q || |q[k]| == 0 {
        assert !Present(q, k);
        return false;
      }
      var want := required[k];
      if want != [] {
        var matched := false;
        var i := 0;
        while i < |q[k]| && !matched
          invariant 0 <= i <= |q[k]|
          invariant matched ==> want in q[k]
          invariant !matched ==> want !in q[k][..i]
        {
          if q[k][i] == want {
            matched := true;
          }
          i := i + 1;
        }
        if !matched {
          assert q[k][..|q[k]|] == q[k];
          return false;
        }
      }
      left := left - {k};
    }
    return true;
  }

  method CheckHeaders(header: string -> string, names: seq<string>) returns (ok: bool)
    ensures ok <==> AllHeaders(header, names)
  {
    for i := 0 to |names|
      invariant forall j :: 0 <= j < i ==> header(names[j]) != []
    {
      if header(names[i]) == [] {
        return false;
      }
    }
    return true;
  }

  method CheckPresent(q: Values, names: seq<string>) returns (ok: bool)
    ensures ok <==> AllPresent(q, names)
  {
    for i := 0 to |names|
      invariant forall j :: 0 <= j < i ==> Present(q, names[j])
    {
      if !(names[i] in q && |q[names[i]]| > 0) {
        return false;
      }
    }
    return true;
  }

  method CheckAnyPresent(q: Values, names: seq<string>) returns (found: bool)
    ensures found <==> AnyPresent(q, names)
  {
    for i := 0 to |names|
      invariant forall j :: 0 <= j < i ==> !Present(q, names[j])
    {
      if names[i] in q && |q[names[i]]| > 0 {
        return true;
      }
    }
    return false;
  }

  method CheckRoute(req: Request, r: Route) returns (ok: bool)
    ensures ok <==> Matches(req, r)
  {
    hide Matched, QueryMatches, AllHeaders, AllPresent, AnyPresent;
    if r.verb != req.verb {
      return false;
    }
    var labels := MatchURI(MatchPath(req), r.path);
    if labels == None {
      return false;
    }
    ok := CheckQuery(req.query, r.query);
    if !ok {
      return;
    }
    ok := CheckHeaders(req.header, r.requiredHeaders);
    if !ok {
      return;
    }
    ok := CheckPresent(req.query, r.requiredQueries);
    if !ok {
      return;
    }
    var forbidden := CheckAnyPresent(req.query, r.forbiddenQueries);
    ok := !forbidden;
  }

  // ----- specificity and the stable sort

  function Specificity(r: Route): nat {
    |r.query| + |r.requiredHeaders| + |r.requiredQueries|
  }

  ghost predicate Descending(rs: seq<Route>) {
    forall i, j :: 0 <= i < j < |rs| ==> Specificity(rs[i]) >= Specificity(rs[j])
  }

  /** The routes of one specificity, in order. */
  ghost function OfSpecificity(rs: seq<Route>, n: nat): seq<Route> {
    if rs == [] then []
    else (if Specificity(rs[0]) == n then [rs[0]] else []) + OfSpecificity(rs[1..], n)
  }

  /** A stable rearrangement: routes of equal specificity keep their order. */
  ghost predicate StableArrangement(a: seq<Route>, b: seq<Route>) {
    forall n: nat :: OfSpecificity(a, n) == OfSpecificity(b, n)
  }

  /** Before the first route that is less specific. */
  function InsertStable(rs: seq<Route>, r: Route): seq<Route> {
    if rs == [] then [r]
    else if Specificity(rs[0]) < Specificity(r) then [r] + rs
    else [rs[0]] + InsertStable(rs[1..], r)
  }

  function StableSort(rs: seq<Route>): seq<Route> {
    if rs == [] then [] else InsertStable(StableSort(rs[..|rs| - 1]), rs[|rs| - 1])
  }

  lemma {:induction false} OfSpecificityAppend(a: seq<Route>, b: seq<Route>, n: nat)
    ensures OfSpecificity(a + b, n) == OfSpecificity(a, n) + OfSpecificity(b, n)
  {
    hide Specificity, OfSpecificity;
    if a == [] {
      NoRoutes(n);
      assert a + b == b;
    } else {
      OfSpecificityAppend(a[1..], b, n);
      ConsOfSpecificity(a[0], a[1..], n);
      ConsOfSpecificity(a[0], a[1..] + b, n);
      assert a == [a[0]] + a[1..] && a + b == [a[0]] + (a[1..] + b);
    }
  }

  /** Below the head of a descending list nothing is more specific. */
  lemma {:induction false} NothingOfHigher(rs: seq<Route>, n: nat)
    requires Descending(rs) && (rs != [] ==> Specificity(rs[0]) < n)
    ensures OfSpecificity(rs, n) == []
  {
    hide Specificity;
    if rs != [] {
      NothingOfHigher(rs[1..], n);
    }
  }

  lemma ConsOfSpecificity(r: Route, rest: seq<Route>, n: nat)
    ensures OfSpecificity([r] + rest, n) == (if Specificity(r) == n then [r] else []) + OfSpecificity(rest, n)
  {
    hide Specificity;
    assert ([r] + rest)[1..] == rest;
  }

  lemma ConsDescending(r: Route, rest: seq<Route>)
    ensures Descending([r] + rest) <==> Descending(rest) && forall x :: x in rest ==> Specificity(r) >= Specificity(x)
  {
    hide Specificity;
    var rs := [r] + rest;
    assert forall i :: 0 <= i < |rest| ==> rs[i + 1] == rest[i];
    if Descending(rs) {
      forall i, j | 0 <= i < j < |rest|
        ensures Specificity(rest[i]) >= Specificity(rest[j])
      {
        assert rest[i] == rs[i + 1] && rest[j] == rs[j + 1];
      }
      forall x | x in rest
        ensures Specificity(r) >= Specificity(x)
      {
        var i :| 0 <= i < |rest| && rest[i] == x;
        assert rs[0] == r && rs[i + 1] == x;
      }
    }
  }

  lemma {:induction false} InsertIsStable(rs: seq<Route>, r: Route, n: nat)
    requires Descending(rs)
    ensures Descending(InsertStable(rs, r))
    ensures OfSpecificity(InsertStable(rs, r), n)
         == OfSpecificity(rs, n) + (if Specificity(r) == n then [r] else [])
    ensures forall x :: x in InsertStable(rs, r) ==> x in rs || x == r
  {
    hide Specificity, Descending, OfSpecificity;
    if rs == [] {
      ConsDescending(r, []);
      ConsOfSpecificity(r, [], n);
      NoRoutes(n);
      assert [r] + [] == [r];
    } else {
      var t := InsertStable(rs[1..], r);
      assert rs == [rs[0]] + rs[1..];
      ConsDescending(rs[0], rs[1..]);
      if Specificity(rs[0]) < Specificity(r) {
        ConsDescending(r, rs);
        ConsOfSpecificity(r, rs, n);
        if Specificity(r) == n {
          NothingOfHigher(rs, n);
        }
      } else {
        InsertIsStable(rs[1..], r, n);
        ConsDescending(rs[0], t);
        ConsOfSpecificity(rs[0], t, n);
        ConsOfSpecificity(rs[0], rs[1..], n);
      }
    }
  }

  lemma NoRoutes(n: nat)
    ensures Descending([]) && OfSpecificity([], n) == []
  {
  }

  /** The sort orders by descending specificity and is stable. */
  lemma {:induction false} StableSortWorks(rs: seq<Route>)
    ensures Descending(StableSort(rs)) && StableArrangement(rs, StableSort(rs))
  {
    hide Specificity;
    if rs != [] {
      var front, r := rs[..|rs| - 1], rs[|rs| - 1];
      StableSortWorks(front);
      assert rs == front + [r];
      forall n: nat ensures OfSpecificity(rs, n) == OfSpecificity(StableSort(rs), n) {
        InsertIsStable(StableSort(front), r, n);
        OfSpecificityAppend(front, [r], n);
        OneOfSpecificity(r, n);
      }
      InsertIsStable(StableSort(front), r, 0);
    }
  }

  lemma OneOfSpecificity(r: Route, n: nat)
    ensures OfSpecificity([r], n) == if Specificity(r) == n then [r] else []
  {
    assert [r][1..] == [];
  }

  lemma ArrangementTwice(a: seq<Route>, b: seq<Route>, c: seq<Route>)
    requires StableArrangement(a, b) && StableArrangement(b, c)
    ensures StableArrangement(a, c)
  {
    hide OfSpecificity;
  }

  lemma ArrangementAppend(a: seq<Route>, b: seq<Route>, r: Route)
    requires StableArrangement(a, b)
    ensures StableArrangement(a + [r], b + [r])
  {
    hide OfSpecificity;
    forall n: nat ensures OfSpecificity(a + [r], n) == OfSpecificity(b + [r], n) {
      OfSpecificityAppend(a, [r], n);
      OfSpecificityAppend(b, [r], n);
    }
  }

  // ----- the sort-free specification

  /** The i-th registered route matches; every other match is less specific or
      equally specific and registered later. */
  ghost predicate IsBest(req: Request, registered: seq<Route>, i: nat) {
    && i < |registered|
    && Matches(req, registered[i])
    && forall j :: 0 <= j < |registered| && Matches(req, registered[j]) ==>
         || FewerConstraints(registered[j], registered[i])
         || (!FewerConstraints(registered[i], registered[j]) && i <= j)
  }

  /** Fixed query keys, headers and query names all count alike; what is forbidden
      does not count. */
  ghost predicate FewerConstraints(a: Route, b: Route) {
    |a.query| + |a.requiredHeaders| + |a.requiredQueries| < |b.query| + |b.requiredHeaders| + |b.requiredQueries|
  }

  /** One route asks for all that the other asks for, and for more. */
  ghost predicate AsksForMore(a: Route, b: Route) {
    && b.query.Keys <= a.query.Keys
    && multiset(b.requiredHeaders) <= multiset(a.requiredHeaders)
    && multiset(b.requiredQueries) <= multiset(a.requiredQueries)
    && (b.query.Keys != a.query.Keys || multiset(b.requiredHeaders) != multiset(a.requiredHeaders)
        || multiset(b.requiredQueries) != multiset(a.requiredQueries))
  }

  lemma AskingForMoreCounts(a: Route, b: Route)
    requires AsksForMore(a, b)
    ensures FewerConstraints(b, a)
  {
    assert |a.query| == |b.query.Keys| + |a.query.Keys - b.query.Keys| by {
      assert a.query.Keys == b.query.Keys + (a.query.Keys - b.query.Keys);
    }
    Fewer(b.requiredHeaders, a.requiredHeaders);
    Fewer(b.requiredQueries, a.requiredQueries);
    if b.query.Keys != a.query.Keys {
      assert a.query.Keys - b.query.Keys != {};
    }
  }

  lemma Fewer(b: seq<string>, a: seq<string>)
    requires multiset(b) <= multiset(a)
    ensures |b| <= |a| && (|b| == |a| ==> multiset(b) == multiset(a))
  {
    var d := multiset(a) - multiset(b);
    assert multiset(a) == multiset(b) + d;
    assert |multiset(a)| == |a| && |multiset(b)| == |b|;
    if |d| == 0 {
      assert d == multiset{};
    }
  }

  ghost predicate NoneMatches(req: Request, registered: seq<Route>) {
    forall i :: 0 <= i < |registered| ==> !Matches(req, registered[i])
  }

  /** The first match of a list. */
  ghost function FirstMatch(req: Request, rs: seq<Route>): Option<Route> {
    if rs == [] then None else if Matches(req, rs[0]) then Some(rs[0]) else FirstMatch(req, rs[1..])
  }

  ghost predicate FirstAt(req: Request, rs: seq<Route>, i: nat) {
    i < |rs| && Matches(req, rs[i]) && forall j :: 0 <= j < i ==> !Matches(req, rs[j])
  }

  ghost predicate FirstOfAt(req: Request, rs: seq<Route>, n: nat, i: nat) {
    && i < |rs| && Specificity(rs[i]) == n && Matches(req, rs[i])
    && forall j :: 0 <= j < i && Specificity(rs[j]) == n ==> !Matches(req, rs[j])
  }

  lemma {:induction false} FirstMatchFound(req: Request, rs: seq<Route>)
    ensures FirstMatch(req, rs) == None <==> NoneMatches(req, rs)
    ensures FirstMatch(req, rs).Some? ==> exists i: nat :: FirstAt(req, rs, i) && rs[i] == FirstMatch(req, rs).value
  {
    hide Matches;
    if rs != [] {
      FirstMatchFound(req, rs[1..]);
      assert forall i :: 0 < i < |rs| ==> rs[i] == rs[1..][i - 1];
      if Matches(req, rs[0]) {
        assert FirstAt(req, rs, 0);
      } else if FirstMatch(req, rs).Some? {
        var i: nat :| FirstAt(req, rs[1..], i) && rs[1..][i] == FirstMatch(req, rs).value;
        assert rs[i + 1] == rs[1..][i];
        forall j | 0 <= j < i + 1 ensures !Matches(req, rs[j]) {
          if j > 0 {
            assert rs[j] == rs[1..][j - 1];
          }
        }
        assert FirstAt(req, rs, i + 1);
      }
    }
  }

  /** Looking only at the routes of one specificity is looking for the first match
      that has it. */
  lemma {:induction false} FirstOfSpecificity(req: Request, rs: seq<Route>, n: nat)
    ensures var f := FirstMatch(req, OfSpecificity(rs, n));
      && (f == None <==> forall i :: 0 <= i < |rs| && Specificity(rs[i]) == n ==> !Matches(req, rs[i]))
      && (f.Some? ==> exists i: nat :: FirstOfAt(req, rs, n, i) && rs[i] == f.value)
  {
    hide Matches, Specificity;
    if rs != [] {
      FirstOfSpecificity(req, rs[1..], n);
      assert forall i :: 0 < i < |rs| ==> rs[i] == rs[1..][i - 1];
      var rest := OfSpecificity(rs[1..], n);
      if Specificity(rs[0]) == n {
        assert ([rs[0]] + rest)[1..] == rest;
      } else {
        assert OfSpecificity(rs, n) == rest;
      }
      var f := FirstMatch(req, OfSpecificity(rs, n));
      if Specificity(rs[0]) == n && Matches(req, rs[0]) {
        assert FirstOfAt(req, rs, n, 0);
      } else if f.Some? {
        var i: nat :| FirstOfAt(req, rs[1..], n, i) && rs[1..][i] == f.value;
        assert rs[i + 1] == rs[1..][i];
        forall j | 0 <= j < i + 1 && Specificity(rs[j]) == n ensures !Matches(req, rs[j]) {
          if j > 0 {
            assert rs[j] == rs[1..][j - 1];
          }
        }
        assert FirstOfAt(req, rs, n, i + 1);
      }
    }
  }

  /** The first match of the sorted table is the best match of what was
      registered, and there is one exactly when something matches. */
  lemma FirstIsBest(req: Request, registered: seq<Route>, routes: seq<Route>)
    requires StableArrangement(registered, routes) && Descending(routes)
    ensures FirstMatch(req, routes) == None <==> NoneMatches(req, registered)
    ensures FirstMatch(req, routes).Some? ==>
      exists i: nat :: IsBest(req, registered, i) && registered[i] == FirstMatch(req, routes).value
  {
    hide Matches, Specificity;
    FirstMatchFound(req, routes);
    var f := FirstMatch(req, routes);
    forall n: nat ensures FirstMatch(req, OfSpecificity(registered, n)) == FirstMatch(req, OfSpecificity(routes, n)) {
      assert OfSpecificity(registered, n) == OfSpecificity(routes, n);
    }
    if f == None {
      forall i | 0 <= i < |registered| ensures !Matches(req, registered[i]) {
        FirstOfSpecificity(req, registered, Specificity(registered[i]));
        FirstOfSpecificity(req, routes, Specificity(registered[i]));
      }
    } else {
      var p: nat :| FirstAt(req, routes, p) && routes[p] == f.value;
      BestFromFirst(req, registered, routes, p);
    }
  }

  /** What is more specific than the first match would have come before it. */
  lemma NoneMoreSpecific(req: Request, registered: seq<Route>, routes: seq<Route>, p: nat, j: nat)
    requires StableArrangement(registered, routes) && Descending(routes) && FirstAt(req, routes, p)
    requires j < |registered| && Matches(req, registered[j])
    ensures Specificity(registered[j]) <= Specificity(routes[p])
  {
    hide Matches, Specificity;
    var m := Specificity(registered[j]);
    assert OfSpecificity(registered, m) == OfSpecificity(routes, m);
    FirstOfSpecificity(req, registered, m);
    FirstOfSpecificity(req, routes, m);
  }

  lemma BestBySpecificity(req: Request, registered: seq<Route>, i: nat)
    requires i < |registered| && Matches(req, registered[i])
    requires forall j :: 0 <= j < |registered| && Matches(req, registered[j]) ==>
      || Specificity(registered[j]) < Specificity(registered[i])
      || (Specificity(registered[j]) == Specificity(registered[i]) && i <= j)
    ensures IsBest(req, registered, i)
  {
    hide Matches;
  }

  lemma BestFromFirst(req: Request, registered: seq<Route>, routes: seq<Route>, p: nat)
    requires StableArrangement(registered, routes) && Descending(routes)
    requires FirstAt(req, routes, p)
    ensures exists i: nat :: IsBest(req, registered, i) && registered[i] == routes[p]
    ensures !NoneMatches(req, registered)
  {
    hide Matches, Specificity, FewerConstraints, IsBest;
    var n := Specificity(routes[p]);
    assert OfSpecificity(registered, n) == OfSpecificity(routes, n);
    FirstOfSpecificity(req, routes, n);
    FirstOfSpecificity(req, registered, n);
    var f := FirstMatch(req, OfSpecificity(routes, n)).value;
    var q: nat :| FirstOfAt(req, routes, n, q) && routes[q] == f;
    assert q == p;
    var i: nat :| FirstOfAt(req, registered, n, i) && registered[i] == f;
    forall j | 0 <= j < |registered| && Matches(req, registered[j])
      ensures Specificity(registered[j]) < n || (Specificity(registered[j]) == n && i <= j)
    {
      if Specificity(registered[j]) != n {
        NoneMoreSpecific(req, registered, routes, p, j);
      }
    }
    BestBySpecificity(req, registered, i);
  }

  /** There is at most one best route. */
  lemma BestIsUnique(req: Request, registered: seq<Route>, i: nat, j: nat)
    requires IsBest(req, registered, i) && IsBest(req, registered, j)
    ensures i == j
  {
    hide Matches;
  }

  /** A match that asks for less than another match is not the best, wherever the
      two were registered. */
  lemma LessIsNotBest(req: Request, registered: seq<Route>, i: nat, less: nat, more: nat)
    requires IsBest(req, registered, i) && less < |registered| && more < |registered|
    requires Matches(req, registered[more]) && AsksForMore(registered[more], registered[less])
    ensures registered[i] != registered[less]
  {
    hide Matches, AsksForMore, FewerConstraints;
    AskingForMoreCounts(registered[more], registered[less]);
    if registered[i] == registered[less] {
      OneWay(registered[less], registered[more]);
    }
  }

  lemma NeverLess(req: Request, registered: seq<Route>, dispatched: Option<Route>)
    requires dispatched.Some? ==> exists i: nat :: IsBest(req, registered, i) && registered[i] == dispatched.value
    ensures forall less, more ::
      (0 <= less < |registered| && 0 <= more < |registered| && Matches(req, registered[more])
        && AsksForMore(registered[more], registered[less])) ==> dispatched != Some(registered[less])
  {
    hide Matches, AsksForMore, FewerConstraints;
    if dispatched.Some? {
      var i: nat :| IsBest(req, registered, i) && registered[i] == dispatched.value;
      forall less, more | 0 <= less < |registered| && 0 <= more < |registered| && Matches(req, registered[more])
        && AsksForMore(registered[more], registered[less])
        ensures registered[i] != registered[less]
      {
        LessIsNotBest(req, registered, i, less, more);
      }
    }
  }

  lemma OneWay(a: Route, b: Route)
    requires FewerConstraints(a, b)
    ensures !FewerConstraints(b, a)
  {
  }

  /** What is forbidden gives no precedence: as long as the same routes match, the
      best one does not depend on it. */
  lemma ForbiddenDoesNotCount(req: Request, registered: seq<Route>, others: seq<Route>, i: nat)
    requires |others| == |registered|
    requires forall j :: 0 <= j < |registered| ==>
      && others[j] == registered[j].(forbiddenQueries := others[j].forbiddenQueries)
      && (Matches(req, others[j]) <==> Matches(req, registered[j]))
    ensures IsBest(req, registered, i) <==> IsBest(req, others, i)
  {
    hide Matches;
    forall j, k | 0 <= j < |registered| && 0 <= k < |registered|
      ensures FewerConstraints(registered[j], registered[k]) <==> FewerConstraints(others[j], others[k])
    {
      assert others[j] == registered[j].(forbiddenQueries := others[j].forbiddenQueries);
      assert others[k] == registered[k].(forbiddenQueries := others[k].forbiddenQueries);
    }
  }

  // ----- the router

  /** The route of a registration: the template's path and query without x-id, and
      the predicates of all options in order. */
  function NewRoute(verb: string, template: string, operation: string, handler: nat, opts: seq<RouteOptions>): Route {
    Route(verb, UpTo(template, '?'), TemplateQuery(template) - {"x-id"},
          Collected(opts, (o: RouteOptions) => o.requiredHeaders),
          Collected(opts, (o: RouteOptions) => o.requiredQueries),
          Collected(opts, (o: RouteOptions) => o.forbiddenQueries), handler, operation)
  }

  /** The path of a printed template and its query, of which x-id is no part:
      with or without an x-id pair the route is the same. */
  lemma RouteOfTemplate(verb: string, path: string, kvs: seq<Pair>, operation: string, handler: nat, opts: seq<RouteOptions>)
    requires '?' !in path && PairsOk(kvs)
    ensures NewRoute(verb, path, operation, handler, opts).path == path
    ensures NewRoute(verb, path, operation, handler, opts).query == map[]
    ensures var r := NewRoute(verb, path + "?" + Join(PairTexts(kvs), '&'), operation, handler, opts);
      && r.verb == verb && r.path == path && r.operation == operation && r.handler == handler
      && (forall k :: k in r.query <==> k != "x-id" && exists i :: 0 <= i < |kvs| && kvs[i].0 == k)
      && (forall i :: 0 <= i < |kvs| && kvs[i].0 != "x-id" && (forall j :: i < j < |kvs| ==> kvs[j].0 != kvs[i].0) ==>
            r.query[kvs[i].0] == Wanted(kvs[i]))
  {
    hide UpTo, Split, PairText, Wanted, AddPairs, Join;
    UpToIs(path, '?');
    NoQuery(path);
    UpToSeparator(path, Join(PairTexts(kvs), '&'), '?');
    QueryBegins(path, Join(PairTexts(kvs), '&'));
    PairsReadBack(kvs);
    TextsSplit(kvs);
  }

  lemma TextsSplit(kvs: seq<Pair>)
    requires PairsOk(kvs)
    ensures AddPairs(map[], Split(Join(PairTexts(kvs), '&'), '&')) == AddPairs(map[], PairTexts(kvs))
  {
    hide AddPairs;
    if kvs == [] {
      NothingAdded();
    } else {
      var texts := PairTexts(kvs);
      var n := |kvs| - 1;
      assert forall i :: 0 <= i < |kvs| ==> PairOk(kvs[i]);
      SplitOfJoin(texts[..n], texts[n], '&');
      SplitNone(texts[n], '&');
      assert texts[..n] + [texts[n]] == texts;
    }
  }

  lemma NothingAdded()
    ensures AddPairs(map[], Split([], '&')) == map[] == AddPairs(map[], PairTexts([]))
  {
    assert [""][1..] == [];
  }

  lemma {:induction false} NoQuery(s: string)
    requires '?' !in s
    ensures AfterQuery(s) == None
  {
    if s != [] {
      NoQuery(s[1..]);
    }
  }

  lemma {:induction false} QueryBegins(path: string, query: string)
    requires '?' !in path
    ensures AfterQuery(path + "?" + query) == Some(query)
  {
    if path == [] {
      assert ([] + "?" + query)[1..] == query;
    } else {
      QueryBegins(path[1..], query);
      assert (path + "?" + query)[1..] == path[1..] + "?" + query;
    }
  }

  /** Options add up: each brings its headers, query names and forbidden names. */
  lemma OptionsAdd(verb: string, template: string, operation: string, handler: nat, opts: seq<RouteOptions>, o: RouteOptions)
    ensures var r, s := NewRoute(verb, template, operation, handler, []), NewRoute(verb, template, operation, handler, opts + [o]);
      var was := NewRoute(verb, template, operation, handler, opts);
      && r.requiredHeaders == [] && r.requiredQueries == [] && r.forbiddenQueries == []
      && s.requiredHeaders == was.requiredHeaders + o.requiredHeaders
      && s.requiredQueries == was.requiredQueries + o.requiredQueries
      && s.forbiddenQueries == was.forbiddenQueries + o.forbiddenQueries
      && s == was.(requiredHeaders := s.requiredHeaders, requiredQueries := s.requiredQueries,
                   forbiddenQueries := s.forbiddenQueries)
  {
    hide TemplateQuery;
    assert (opts + [o])[..|opts|] == opts;
  }

  class Router {
    var routes: seq<Route>
    var dirty: bool
    /** Everything registered so far, in order. */
    ghost var registered: seq<Route>

    ghost predicate Valid()
      reads this
    {
      StableArrangement(registered, routes) && (!dirty ==> Descending(routes))
    }

    constructor ()
      ensures Valid() && registered == []
    {
      routes, dirty, registered := [], false, [];
    }

    method Register(verb: string, template: string, operation: string, handler: nat, opts: seq<RouteOptions>)
      requires Valid()
      modifies this
      ensures Valid()
      ensures registered == old(registered) + [NewRoute(verb, template, operation, handler, opts)]
    {
      hide StableArrangement, Descending, TemplateQuery;
      var path, query := SplitTemplate(template);
      query := query - {"x-id"};
      var headers, queries, forbidden := Gather(opts);
      var r := Route(verb, path, query, headers, queries, forbidden, handler, operation);
      ArrangementAppend(registered, routes, r);
      routes := routes + [r];
      registered := registered + [r];
      dirty := true;
    }

    /** Dispatches the best match of everything registered, and nothing exactly
        when nothing matches; re-sorting changes no answer. */
    method ServeHTTP(req: Request) returns (dispatched: Option<Route>)
      requires Valid()
      modifies this`routes, this`dirty
      ensures Valid()
      ensures dispatched == None <==> NoneMatches(req, registered)
      ensures dispatched.Some? ==> exists i: nat :: IsBest(req, registered, i) && registered[i] == dispatched.value
      ensures forall less, more ::
        (0 <= less < |registered| && 0 <= more < |registered| && Matches(req, registered[more])
          && AsksForMore(registered[more], registered[less])) ==> dispatched != Some(registered[less])
    {
      hide StableArrangement, Descending, Matches, IsBest, NoneMatches, AsksForMore;
      if dirty {
        StableSortWorks(routes);
        ArrangementTwice(registered, routes, StableSort(routes));
        routes := StableSort(routes);
        dirty := false;
      }
      FirstIsBest(req, registered, routes);
      NeverLess(req, registered, FirstMatch(req, routes));
      ghost var table := routes;
      var i := 0;
      while i < |routes|
        invariant 0 <= i <= |routes|
        invariant routes == table && !dirty && Valid()
        invariant FirstMatch(req, routes) == FirstMatch(req, routes[i..])
      {
        assert routes[i..][1..] == routes[i + 1..];
        var ok := CheckRoute(req, routes[i]);
        if ok {
          return Some(routes[i]);
        }
        i := i + 1;
      }
      return None;
    }
  }

  function Collected(opts: seq<RouteOptions>, f: RouteOptions -> seq<string>): seq<string> {
    if opts == [] then [] else Collected(opts[..|opts| - 1], f) + f(opts[|opts| - 1])
  }

  method Gather(opts: seq<RouteOptions>) returns (headers: seq<string>, queries: seq<string>, forbidden: seq<string>)
    ensures headers == Collected(opts, (o: RouteOptions) => o.requiredHeaders)
    ensures queries == Collected(opts, (o: RouteOptions) => o.requiredQueries)
    ensures forbidden == Collected(opts, (o: RouteOptions) => o.forbiddenQueries)
  {
    headers, queries, forbidden := [], [], [];
    for i := 0 to |opts|
      invariant headers == Collected(opts[..i], (o: RouteOptions) => o.requiredHeaders)
      invariant queries == Collected(opts[..i], (o: RouteOptions) => o.requiredQueries)
      invariant forbidden == Collected(opts[..i], (o: RouteOptions) => o.forbiddenQueries)
    {
      assert opts[..i + 1][..i] == opts[..i];
      headers := headers + opts[i].requiredHeaders;
      queries := queries + opts[i].requiredQueries;
      forbidden := forbidden + opts[i].forbiddenQueries;
    }
    assert opts[..|opts|] == opts;
  }
}
