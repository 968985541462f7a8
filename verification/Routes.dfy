/**
 The check on published gateway routes: one pass over the list with four lookup tables. Letters are
 upper-cased as ASCII.
 */
module Routes {
  import opened Wrappers
  import opened Text

  const ANY := "ANY"

  datatype Route = Route(id: string, httpMethod: string, path: string)

  function NormalizedMethod(method_: string): string {
    var m := Upper(TrimSpace(method_));
    if m == "*" then ANY else m
  }

  function Id(r: Route): string {
    TrimSpace(r.id)
  }

  function Verb(r: Route): string {
    NormalizedMethod(r.httpMethod)
  }

  function PathOf(r: Route): string {
    TrimSpace(r.path)
  }

  /** The key under which the check remembers a route. */
  function HttpKey(r: Route): string {
    Verb(r) + " " + PathOf(r)
  }

  // ---------------------------------------------------------------- what must not happen

  /** Two routes answer a common request: same path, and the same method or either takes any. */
  predicate Overlap(a: Route, b: Route) {
    PathOf(a) == PathOf(b) && (Verb(a) == Verb(b) || Verb(a) == ANY || Verb(b) == ANY)
  }

  /** What the check itself rejects: overlapping routes, and any two with the same key. */
  predicate Clash(a: Route, b: Route) {
    HttpKey(a) == HttpKey(b) || Overlap(a, b)
  }

  predicate Compatible(a: Route, b: Route) {
    Id(a) != Id(b) && !Clash(a, b)
  }

  predicate Accepted(routes: seq<Route>) {
    forall i, j | 0 <= i < j < |routes| :: Compatible(routes[i], routes[j])
  }

  /** What the check is meant to accept. */
  predicate Unambiguous(routes: seq<Route>) {
    forall i, j | 0 <= i < j < |routes| :: Id(routes[i]) != Id(routes[j]) && !Overlap(routes[i], routes[j])
  }

  // ---------------------------------------------------------------- the check

  datatype Rejection = DuplicateId(id: string) | Conflict(id: string, existing: string, key: string)

  /** The rejection names a route and, for a conflict, an earlier one that it clashes with. */
  predicate Explains(routes: seq<Route>, j: nat, e: Rejection)
    requires j < |routes|
  {
    match e
    case DuplicateId(id) => id == Id(routes[j]) && exists i | 0 <= i < j :: Id(routes[i]) == id
    case Conflict(id, existing, key) =>
      && id == routes[j].id && key == HttpKey(routes[j])
      && (forall i | 0 <= i < j :: Id(routes[i]) != Id(routes[j]))
      && exists i | 0 <= i < j :: routes[i].id == existing && Clash(routes[i], routes[j])
  }

  /** The three tables: all routes by key, and by path those that take any method and those that do not. */
  datatype Table = ByKey | AnyByPath | OtherByPath

  predicate Uses(t: Table, r: Route) {
    t.ByKey? || (t.AnyByPath? <==> Verb(r) == ANY)
  }

  function KeyIn(t: Table, r: Route): string {
    if t.ByKey? then HttpKey(r) else PathOf(r)
  }

  /** The earlier route `i` is entered in table `t` under `k`. */
  predicate Entered(routes: seq<Route>, t: Table, i: nat, k: string)
    requires i < |routes|
  {
    Uses(t, routes[i]) && KeyIn(t, routes[i]) == k
  }

  /** `entries` has exactly the keys of the first `n` routes that the table is for, each with an id of one of them. */
  ghost predicate Remembers(routes: seq<Route>, n: nat, t: Table, entries: map<string, string>)
    requires n <= |routes|
  {
    && (forall i: nat | i < n && Uses(t, routes[i]) :: KeyIn(t, routes[i]) in entries)
    && (forall k | k in entries :: exists i: nat | i < n :: Entered(routes, t, i, k) && routes[i].id == entries[k])
  }

  lemma RemembersMore(routes: seq<Route>, n: nat, t: Table, entries: map<string, string>)
    requires n < |routes| && Remembers(routes, n, t, entries)
    ensures !Uses(t, routes[n]) || KeyIn(t, routes[n]) in entries ==> Remembers(routes, n + 1, t, entries)
    ensures Uses(t, routes[n]) ==> Remembers(routes, n + 1, t, entries[KeyIn(t, routes[n]) := routes[n].id])
  {
    hide Uses, KeyIn;
    var next := entries[KeyIn(t, routes[n]) := routes[n].id];
    forall k | k in entries
      ensures exists i: nat | i < n + 1 :: Entered(routes, t, i, k) && routes[i].id == entries[k]
    {
      var i: nat :| i < n && Entered(routes, t, i, k) && routes[i].id == entries[k];
      assert i < n + 1;
    }
    if Uses(t, routes[n]) {
      forall k | k in next
        ensures exists i: nat | i < n + 1 :: Entered(routes, t, i, k) && routes[i].id == next[k]
      {
        if k == KeyIn(t, routes[n]) {
          assert Entered(routes, t, n, k);
        } else {
          var i: nat :| i < n && Entered(routes, t, i, k) && routes[i].id == entries[k];
          assert i < n + 1;
        }
      }
    }
  }

  /** Two entries under one key clash when the tables are right for each other. */
  lemma EnteredClashes(routes: seq<Route>, n: nat, t: Table, i: nat)
    requires i < n < |routes| && Entered(routes, t, i, KeyIn(t, routes[n]))
    requires t.OtherByPath? ==> Verb(routes[n]) == ANY
    ensures Clash(routes[i], routes[n])
  {
    hide TrimSpace, NormalizedMethod;
  }

  /** A clash with an earlier route shows in one of the tables. */
  lemma ClashEntered(routes: seq<Route>, n: nat, i: nat)
    requires i < n < |routes| && Clash(routes[i], routes[n])
    ensures
      var r := routes[n];
      || Entered(routes, ByKey, i, HttpKey(r)) || Entered(routes, AnyByPath, i, PathOf(r))
      || (Verb(r) == ANY && Entered(routes, OtherByPath, i, PathOf(r)))
  {
    hide TrimSpace, NormalizedMethod;
    SameKey(routes[i], routes[n]);
  }

  lemma FoundIn(routes: seq<Route>, n: nat, t: Table, entries: map<string, string>)
    requires n < |routes| && Remembers(routes, n, t, entries) && KeyIn(t, routes[n]) in entries
    requires t.OtherByPath? ==> Verb(routes[n]) == ANY
    ensures exists i | 0 <= i < n :: Clash(routes[i], routes[n]) && routes[i].id == entries[KeyIn(t, routes[n])]
  {
    hide Clash, KeyIn, Entered;
    var k := KeyIn(t, routes[n]);
    var i: nat :| i < n && Entered(routes, t, i, k) && routes[i].id == entries[k];
    EnteredClashes(routes, n, t, i);
  }

  lemma NotFound(routes: seq<Route>, n: nat, http: map<string, string>, any: map<string, string>, other: map<string, string>)
    requires n < |routes|
    requires Remembers(routes, n, ByKey, http) && Remembers(routes, n, AnyByPath, any)
    requires Remembers(routes, n, OtherByPath, other)
    requires HttpKey(routes[n]) !in http && PathOf(routes[n]) !in any
    requires Verb(routes[n]) != ANY || PathOf(routes[n]) !in other
    ensures forall i | 0 <= i < n :: !Clash(routes[i], routes[n])
  {
    hide Clash, HttpKey, PathOf, Verb;
    forall i | 0 <= i < n ensures !Clash(routes[i], routes[n]) {
      if Clash(routes[i], routes[n]) {
        ClashEntered(routes, n, i);
      }
    }
  }

  lemma SameKey(a: Route, b: Route)
    ensures Verb(a) == Verb(b) && PathOf(a) == PathOf(b) ==> HttpKey(a) == HttpKey(b)
  {
  }

  /** validatePublishedRoutes: accepts exactly the lists without an incompatible pair, and explains a rejection. */
  method ValidatePublishedRoutes(routes: seq<Route>) returns (rejected: Option<Rejection>, ghost at: nat)
    ensures rejected.None? <==> Accepted(routes)
    ensures rejected.Some? ==> at < |routes| && Explains(routes, at, rejected.value) && Accepted(routes[..at])
  {
    hide Remembers, Clash, HttpKey, Id, PathOf, Verb;
    var ids: set<string> := {};
    var http: map<string, string>, any: map<string, string>, concrete: map<string, string> := map[], map[], map[];
    at := 0;
    NothingRemembered(routes);
    var j := 0;
    while j < |routes|
      invariant 0 <= j <= |routes|
      invariant Accepted(routes[..j])
      invariant forall id :: id in ids <==> exists i | 0 <= i < j :: Id(routes[i]) == id
      invariant Remembers(routes, j, ByKey, http)
      invariant Remembers(routes, j, AnyByPath, any)
      invariant Remembers(routes, j, OtherByPath, concrete)
    {
      var route := routes[j];
      at := j;
      NotAccepted(routes, j);
      var id := Id(route);
      if id in ids {
        return Some(DuplicateId(id)), at;
      }
      var path, key := PathOf(route), HttpKey(route);
      if key in http {
        FoundIn(routes, j, ByKey, http);
        return Some(Conflict(route.id, http[key], key)), at;
      }
      if path in any {
        FoundIn(routes, j, AnyByPath, any);
        return Some(Conflict(route.id, any[path], key)), at;
      }
      if Verb(route) == ANY && path in concrete {
        FoundIn(routes, j, OtherByPath, concrete);
        return Some(Conflict(route.id, concrete[path], key)), at;
      }
      NotFound(routes, j, http, any, concrete);
      RemembersMore(routes, j, ByKey, http);
      RemembersMore(routes, j, AnyByPath, any);
      RemembersMore(routes, j, OtherByPath, concrete);
      if Verb(route) == ANY {
        any := any[path := route.id];
      } else if path !in concrete {
        concrete := concrete[path := route.id];
      }
      ids := ids + {id};
      http := http[key := route.id];
      AcceptedMore(routes, j);
      j := j + 1;
    }
    assert routes[..j] == routes;
    rejected := None;
  }

  lemma NothingRemembered(routes: seq<Route>)
    ensures forall t :: Remembers(routes, 0, t, map[])
  {
  }

  lemma NotAccepted(routes: seq<Route>, j: nat)
    requires j < |routes|
    ensures (exists i | 0 <= i < j :: Id(routes[i]) == Id(routes[j]) || Clash(routes[i], routes[j])) ==> !Accepted(routes)
  {
    hide Id, Clash;
  }

  lemma AcceptedMore(routes: seq<Route>, j: nat)
    requires j < |routes| && Accepted(routes[..j])
    requires forall i | 0 <= i < j :: Id(routes[i]) != Id(routes[j]) && !Clash(routes[i], routes[j])
    ensures Accepted(routes[..j + 1])
  {
    hide Id, Clash;
    var shorter, longer := routes[..j], routes[..j + 1];
    forall a, b | 0 <= a < b < |longer| ensures Compatible(longer[a], longer[b]) {
      if b < j {
        assert Compatible(shorter[a], shorter[b]);
      }
    }
  }

  // ---------------------------------------------------------------- what acceptance means

  predicate SpaceFree(s: string) {
    forall i | 0 <= i < |s| :: s[i] != ' '
  }

  /** The key tells two routes apart as long as their methods contain no space. */
  lemma KeyInjective(a: Route, b: Route)
    requires SpaceFree(Verb(a)) && SpaceFree(Verb(b)) && HttpKey(a) == HttpKey(b)
    ensures Verb(a) == Verb(b) && PathOf(a) == PathOf(b)
  {
    hide TrimSpace, NormalizedMethod;
    var k, m, n := HttpKey(a), Verb(a), Verb(b);
    assert forall i | 0 <= i < |m| :: k[i] == m[i] && k[i] != ' ';
    assert forall i | 0 <= i < |n| :: k[i] == n[i] && k[i] != ' ';
    assert k[|m|] == ' ' && k[|n|] == ' ';
    assert k[..|m|] == m && k[..|n|] == n && k[|m| + 1..] == PathOf(a) && k[|n| + 1..] == PathOf(b);
  }

  /** A list that is accepted never serves one request with two routes. */
  lemma AcceptedIsUnambiguous(routes: seq<Route>)
    requires Accepted(routes)
    ensures Unambiguous(routes)
  {
    forall i, j | 0 <= i < j < |routes|
      ensures Id(routes[i]) != Id(routes[j]) && !Overlap(routes[i], routes[j])
    {
      assert Compatible(routes[i], routes[j]);
    }
  }

  /** One key for two routes that differ in method or path. */
  predicate Collide(a: Route, b: Route) {
    HttpKey(a) == HttpKey(b) && !(Verb(a) == Verb(b) && PathOf(a) == PathOf(b))
  }

  /** The check accepts what it should, if and only if no two routes of the list collide. */
  lemma AcceptanceExact(routes: seq<Route>)
    ensures Accepted(routes)
       <==> Unambiguous(routes) && forall i, j | 0 <= i < j < |routes| :: !Collide(routes[i], routes[j])
  {
    hide Verb, PathOf, HttpKey, Id;
    if Accepted(routes) {
      AcceptedIsUnambiguous(routes);
      forall i, j | 0 <= i < j < |routes| ensures !Collide(routes[i], routes[j]) {
        assert Compatible(routes[i], routes[j]);
      }
    }
  }

  /** For methods without spaces, which covers every real one, the check accepts all it should. */
  lemma SpaceFreeExact(routes: seq<Route>)
    requires forall i | 0 <= i < |routes| :: SpaceFree(Verb(routes[i]))
    ensures Accepted(routes) <==> Unambiguous(routes)
  {
    hide SpaceFree, Verb, PathOf, HttpKey;
    AcceptanceExact(routes);
    forall i, j | 0 <= i < j < |routes| ensures !Collide(routes[i], routes[j]) {
      if HttpKey(routes[i]) == HttpKey(routes[j]) {
        KeyInjective(routes[i], routes[j]);
      }
    }
  }

  lemma ClashSymmetric(a: Route, b: Route)
    ensures Compatible(a, b) <==> Compatible(b, a)
    ensures !Compatible(a, a)
  {
  }

  lemma {:induction false} Occurrences(s: seq<Route>, x: Route, i: nat, j: nat)
    requires i < j < |s| && s[i] == x && s[j] == x
    ensures multiset(s)[x] >= 2
  {
    assert s == s[..j] + s[j..];
    assert s[..j][i] == x && s[j..][0] == x;
  }

  /** The order of the list makes no difference. */
  lemma OrderIrrelevant(a: seq<Route>, b: seq<Route>)
    requires multiset(a) == multiset(b) && Accepted(a)
    ensures Accepted(b)
  {
    hide Compatible;
    forall i, j | 0 <= i < j < |b| ensures Compatible(b[i], b[j]) {
      assert b[i] in multiset(b) && b[j] in multiset(b);
      assert b[i] in a && b[j] in a;
      var k :| 0 <= k < |a| && a[k] == b[i];
      var l :| 0 <= l < |a| && a[l] == b[j];
      ClashSymmetric(a[k], a[l]);
      if k == l {
        Occurrences(b, b[i], i, j);
        TwiceTwo(a, b[i]);
      }
    }
  }

  /** An element that occurs twice sits at two positions. */
  lemma {:induction false} TwiceTwo(s: seq<Route>, x: Route)
    requires multiset(s)[x] >= 2
    ensures !Accepted(s)
  {
    hide Compatible;
    var n := |s| - 1;
    assert s == s[..n] + [s[n]];
    if s[n] == x {
      assert x in multiset(s[..n]);
      assert x in s[..n];
      var i :| 0 <= i < n && s[..n][i] == x;
      ClashSymmetric(x, x);
      assert !Compatible(s[i], s[n]);
    } else {
      TwiceTwo(s[..n], x);
      var i, j :| 0 <= i < j < n && !Compatible(s[..n][i], s[..n][j]);
      assert !Compatible(s[i], s[j]);
    }
  }

  /** A request with this method and path is for the route, as the route is written. */
  predicate Answers(r: Route, httpMethod: string, path: string) {
    && TrimSpace(r.path) == path
    && (var verb := Upper(TrimSpace(r.httpMethod)); verb == httpMethod || verb == "*" || verb == "ANY")
  }

  /** The methods of requests are not wildcards. */
  predicate Concrete(httpMethod: string) {
    httpMethod != "*" && httpMethod != "ANY"
  }

  /** Routes overlap exactly if there is a request for both. */
  lemma OverlapMeans(a: Route, b: Route)
    ensures Overlap(a, b) <==> exists m, path :: Concrete(m) && Answers(a, m, path) && Answers(b, m, path)
  {
    hide TrimSpace;
    if Overlap(a, b) {
      var m := if Verb(a) != ANY then Verb(a) else if Verb(b) != ANY then Verb(b) else "GET";
      assert Concrete("GET") && Concrete(m);
      assert Answers(a, m, PathOf(a)) && Answers(b, m, PathOf(a));
    }
  }

  /** In an accepted list no request is for two routes, and no two routes have the same id. */
  lemma AcceptedServesOne(routes: seq<Route>, i: nat, j: nat, httpMethod: string, path: string)
    requires Accepted(routes) && i < |routes| && j < |routes| && Concrete(httpMethod)
    ensures Answers(routes[i], httpMethod, path) && Answers(routes[j], httpMethod, path) ==> i == j
    ensures TrimSpace(routes[i].id) == TrimSpace(routes[j].id) ==> i == j
  {
    hide TrimSpace, Overlap, Answers;
    if i != j {
      var a, b := if i < j then i else j, if i < j then j else i;
      assert Compatible(routes[a], routes[b]);
      OverlapMeans(routes[a], routes[b]);
    }
  }

  /** `r` is written in normal form. */
  predicate InNormalForm(r: Route) {
    Id(r) == r.id && Verb(r) == r.httpMethod && PathOf(r) == r.path
  }

  lemma OneWord(s: string, first: char, last: char)
    requires s != "" && s[0] == first && s[|s| - 1] == last && first !in WHITESPACE && last !in WHITESPACE
    ensures TrimSpace(s) == s
  {
    TrimFixes(s, WHITESPACE);
  }

  lemma LettersVisible()
    ensures 'a' !in WHITESPACE && 'b' !in WHITESPACE && 'A' !in WHITESPACE && 'B' !in WHITESPACE
    ensures 'G' !in WHITESPACE && 'T' !in WHITESPACE && '/' !in WHITESPACE
  {
  }

  function SpacedRoute(): Route {
    Route("a", "GET /A", "/B")
  }

  function OtherRoute(): Route {
    Route("b", "GET", "/A /B")
  }

  lemma NormalForms()
    ensures InNormalForm(SpacedRoute()) && InNormalForm(OtherRoute())
  {
    hide TrimSpace, WHITESPACE;
    LettersVisible();
    OneWord("a", 'a', 'a');
    OneWord("b", 'b', 'b');
    OneWord("GET /A", 'G', 'A');
    OneWord("GET", 'G', 'T');
    OneWord("/B", '/', 'B');
    OneWord("/A /B", '/', 'B');
    assert Upper("GET /A") == "GET /A" && Upper("GET") == "GET";
  }

  /** With a space in a method, two routes with different absolute paths are taken for one. */
  lemma SpacedMethodRejected()
    ensures "/" <= SpacedRoute().path && "/" <= OtherRoute().path
    ensures Unambiguous([SpacedRoute(), OtherRoute()]) && !Accepted([SpacedRoute(), OtherRoute()])
  {
    hide TrimSpace, NormalizedMethod, Verb, PathOf, Id;
    var a, b := SpacedRoute(), OtherRoute();
    NormalForms();
    assert a.httpMethod + " " + a.path == b.httpMethod + " " + b.path;
    assert PathOf(a)[1] == 'B' && PathOf(b)[1] == 'A';
    assert Id(a)[0] == 'a' && Id(b)[0] == 'b';
    assert HttpKey(a) == HttpKey(b);
    assert !Compatible([a, b][0], [a, b][1]);
  }
}
