/**
 Which budget a request spends (backend/app/middleware/rate_limit_middleware.py):
 the policy is picked by the longest matching route prefix, and the identifier
 names the policy and the caller. The bound of SlidingWindow then holds for every
 identifier, because an identifier always carries the same limit and window.
 */
module RatePolicy {
  import opened Wrappers
  import SlidingWindow

  datatype Route = Route(prefix: string, limit: int, window: int)

  datatype Policy = Policy(name: string, limit: int, window: int)

  predicate StartsWith(s: string, p: string) {
    |p| <= |s| && s[..|p|] == p
  }

  predicate EndsWith(s: string, p: string) {
    |p| <= |s| && s[|s| - |p|..] == p
  }

  /** rstrip("/") */
  function StripSlashes(s: string): string {
    if s != "" && s[|s| - 1] == '/' then StripSlashes(s[..|s| - 1]) else s
  }

  predicate Matches(path: string, prefix: string) {
    path == prefix || StartsWith(path, prefix + "/")
  }

  predicate IsTelemetry(path: string) {
    StartsWith(path, "/api/v1/riders/") && (EndsWith(path, "/heartbeat") || EndsWith(path, "/location"))
  }

  function LongestMatch(routes: seq<Route>, path: string): Option<Route> {
    if routes == [] then None
    else
      var best := LongestMatch(routes[..|routes| - 1], path);
      var r := routes[|routes| - 1];
      if Matches(path, r.prefix) && (best.None? || |r.prefix| > |best.value.prefix|) then Some(r) else best
  }

  function GetPolicy(routes: seq<Route>, defaultLimit: int, rawPath: string): Policy {
    var path := StripSlashes(rawPath);
    if IsTelemetry(path) then Policy("rider-telemetry", 240, 60)
    else
      match LongestMatch(routes, path)
      case Some(r) => Policy(r.prefix, r.limit, r.window)
      case None => Policy("default", defaultLimit, 60)
  }

  // ----- the longest match is unique -----

  lemma {:induction false} MatchesIsPrefix(path: string, prefix: string)
    requires Matches(path, prefix)
    ensures |prefix| <= |path| && path[..|prefix|] == prefix
  {
  }

  lemma {:induction false} LongestMatchIsLongest(routes: seq<Route>, path: string)
    ensures var best := LongestMatch(routes, path);
            && (best.None? <==> forall r :: r in routes ==> !Matches(path, r.prefix))
            && (best.Some? ==> best.value in routes && Matches(path, best.value.prefix)
                               && forall r :: r in routes && Matches(path, r.prefix) ==>
                                    |r.prefix| <= |best.value.prefix| && (|r.prefix| == |best.value.prefix| ==> r.prefix == best.value.prefix))
  {
    if routes != [] {
      var n := |routes| - 1;
      LongestMatchIsLongest(routes[..n], path);
      assert routes == routes[..n] + [routes[n]];
      var best := LongestMatch(routes, path);
      forall r | r in routes && Matches(path, r.prefix) ensures |r.prefix| == |best.value.prefix| ==> r.prefix == best.value.prefix {
        MatchesIsPrefix(path, r.prefix);
        MatchesIsPrefix(path, best.value.prefix);
      }
    }
  }

  /** A dictionary holds each prefix once. */
  ghost predicate OnePerPrefix(routes: seq<Route>) {
    forall r, q :: r in routes && q in routes && r.prefix == q.prefix ==> r == q
  }

  /** The order of the table does not matter. */
  lemma {:induction false} TableOrderIsIrrelevant(routes: seq<Route>, others: seq<Route>, defaultLimit: int,
                                                  path: string)
    requires OnePerPrefix(routes) && forall r :: r in routes <==> r in others
    ensures GetPolicy(routes, defaultLimit, path) == GetPolicy(others, defaultLimit, path)
  {
    var p := StripSlashes(path);
    LongestMatchIsLongest(routes, p);
    LongestMatchIsLongest(others, p);
    var a, b := LongestMatch(routes, p), LongestMatch(others, p);
    if a.Some? && b.Some? {
      assert a.value in others && b.value in routes;
      assert a.value.prefix == b.value.prefix;
    }
  }

  // ----- which policy a path has -----

  /** The path without the slashes at its end. */
  ghost predicate Trimmed(raw: string, path: string) {
    && path <= raw && (path == "" || path[|path| - 1] != '/')
    && forall i :: |path| <= i < |raw| ==> raw[i] == '/'
  }

  /** The path itself, or something below it. */
  predicate AtOrBelow(path: string, prefix: string) {
    prefix <= path && (|path| == |prefix| || path[|prefix|] == '/')
  }

  predicate RiderReport(path: string) {
    "/api/v1/riders/" <= path
    && ((|path| >= 10 && path[|path| - 10..] == "/heartbeat") || (|path| >= 9 && path[|path| - 9..] == "/location"))
  }

  lemma {:induction false} StripTrims(raw: string)
    ensures Trimmed(raw, StripSlashes(raw))
  {
    if raw != "" && raw[|raw| - 1] == '/' {
      StripTrims(raw[..|raw| - 1]);
    }
  }

  lemma {:induction false} MatchesIsAtOrBelow(path: string, prefix: string)
    ensures Matches(path, prefix) <==> AtOrBelow(path, prefix)
  {
    if AtOrBelow(path, prefix) && |path| > |prefix| {
      assert path[..|prefix| + 1] == prefix + "/";
    }
    if StartsWith(path, prefix + "/") {
      assert path[..|prefix| + 1][..|prefix|] == prefix && path[..|prefix| + 1][|prefix|] == '/';
    }
  }

  /** A route of the table that the path is at or below, no other such route being longer. */
  ghost predicate Governs(routes: seq<Route>, path: string, r: Route) {
    && r in routes && AtOrBelow(path, r.prefix)
    && forall q :: q in routes && AtOrBelow(path, q.prefix) ==> |q.prefix| <= |r.prefix|
  }

  /** The policy of a path, slashes at its end aside: reports of riders have their own,
      then the longest route counts, and everything else shares the default. */
  lemma {:induction false} PolicyMeaning(routes: seq<Route>, defaultLimit: int, raw: string, path: string)
    requires Trimmed(raw, path)
    ensures var policy := GetPolicy(routes, defaultLimit, raw);
            && (RiderReport(path) ==> policy == Policy("rider-telemetry", 240, 60))
            && (!RiderReport(path) && (exists r :: r in routes && AtOrBelow(path, r.prefix)) ==>
                  exists r :: Governs(routes, path, r) && policy == Policy(r.prefix, r.limit, r.window))
            && (!RiderReport(path) && !(exists r :: r in routes && AtOrBelow(path, r.prefix)) ==>
                  policy == Policy("default", defaultLimit, 60))
  {
    StripTrims(raw);
    TrimmedIsUnique(raw, path, StripSlashes(raw));
    LongestMatchIsLongest(routes, path);
    forall r | r in routes ensures Matches(path, r.prefix) <==> AtOrBelow(path, r.prefix) {
      MatchesIsAtOrBelow(path, r.prefix);
    }
    assert IsTelemetry(path) <==> RiderReport(path);
    var best := LongestMatch(routes, path);
    assert best.Some? ==> Governs(routes, path, best.value);
  }

  lemma {:induction false} TrimmedIsUnique(raw: string, a: string, b: string)
    requires Trimmed(raw, a) && Trimmed(raw, b)
    ensures a == b
  {
    assert a == raw[..|a|] && b == raw[..|b|];
  }

  // ----- the identifier fixes the policy -----

  function Identity(userId: string, clientIp: string): string {
    if userId != "" then userId + ":" + clientIp else "ip:" + clientIp
  }

  function Identifier(policy: string, identity: string): string {
    "policy:" + policy + ":" + identity
  }

  ghost predicate NoColon(s: string) {
    forall i :: 0 <= i < |s| ==> s[i] != ':'
  }

  ghost predicate ValidTable(routes: seq<Route>) {
    && OnePerPrefix(routes)
    && forall r :: r in routes ==> ValidRoute(r)
  }

  ghost predicate ValidRoute(r: Route) {
    r.prefix != "" && r.prefix[0] == '/' && NoColon(r.prefix) && r.limit >= 0 && r.window > 0
  }

  lemma {:induction false} PolicyNameHasNoColon(routes: seq<Route>, defaultLimit: int, path: string)
    requires ValidTable(routes)
    ensures NoColon(GetPolicy(routes, defaultLimit, path).name)
  {
    LongestMatchIsLongest(routes, StripSlashes(path));
  }

  lemma {:induction false} FirstColon(a: string, b: string, x: string, y: string)
    requires NoColon(a) && NoColon(b) && a + ":" + x == b + ":" + y
    ensures a == b && x == y
  {
    var s := a + ":" + x;
    assert forall i :: 0 <= i < |a| ==> s[i] == a[i] != ':';
    assert forall i :: 0 <= i < |b| ==> s[i] == b[i] != ':';
    assert s[|a|] == ':' && s[|b|] == ':';
    assert a == s[..|a|] && b == s[..|b|];
    assert x == s[|a| + 1..] && y == s[|b| + 1..];
  }

  lemma {:induction false} IdentifierIsInjective(p: string, q: string, i: string, j: string)
    requires NoColon(p) && NoColon(q) && Identifier(p, i) == Identifier(q, j)
    ensures p == q && i == j
  {
    var s, t := p + ":" + i, q + ":" + j;
    assert Identifier(p, i) == "policy:" + s;
    assert Identifier(q, j) == "policy:" + t;
    assert s == ("policy:" + s)[7..] && t == ("policy:" + t)[7..];
    FirstColon(p, q, i, j);
  }

  /** Requests that share an identifier share its limit and window. */
  lemma {:induction false} IdentifierFixesLimits(routes: seq<Route>, defaultLimit: int, path: string,
                                                 other: string, i: string, j: string)
    requires ValidTable(routes)
    requires Identifier(GetPolicy(routes, defaultLimit, path).name, i) == Identifier(GetPolicy(routes, defaultLimit, other).name, j)
    ensures GetPolicy(routes, defaultLimit, path) == GetPolicy(routes, defaultLimit, other) && i == j
  {
    PolicyNameHasNoColon(routes, defaultLimit, path);
    PolicyNameHasNoColon(routes, defaultLimit, other);
    IdentifierIsInjective(GetPolicy(routes, defaultLimit, path).name, GetPolicy(routes, defaultLimit, other).name, i, j);
    LongestMatchIsLongest(routes, StripSlashes(path));
    LongestMatchIsLongest(routes, StripSlashes(other));
  }

  // ----- requests -----

  /** A request that is neither a preflight nor exempt, with the user named by its token, if any. */
  datatype Request = Request(path: string, userId: string, clientIp: string, now: int)

  function CallOf(routes: seq<Route>, defaultLimit: int, r: Request): SlidingWindow.Call {
    var policy := GetPolicy(routes, defaultLimit, r.path);
    var userId := if Matches(r.path, "/api/v1/auth") then "" else r.userId;
    SlidingWindow.Call(Identifier(policy.name, Identity(userId, r.clientIp)), policy.limit, policy.window, r.now)
  }

  /** What a request spends: the budget of its policy for the caller, which is the user of
      the token at an address, or the address alone without one and on every path of
      the authentication, whatever token comes along. */
  lemma {:induction false} CallMeaning(routes: seq<Route>, defaultLimit: int, r: Request)
    ensures var c, policy := CallOf(routes, defaultLimit, r), GetPolicy(routes, defaultLimit, r.path);
            var anonymous := r.userId == "" || AtOrBelow(r.path, "/api/v1/auth");
            && c.limit == policy.limit && c.window == policy.window && c.now == r.now
            && c.id == "policy:" + policy.name + ":" + if anonymous then "ip:" + r.clientIp else r.userId + ":" + r.clientIp
  {
    MatchesIsAtOrBelow(r.path, "/api/v1/auth");
  }

  function CallsOf(routes: seq<Route>, defaultLimit: int, requests: seq<Request>): seq<SlidingWindow.Call> {
    seq(|requests|, i requires 0 <= i < |requests| => CallOf(routes, defaultLimit, requests[i]))
  }

  function LimitsOf(calls: seq<SlidingWindow.Call>): map<string, (int, int)> {
    if calls == [] then map[]
    else
      var c := calls[|calls| - 1];
      LimitsOf(calls[..|calls| - 1])[c.id := (c.limit, c.window)]
  }

  ghost predicate OneLimitPerId(calls: seq<SlidingWindow.Call>) {
    forall i, j :: 0 <= i < |calls| && 0 <= j < |calls| && calls[i].id == calls[j].id ==>
      calls[i].limit == calls[j].limit && calls[i].window == calls[j].window
  }

  lemma {:induction false} LimitsAreShared(calls: seq<SlidingWindow.Call>)
    requires OneLimitPerId(calls)
    ensures forall i :: 0 <= i < |calls| ==>
              calls[i].id in LimitsOf(calls) && LimitsOf(calls)[calls[i].id] == (calls[i].limit, calls[i].window)
  {
    if calls != [] {
      LimitsAreShared(calls[..|calls| - 1]);
    }
  }

  lemma {:induction false} PolicyIsPositive(routes: seq<Route>, defaultLimit: nat, path: string)
    requires ValidTable(routes)
    ensures GetPolicy(routes, defaultLimit, path).limit >= 0 && GetPolicy(routes, defaultLimit, path).window > 0
  {
    LongestMatchIsLongest(routes, StripSlashes(path));
  }

  lemma {:induction false} RequestsShareLimits(routes: seq<Route>, defaultLimit: nat, requests: seq<Request>)
    requires ValidTable(routes)
    ensures OneLimitPerId(CallsOf(routes, defaultLimit, requests))
  {
    var calls := CallsOf(routes, defaultLimit, requests);
    forall i, j | 0 <= i < |calls| && 0 <= j < |calls| && calls[i].id == calls[j].id
      ensures calls[i].limit == calls[j].limit && calls[i].window == calls[j].window
    {
      var (a, b) := (requests[i], requests[j]);
      IdentifierFixesLimits(routes, defaultLimit, a.path, b.path,
                            Identity(if Matches(a.path, "/api/v1/auth") then "" else a.userId, a.clientIp),
                            Identity(if Matches(b.path, "/api/v1/auth") then "" else b.userId, b.clientIp));
    }
  }

  lemma {:induction false} RequestsAreOrderly(routes: seq<Route>, defaultLimit: nat, requests: seq<Request>)
    requires ValidTable(routes) && forall i, j :: 0 <= i < j < |requests| ==> requests[i].now <= requests[j].now
    ensures var calls := CallsOf(routes, defaultLimit, requests); SlidingWindow.Orderly(calls, LimitsOf(calls))
  {
    var calls := CallsOf(routes, defaultLimit, requests);
    RequestsShareLimits(routes, defaultLimit, requests);
    LimitsAreShared(calls);
    forall i | 0 <= i < |calls| ensures calls[i].window > 0 {
      PolicyIsPositive(routes, defaultLimit, requests[i].path);
    }
  }

  /** Over any run of requests, whatever paths and callers they name, no window's
      length holds more admissions of an identifier than the limit of its policy. */
  lemma {:induction false} EveryIdentifierIsBounded(routes: seq<Route>, defaultLimit: nat, requests: seq<Request>,
                                                    k: nat, from: int)
    requires ValidTable(routes) && k < |requests|
    requires forall i, j :: 0 <= i < j < |requests| ==> requests[i].now <= requests[j].now
    ensures var calls := CallsOf(routes, defaultLimit, requests);
            var c := calls[k];
            && |SlidingWindow.LocalRun(calls).1| == |calls|
            && SlidingWindow.CountIn(SlidingWindow.Admitted(calls, SlidingWindow.LocalRun(calls).1, c.id),
                                     from, c.window * SlidingWindow.SECOND) <= c.limit
  {
    var calls := CallsOf(routes, defaultLimit, requests);
    RequestsAreOrderly(routes, defaultLimit, requests);
    PolicyIsPositive(routes, defaultLimit, requests[k].path);
    SlidingWindow.AtMostLimitPerWindow(calls, LimitsOf(calls), calls[k].id, from);
  }

  // ----- the table of the source -----

  const LOGIN := Route("/api/v1/auth/login", 5, 60)
  const REGISTER := Route("/api/v1/auth/register", 3, 300)
  const FORGOT := Route("/api/v1/auth/forgot-password", 2, 300)
  const RESET := Route("/api/v1/auth/reset-password", 2, 300)
  const REGISTER_RIDER := Route("/api/v1/auth/register-rider", 3, 300)
  const APPROVAL := Route("/api/v1/riders/approval", 10, 60)
  const TELEMETRY := Route("/api/v1/telemetry/riders", 240, 60)
  const ORDERS := Route("/api/v1/orders", 30, 60)
  const DELIVERIES := Route("/api/v1/deliveries", 30, 60)

  const ROUTE_LIMITS: seq<Route> :=
    [LOGIN, REGISTER, FORGOT, RESET, REGISTER_RIDER, APPROVAL, TELEMETRY, ORDERS, DELIVERIES]

  lemma {:induction false} SourceLengths()
    ensures |LOGIN.prefix| == |DELIVERIES.prefix| == 18 && |REGISTER.prefix| == 21 && |FORGOT.prefix| == 28
    ensures |RESET.prefix| == |REGISTER_RIDER.prefix| == 27 && |APPROVAL.prefix| == 23 && |TELEMETRY.prefix| == 24
    ensures |ORDERS.prefix| == 14
  {
  }

  lemma {:induction false} SourceSameLength()
    ensures RESET.prefix != REGISTER_RIDER.prefix && LOGIN.prefix != DELIVERIES.prefix
  {
  }

  lemma {:induction false} DistinctByLength(routes: seq<Route>)
    requires |routes| == 9
    requires forall i, j :: 0 <= i < j < 9 && |routes[i].prefix| == |routes[j].prefix| ==> routes[i].prefix != routes[j].prefix
    ensures OnePerPrefix(routes)
  {
  }

  lemma {:induction false} SourcePrefixesDiffer()
    ensures OnePerPrefix(ROUTE_LIMITS)
  {
    SourceLengths();
    SourceSameLength();
    DistinctByLength(ROUTE_LIMITS);
  }

  lemma {:induction false} AuthRoutesAreValid()
    ensures ValidRoute(LOGIN) && ValidRoute(REGISTER)
  {
  }

  lemma {:induction false} AccountRoutesAreValid()
    ensures ValidRoute(FORGOT) && ValidRoute(RESET) && ValidRoute(REGISTER_RIDER)
  {
  }

  lemma {:induction false} OtherRoutesAreValid()
    ensures ValidRoute(APPROVAL) && ValidRoute(TELEMETRY) && ValidRoute(ORDERS) && ValidRoute(DELIVERIES)
  {
  }

  /** Five logins a minute, three registrations in five minutes, and so on. */
  lemma {:induction false} SourceLimits()
    ensures LOGIN.limit == 5 && APPROVAL.limit == 10 && TELEMETRY.limit == 240 && ORDERS.limit == DELIVERIES.limit == 30
    ensures REGISTER.limit == REGISTER_RIDER.limit == 3 && FORGOT.limit == RESET.limit == 2
    ensures LOGIN.window == APPROVAL.window == TELEMETRY.window == ORDERS.window == DELIVERIES.window == 60
    ensures REGISTER.window == REGISTER_RIDER.window == FORGOT.window == RESET.window == 300
  {
  }

  lemma {:induction false} SourceTableIsValid()
    ensures ValidTable(ROUTE_LIMITS)
  {
    SourcePrefixesDiffer();
    AuthRoutesAreValid();
    AccountRoutesAreValid();
    OtherRoutesAreValid();
  }

  /** The table as the middleware holds it. */
  class RateLimitMiddleware {
    const routeLimits: seq<Route>
    const defaultLimit: int

    constructor (routeLimits: seq<Route>, defaultLimit: int)
      ensures this.routeLimits == routeLimits && this.defaultLimit == defaultLimit
    {
      this.routeLimits, this.defaultLimit := routeLimits, defaultLimit;
    }

    method GetPolicyFor(rawPath: string) returns (policy: Policy)
      ensures policy == GetPolicy(routeLimits, defaultLimit, rawPath)
    {
      var path := StripSlashes(rawPath);
      if IsTelemetry(path) {
        return Policy("rider-telemetry", 240, 60);
      }
      var bestMatch: Option<Route> := None;
      for i := 0 to |routeLimits|
        invariant bestMatch == LongestMatch(routeLimits[..i], path)
      {
        assert routeLimits[..i + 1][..i] == routeLimits[..i];
        var r := routeLimits[i];
        if Matches(path, r.prefix) && (bestMatch.None? || |r.prefix| > |bestMatch.value.prefix|) {
          bestMatch := Some(r);
        }
      }
      assert routeLimits[..|routeLimits|] == routeLimits;
      if bestMatch.Some? {
        return Policy(bestMatch.value.prefix, bestMatch.value.limit, bestMatch.value.window);
      }
      return Policy("default", defaultLimit, 60);
    }
  }
}
