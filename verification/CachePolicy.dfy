/**
 Storability, freshness and reuse of one stored response
 (tools/http-cache-semantics-safe/index.js:233-264, 271-278, 299-317, 384-497 and 562-694).

 Times are milliseconds and ages seconds, both as reals; the clock is the argument `now`.
 `Date.parse` and the string-to-number conversion of a comparison come from the host.
 */
module CachePolicies {
  import opened Wrappers
  import opened CacheControl

  type Headers = map<string, string>

  datatype Request = Request(verb: Option<string>, url: Option<string>, headers: Headers)

  datatype Response = Response(status: Option<int>, headers: Headers)

  datatype Numeric = NotANumber | NegativeInfinity | Infinity | Finite(value: real)

  datatype Host = Host(parseDate: string -> Option<real>, toNumber: string -> Numeric)

  datatype Policy = Policy(
    responseTime: real,
    shared: bool,
    cacheHeuristic: real,
    immutableMinTtl: real,
    ignoreCargoCult: bool,
    status: int,
    resHeaders: Headers,
    rescc: Directives,
    verb: string,
    url: Option<string>,
    host: Option<string>,
    noAuthorization: bool,
    reqHeaders: Option<Headers>,
    reqcc: Directives)

  function Get(headers: Headers, name: string): Option<string> {
    if name in headers then Some(headers[name]) else None
  }

  /** The header is there and not empty. */
  predicate Has(headers: Headers, name: string) {
    name in headers && headers[name] != ""
  }

  function Max(a: real, b: real): real {
    if a >= b then a else b
  }

  // ----- Storability -----

  predicate CacheableByDefault(status: int) {
    status in {200, 203, 204, 206, 300, 301, 308, 404, 405, 410, 414, 501}
  }

  predicate Understood(status: int) {
    status in {200, 203, 204, 300, 301, 302, 303, 307, 308, 404, 405, 410, 414, 501}
  }

  predicate HasExplicitExpiration(p: Policy) {
    (p.shared && On(p.rescc, "s-maxage")) || On(p.rescc, "max-age") || Has(p.resHeaders, "expires")
  }

  predicate AllowsStoringAuthenticated(p: Policy) {
    On(p.rescc, "must-revalidate") || On(p.rescc, "public") || On(p.rescc, "s-maxage")
  }

  predicate Storable(p: Policy) {
    && !On(p.reqcc, "no-store")
    && (p.verb == "GET" || p.verb == "HEAD" || (p.verb == "POST" && HasExplicitExpiration(p)))
    && Understood(p.status)
    && !On(p.rescc, "no-store")
    && (!p.shared || !On(p.rescc, "private"))
    && (!p.shared || p.noAuthorization || AllowsStoringAuthenticated(p))
    && (Has(p.resHeaders, "expires") || On(p.rescc, "max-age") || (p.shared && On(p.rescc, "s-maxage")) ||
        On(p.rescc, "public") || CacheableByDefault(p.status))
  }

  // ----- Freshness -----

  /** A shared response with a cookie and no explicit consent to share it. */
  predicate PrivateCookie(p: Policy) {
    p.shared && Has(p.resHeaders, "set-cookie") && !On(p.rescc, "public") && !On(p.rescc, "immutable")
  }

  function Date(host: Host, p: Policy): real {
    var parsed := if "date" in p.resHeaders then host.parseDate(p.resHeaders["date"]) else None;
    if parsed.Some? then parsed.value else p.responseTime
  }

  function AgeValue(p: Policy): int {
    if "age" in p.resHeaders then Number(p.resHeaders["age"]) else 0
  }

  function Age(p: Policy, now: real): real {
    AgeValue(p) as real + (now - p.responseTime) / 1000.0
  }

  /** The lifetime when no directive gives one: from Expires, else from Last-Modified. */
  function DatedLifetime(host: Host, p: Policy): real {
    var least := if On(p.rescc, "immutable") then p.immutableMinTtl else 0.0;
    var serverDate := Date(host, p);
    if Has(p.resHeaders, "expires") then
      var expires := host.parseDate(p.resHeaders["expires"]);
      if expires == None || expires.value < serverDate then 0.0
      else Max(least, (expires.value - serverDate) / 1000.0)
    else if Has(p.resHeaders, "last-modified") then
      var modified := host.parseDate(p.resHeaders["last-modified"]);
      if modified.Some? && serverDate > modified.value then
        Max(least, (serverDate - modified.value) / 1000.0 * p.cacheHeuristic)
      else least
    else least
  }

  function MaxAge(host: Host, p: Policy): real {
    if !Storable(p) || On(p.rescc, "no-cache") then 0.0
    else if PrivateCookie(p) then 0.0
    else if Get(p.resHeaders, "vary") == Some("*") then 0.0
    else if p.shared && On(p.rescc, "proxy-revalidate") then 0.0
    else if p.shared && On(p.rescc, "s-maxage") then NumberOf(p.rescc, "s-maxage") as real
    else if On(p.rescc, "max-age") then NumberOf(p.rescc, "max-age") as real
    else DatedLifetime(host, p)
  }

  predicate Stale(host: Host, p: Policy, now: real) {
    MaxAge(host, p) <= Age(p, now)
  }

  // ----- Reuse without validation -----

  predicate AllowsUnvalidatedReuse(host: Host, p: Policy, now: real) {
    Storable(p) && !On(p.rescc, "no-cache") && !On(p.rescc, "must-revalidate") && !PrivateCookie(p) &&
    !(p.shared && (On(p.rescc, "proxy-revalidate") || "s-maxage" in p.rescc) && Stale(host, p, now))
  }

  predicate UseStaleIfError(host: Host, p: Policy, now: real) {
    AllowsUnvalidatedReuse(host, p, now) && MaxAge(host, p) + NumberOf(p.rescc, "stale-if-error") as real > Age(p, now)
  }

  predicate UseStaleWhileRevalidate(host: Host, p: Policy, now: real) {
    var swr := NumberOf(p.rescc, "stale-while-revalidate");
    AllowsUnvalidatedReuse(host, p, now) && swr > 0 && MaxAge(host, p) + swr as real > Age(p, now)
  }

  // ----- Matching -----

  function TrimAll(parts: seq<string>): (trimmed: seq<string>)
    ensures |trimmed| == |parts|
  {
    if parts == [] then [] else [Trim(parts[0])] + TrimAll(parts[1..])
  }

  function VaryFields(vary: string): seq<string> {
    TrimAll(Split(Lower(Trim(vary)), ','))
  }

  /** The header names that select the response have the same values, or are absent, in both requests. */
  predicate VaryMatches(p: Policy, r: Request) {
    !Has(p.resHeaders, "vary") ||
    var stored := if p.reqHeaders.Some? then p.reqHeaders.value else map[];
    forall name :: name in VaryFields(p.resHeaders["vary"]) ==>
      name != "*" && Get(r.headers, name) == Get(stored, name)
  }

  method CheckVary(p: Policy, r: Request) returns (matches: bool)
    ensures matches == VaryMatches(p, r)
  {
    if !Has(p.resHeaders, "vary") {
      return true;
    }
    var stored := if p.reqHeaders.Some? then p.reqHeaders.value else map[];
    var fields := VaryFields(p.resHeaders["vary"]);
    for i := 0 to |fields|
      invariant forall j :: 0 <= j < i ==> fields[j] != "*" && Get(r.headers, fields[j]) == Get(stored, fields[j])
    {
      assert fields[i] in fields;
      if fields[i] == "*" {
        return false;
      }
      if Get(r.headers, fields[i]) != Get(stored, fields[i]) {
        return false;
      }
    }
    return true;
  }

  predicate RequestMatches(p: Policy, r: Request, allowHead: bool) {
    && (p.url == None || p.url == Some("") || p.url == r.url)
    && p.host == Get(r.headers, "host")
    && (r.verb == None || r.verb == Some("") || r.verb == Some(p.verb) || (allowHead && r.verb == Some("HEAD")))
    && VaryMatches(p, r)
  }

  // ----- The decision -----

  /** How the stored response may answer a request, worst first. */
  datatype Outcome = Miss | HitAndRevalidate | Hit

  function Rank(outcome: Outcome): nat {
    match outcome
    case Miss => 0
    case HitAndRevalidate => 1
    case Hit => 2
  }

  predicate Contains(s: string, part: string) {
    part <= s || (s != "" && Contains(s[1..], part))
  }

  predicate AsksForValidation(r: Request) {
    On(Parse(Get(r.headers, "cache-control")), "no-cache") ||
    ("pragma" in r.headers && Contains(r.headers["pragma"], "no-cache"))
  }

  predicate Exceeds(n: Numeric, bound: real) {
    n == Infinity || (n.Finite? && n.value > bound)
  }

  predicate AcceptsStale(host: Host, requestCC: Directives, overdue: real) {
    "max-stale" in requestCC &&
    (requestCC["max-stale"] == Flag || Exceeds(host.toNumber(requestCC["max-stale"].text), overdue))
  }

  /** The request's own limits on age and remaining freshness. */
  predicate WithinLimits(requestCC: Directives, lifetime: real, age: real) {
    !(On(requestCC, "max-age") && age > NumberOf(requestCC, "max-age") as real) &&
    !(On(requestCC, "min-fresh") && lifetime - age < NumberOf(requestCC, "min-fresh") as real)
  }

  function Evaluate(host: Host, p: Policy, r: Request, now: real): Outcome {
    var requestCC := Parse(Get(r.headers, "cache-control"));
    if !AllowsUnvalidatedReuse(host, p, now) then Miss
    else if !RequestMatches(p, r, false) then Miss
    else if AsksForValidation(r) then Miss
    else if !WithinLimits(requestCC, MaxAge(host, p), Age(p, now)) then Miss
    else if Stale(host, p, now) then
      if AcceptsStale(host, requestCC, Age(p, now) - MaxAge(host, p)) then Hit
      else if UseStaleWhileRevalidate(host, p, now) then HitAndRevalidate
      else Miss
    else Hit
  }

  function Seconds(p: Policy, name: string): real {
    NumberOf(p.rescc, name) as real
  }

  /** `timeToLive` before rounding, in milliseconds. */
  function TimeToLive(host: Host, p: Policy, now: real): real {
    var left := MaxAge(host, p) - Age(p, now);
    Max(0.0, Max(left, Max(left + Seconds(p, "stale-if-error"), left + Seconds(p, "stale-while-revalidate")))) * 1000.0
  }

  // ----- Time -----

  lemma AgeGrows(p: Policy, earlier: real, later: real)
    ensures Age(p, later) == Age(p, earlier) + (later - earlier) / 1000.0
    ensures earlier <= later ==> Age(p, earlier) <= Age(p, later)
  {
  }

  lemma AdmissionOnlyShrinks(host: Host, p: Policy, earlier: real, later: real)
    requires earlier <= later
    ensures AllowsUnvalidatedReuse(host, p, later) ==> AllowsUnvalidatedReuse(host, p, earlier)
    ensures UseStaleWhileRevalidate(host, p, later) ==> UseStaleWhileRevalidate(host, p, earlier)
    ensures UseStaleIfError(host, p, later) ==> UseStaleIfError(host, p, earlier)
  {
    AgeGrows(p, earlier, later);
  }

  /** As time passes the answer to one request goes from hit over hit-and-revalidate to miss, and never back. */
  lemma OutcomeOnlyDegrades(host: Host, p: Policy, r: Request, earlier: real, later: real)
    requires earlier <= later
    ensures Rank(Evaluate(host, p, r, later)) <= Rank(Evaluate(host, p, r, earlier))
  {
    AgeGrows(p, earlier, later);
    AdmissionOnlyShrinks(host, p, earlier, later);
  }

  ghost predicate Onward(times: seq<real>) {
    forall i :: 0 < i < |times| ==> times[i - 1] <= times[i]
  }

  /**
   However often one policy is asked one request, the answers come in three phases: hits, then hits with
   revalidation, then misses; either of the first two may be empty.
   */
  lemma {:induction false} AnswersComeInPhases(host: Host, p: Policy, r: Request, times: seq<real>) returns (a: nat, b: nat)
    requires Onward(times)
    ensures a <= b <= |times|
    ensures forall i :: 0 <= i < a ==> Evaluate(host, p, r, times[i]) == Hit
    ensures forall i :: a <= i < b ==> Evaluate(host, p, r, times[i]) == HitAndRevalidate
    ensures forall i :: b <= i < |times| ==> Evaluate(host, p, r, times[i]) == Miss
  {
    a, b := 0, 0;
    if times != [] {
      var last := |times| - 1;
      a, b := AnswersComeInPhases(host, p, r, times[..last]);
      assert forall i :: 0 <= i < last ==> times[..last][i] == times[i];
      if last > 0 {
        OutcomeOnlyDegrades(host, p, r, times[last - 1], times[last]);
      }
      match Evaluate(host, p, r, times[last])
      case Hit => a, b := |times|, |times|;
      case HitAndRevalidate => b := |times|;
      case Miss =>
    }
  }

  /** The time to live is the exact length of the window in which the response is fresh or a stale extension covers it. */
  lemma TimeToLiveIsExact(host: Host, p: Policy, now: real, later: real)
    requires now <= later
    ensures later - now < TimeToLive(host, p, now) <==>
            !Stale(host, p, later) ||
            MaxAge(host, p) + Seconds(p, "stale-if-error") > Age(p, later) ||
            MaxAge(host, p) + Seconds(p, "stale-while-revalidate") > Age(p, later)
  {
    AgeGrows(p, now, later);
  }

  /** Once it has elapsed, only a request with max-stale is answered from the cache and no stale extension applies. */
  lemma NothingIsServedAfterTimeToLive(host: Host, p: Policy, r: Request, now: real, later: real)
    requires now <= later && later - now >= TimeToLive(host, p, now)
    ensures !UseStaleWhileRevalidate(host, p, later) && !UseStaleIfError(host, p, later)
    ensures Evaluate(host, p, r, later) != Miss ==>
            Evaluate(host, p, r, later) == Hit && "max-stale" in Parse(Get(r.headers, "cache-control"))
  {
    TimeToLiveIsExact(host, p, now, later);
  }

  // ----- What is never served unvalidated -----

  /** What must hold of a response that any reuse path serves without validation. */
  predicate Admissible(host: Host, p: Policy, now: real) {
    && Storable(p) && Understood(p.status)
    && !On(p.rescc, "no-store") && !On(p.reqcc, "no-store")
    && !On(p.rescc, "no-cache") && !On(p.rescc, "must-revalidate")
    && (p.shared ==> !On(p.rescc, "private"))
    && (p.shared && !p.noAuthorization ==> On(p.rescc, "public") || On(p.rescc, "s-maxage"))
    && (p.shared && On(p.rescc, "proxy-revalidate") ==> Age(p, now) < 0.0)
    && (p.shared && "s-maxage" in p.rescc ==> Age(p, now) < MaxAge(host, p))
  }

  lemma NoReusePathIsInadmissible(host: Host, p: Policy, r: Request, now: real)
    ensures Evaluate(host, p, r, now) != Miss || UseStaleWhileRevalidate(host, p, now) || UseStaleIfError(host, p, now)
            ==> Admissible(host, p, now)
    ensures Evaluate(host, p, r, now) != Miss ==> RequestMatches(p, r, false) && !AsksForValidation(r)
  {
  }

  // ----- Restrictive directives -----

  function With(p: Policy, directive: string): Policy {
    p.(rescc := p.rescc[directive := Flag])
  }

  /** The directives that bind a private cache too. */
  predicate BindsEveryCache(directive: string) {
    directive == "no-store" || directive == "no-cache" || directive == "must-revalidate"
  }

  lemma BindingDirectiveForcesMiss(host: Host, p: Policy, directive: string, r: Request, now: real)
    requires BindsEveryCache(directive) || (directive == "private" && p.shared)
    ensures Evaluate(host, With(p, directive), r, now) == Miss
  {
    assert On(With(p, directive).rescc, directive);
  }

  lemma SharedProxyRevalidateForcesMiss(host: Host, p: Policy, r: Request, now: real)
    requires p.shared && Age(p, now) >= 0.0
    ensures Evaluate(host, With(p, "proxy-revalidate"), r, now) == Miss
  {
    assert On(With(p, "proxy-revalidate").rescc, "proxy-revalidate");
  }

  lemma OthersUntouched(cc: Directives, directive: string, name: string)
    requires name != directive
    ensures name in cc[directive := Flag] <==> name in cc
    ensures On(cc[directive := Flag], name) == On(cc, name)
    ensures NumberOf(cc[directive := Flag], name) == NumberOf(cc, name)
  {
  }

  lemma PrivateCacheStoresAlike(p: Policy, directive: string)
    requires !p.shared && (directive == "private" || directive == "proxy-revalidate")
    ensures Storable(With(p, directive)) == Storable(p)
    ensures On(With(p, directive).rescc, "immutable") == On(p.rescc, "immutable")
    ensures NumberOf(With(p, directive).rescc, "max-age") == NumberOf(p.rescc, "max-age")
  {
    OthersUntouched(p.rescc, directive, "max-age");
    OthersUntouched(p.rescc, directive, "public");
    OthersUntouched(p.rescc, directive, "immutable");
    OthersUntouched(p.rescc, directive, "no-store");
  }

  lemma PrivateCacheKeepsLifetime(host: Host, p: Policy, directive: string)
    requires !p.shared && (directive == "private" || directive == "proxy-revalidate")
    ensures MaxAge(host, With(p, directive)) == MaxAge(host, p)
  {
    PrivateCacheStoresAlike(p, directive);
    OthersUntouched(p.rescc, directive, "max-age");
    OthersUntouched(p.rescc, directive, "no-cache");
  }

  lemma PrivateCacheAdmitsAlike(host: Host, p: Policy, directive: string, now: real)
    requires !p.shared && (directive == "private" || directive == "proxy-revalidate")
    ensures AllowsUnvalidatedReuse(host, With(p, directive), now) == AllowsUnvalidatedReuse(host, p, now)
    ensures UseStaleWhileRevalidate(host, With(p, directive), now) == UseStaleWhileRevalidate(host, p, now)
  {
    PrivateCacheStoresAlike(p, directive);
    PrivateCacheKeepsLifetime(host, p, directive);
    OthersUntouched(p.rescc, directive, "no-cache");
    OthersUntouched(p.rescc, directive, "must-revalidate");
    OthersUntouched(p.rescc, directive, "stale-while-revalidate");
  }

  lemma MatchesAlike(p: Policy, directive: string, r: Request)
    ensures RequestMatches(With(p, directive), r, false) == RequestMatches(p, r, false)
  {
    assert VaryMatches(With(p, directive), r) == VaryMatches(p, r);
  }

  lemma PrivateCacheIgnores(host: Host, p: Policy, directive: string, r: Request, now: real)
    requires !p.shared && (directive == "private" || directive == "proxy-revalidate")
    ensures Evaluate(host, With(p, directive), r, now) == Evaluate(host, p, r, now)
  {
    PrivateCacheAdmitsAlike(host, p, directive, now);
    PrivateCacheKeepsLifetime(host, p, directive);
    MatchesAlike(p, directive, r);
    assert Age(With(p, directive), now) == Age(p, now);
  }

  /**
   Adding one of the five restrictive directives to the stored directives, at a nonnegative age: a miss
   where it binds, no change where it does not.  `CacheRevalidation` says what this means for a response.
   */
  lemma RestrictiveDirectivesOnlyRestrict(host: Host, p: Policy, directive: string, r: Request, now: real)
    requires Restrictive(directive) && Age(p, now) >= 0.0
    ensures Evaluate(host, With(p, directive), r, now) ==
            if p.shared || BindsEveryCache(directive) then Miss else Evaluate(host, p, r, now)
    ensures Rank(Evaluate(host, With(p, directive), r, now)) <= Rank(Evaluate(host, p, r, now))
  {
    if BindsEveryCache(directive) || (directive == "private" && p.shared) {
      BindingDirectiveForcesMiss(host, p, directive, r, now);
    } else if p.shared {
      SharedProxyRevalidateForcesMiss(host, p, r, now);
    } else {
      PrivateCacheIgnores(host, p, directive, r, now);
    }
  }

  function WithAll(p: Policy, directives: seq<string>): Policy
    decreases |directives|
  {
    if directives == [] then p else WithAll(With(p, directives[0]), directives[1..])
  }

  /** The same for any number of them together. */
  lemma {:induction false} AnyRestrictionsOnlyRestrict(host: Host, p: Policy, directives: seq<string>, r: Request, now: real)
    requires forall i :: 0 <= i < |directives| ==> Restrictive(directives[i])
    requires Age(p, now) >= 0.0
    ensures Evaluate(host, WithAll(p, directives), r, now) ==
            if exists i :: 0 <= i < |directives| && (p.shared || BindsEveryCache(directives[i])) then Miss
            else Evaluate(host, p, r, now)
    decreases |directives|
  {
    if directives != [] {
      var rest := directives[1..];
      RestrictiveDirectivesOnlyRestrict(host, p, directives[0], r, now);
      AnyRestrictionsOnlyRestrict(host, With(p, directives[0]), rest, r, now);
      assert forall i :: 0 < i < |directives| ==> directives[i] == rest[i - 1];
      assert forall i :: 0 <= i < |rest| ==> rest[i] == directives[i + 1];
    }
  }

  /** The part of admission that does not depend on the clock. */
  predicate Admitted(p: Policy) {
    Storable(p) && !On(p.rescc, "no-cache") && !On(p.rescc, "must-revalidate") && !PrivateCookie(p)
  }

  lemma ProxyRevalidateStoresAlike(p: Policy)
    ensures Storable(With(p, "proxy-revalidate")) == Storable(p)
    ensures PrivateCookie(With(p, "proxy-revalidate")) == PrivateCookie(p)
  {
    var d := "proxy-revalidate";
    OthersUntouched(p.rescc, d, "max-age");
    OthersUntouched(p.rescc, d, "s-maxage");
    OthersUntouched(p.rescc, d, "public");
    OthersUntouched(p.rescc, d, "immutable");
    OthersUntouched(p.rescc, d, "must-revalidate");
    OthersUntouched(p.rescc, d, "no-store");
    OthersUntouched(p.rescc, d, "private");
  }

  lemma ProxyRevalidateAdmitsAlike(p: Policy)
    ensures Admitted(With(p, "proxy-revalidate")) == Admitted(p)
  {
    ProxyRevalidateStoresAlike(p);
    OthersUntouched(p.rescc, "proxy-revalidate", "no-cache");
    OthersUntouched(p.rescc, "proxy-revalidate", "must-revalidate");
  }

  lemma ProxyRevalidateLifetime(host: Host, p: Policy)
    requires p.shared
    ensures MaxAge(host, With(p, "proxy-revalidate")) == 0.0
  {
    assert On(With(p, "proxy-revalidate").rescc, "proxy-revalidate");
  }

  /** A negative age is a fresh one under a shared proxy-revalidate: the answer depends on nothing else of the response. */
  lemma NegativeAgeEvaluates(host: Host, p: Policy, r: Request, now: real)
    requires p.shared && Age(p, now) < 0.0
    ensures Evaluate(host, With(p, "proxy-revalidate"), r, now) ==
            if Admitted(p) && RequestMatches(p, r, false) && !AsksForValidation(r) &&
               WithinLimits(Parse(Get(r.headers, "cache-control")), 0.0, Age(p, now))
            then Hit else Miss
  {
    var q := With(p, "proxy-revalidate");
    ProxyRevalidateAdmitsAlike(p);
    ProxyRevalidateLifetime(host, p);
    MatchesAlike(p, "proxy-revalidate", r);
    assert Age(q, now) == Age(p, now);
    assert !Stale(host, q, now);
  }

  /** With a negative age it still only restricts when the lifetime is not negative too. */
  lemma NonnegativeLifetimeOnlyRestricts(host: Host, p: Policy, r: Request, now: real)
    requires p.shared && Age(p, now) < 0.0 <= MaxAge(host, p)
    ensures Rank(Evaluate(host, With(p, "proxy-revalidate"), r, now)) <= Rank(Evaluate(host, p, r, now))
  {
    NegativeAgeEvaluates(host, p, r, now);
  }

  /**
   Adding proxy-revalidate to stored directives improves the answer to a request exactly when the cache is
   shared, the age is negative, the request is one the response may answer at lifetime 0, and it was not
   answered as well before: its limits rejected the old lifetime, or the response was stale and neither
   the absence of s-maxage nor the request's max-stale let it be served.
   */
  lemma ProxyRevalidateHelpsExactly(host: Host, p: Policy, r: Request, now: real)
    ensures var asked := Parse(Get(r.headers, "cache-control"));
            var age, lifetime := Age(p, now), MaxAge(host, p);
            Rank(Evaluate(host, With(p, "proxy-revalidate"), r, now)) > Rank(Evaluate(host, p, r, now)) <==>
            p.shared && age < 0.0 &&
            Admitted(p) && RequestMatches(p, r, false) && !AsksForValidation(r) && WithinLimits(asked, 0.0, age) &&
            (!WithinLimits(asked, lifetime, age) ||
             (lifetime <= age && ("s-maxage" in p.rescc || !AcceptsStale(host, asked, age - lifetime))))
  {
    if !p.shared {
      PrivateCacheIgnores(host, p, "proxy-revalidate", r, now);
    } else if Age(p, now) >= 0.0 {
      SharedProxyRevalidateForcesMiss(host, p, r, now);
    } else {
      NegativeAgeEvaluates(host, p, r, now);
    }
  }
}
