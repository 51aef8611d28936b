/**
 Building, serializing and revalidating a cache policy
 (tools/http-cache-semantics-safe/index.js:55-65, 77-89, 157-223, 701-751 and 825-918).
 */
module CacheRevalidation {
  import opened Wrappers
  import opened CacheControl
  import opened CachePolicies

  datatype Options = Options(
    shared: Option<bool>,
    cacheHeuristic: Option<real>,
    immutableMinTimeToLive: Option<real>,
    ignoreCargoCult: bool)

  const DEFAULT_HEURISTIC := 0.1

  const DEFAULT_IMMUTABLE_TTL := 86400000.0

  function OrElse<T>(option: Option<T>, otherwise: T): T {
    if option.Some? then option.value else otherwise
  }

  // ----- The constructor -----

  function Stored(req: Request, res: Response, o: Options, now: real): Policy {
    Policy(now, OrElse(o.shared, true), OrElse(o.cacheHeuristic, DEFAULT_HEURISTIC),
           OrElse(o.immutableMinTimeToLive, DEFAULT_IMMUTABLE_TTL), o.ignoreCargoCult, OrElse(res.status, 200),
           res.headers, Parse(Get(res.headers, "cache-control")), OrElse(req.verb, "GET"), req.url,
           Get(req.headers, "host"), !Has(req.headers, "authorization"),
           if Has(res.headers, "vary") then Some(req.headers) else None, Parse(Get(req.headers, "cache-control")))
  }

  predicate Cargo(directive: string) {
    directive == "pre-check" || directive == "post-check" || directive == "no-cache" || directive == "no-store" ||
    directive == "must-revalidate"
  }

  function WithoutCargo(cc: Directives): Directives {
    map key | key in cc && !Cargo(key) :: cc[key]
  }

  function KeysWithoutCargo(order: seq<string>): (kept: seq<string>)
    ensures forall key :: key in kept <==> key in order && !Cargo(key)
  {
    if order == [] then []
    else (if Cargo(order[0]) then [] else [order[0]]) + KeysWithoutCargo(order[1..])
  }

  function SetOrDrop(headers: Headers, name: string, value: Option<string>): Headers {
    if value.Some? then headers[name := value.value] else headers - {name}
  }

  /** The policy after copied-and-pasted directives have been taken out; `order` lists its directives. */
  function Uncargoed(p: Policy, order: seq<string>): Policy
    requires forall key :: key in order ==> key in p.rescc
  {
    var cc := WithoutCargo(p.rescc);
    var text := Format(cc, KeysWithoutCargo(order));
    p.(rescc := cc, resHeaders := SetOrDrop(p.resHeaders, "cache-control", text) - {"expires", "pragma"})
  }

  predicate CargoCult(p: Policy) {
    p.ignoreCargoCult && "pre-check" in p.rescc && "post-check" in p.rescc
  }

  /** The `no-cache` pragma counts when the response has no Cache-Control header. */
  predicate PragmaCounts(headers: Headers) {
    "cache-control" !in headers && "pragma" in headers && Contains(headers["pragma"], "no-cache")
  }

  function Built(req: Request, res: Response, o: Options, now: real): Policy {
    var stored := Stored(req, res, o, now);
    var order := Keys(Get(res.headers, "cache-control"));
    KeysListParsed(Get(res.headers, "cache-control"));
    var cleaned := if CargoCult(stored) then Uncargoed(stored, order) else stored;
    if PragmaCounts(res.headers) then cleaned.(rescc := cleaned.rescc["no-cache" := Flag]) else cleaned
  }

  method CreatePolicy(req: Request, res: Response, o: Options, now: real) returns (p: Policy)
    ensures p == Built(req, res, o, now)
  {
    var rescc, order := ParseCacheControl(Get(res.headers, "cache-control"));
    var reqcc, _ := ParseCacheControl(Get(req.headers, "cache-control"));
    var headers := res.headers;
    if o.ignoreCargoCult && "pre-check" in rescc && "post-check" in rescc {
      rescc := WithoutCargo(rescc);
      var text := FormatCacheControl(rescc, KeysWithoutCargo(order));
      headers := SetOrDrop(headers, "cache-control", text) - {"expires", "pragma"};
    }
    if PragmaCounts(res.headers) {
      rescc := rescc["no-cache" := Flag];
    }
    p := Policy(now, o.shared != Some(false), OrElse(o.cacheHeuristic, DEFAULT_HEURISTIC),
                OrElse(o.immutableMinTimeToLive, DEFAULT_IMMUTABLE_TTL), o.ignoreCargoCult, OrElse(res.status, 200),
                headers, rescc, OrElse(req.verb, "GET"), req.url, Get(req.headers, "host"),
                !Has(req.headers, "authorization"), if Has(res.headers, "vary") then Some(req.headers) else None, reqcc);
  }

  // ----- A response with one more restrictive directive -----

  /** The response with the directive added to its Cache-Control header. */
  function Adding(res: Response, directive: string): Response {
    var added := if Has(res.headers, "cache-control") then res.headers["cache-control"] + ", " + directive else directive;
    res.(headers := res.headers["cache-control" := added])
  }

  function WithoutPragma(res: Response): Response {
    res.(headers := res.headers - {"pragma"})
  }

  /** The legacy option takes the directive out again. */
  predicate TakenOut(res: Response, o: Options, directive: string) {
    var cc := Parse(Get(res.headers, "cache-control"));
    o.ignoreCargoCult && "pre-check" in cc && "post-check" in cc && Cargo(directive)
  }

  /** The policies differ at most in the texts of headers that no decision reads. */
  ghost predicate Alike(p: Policy, q: Policy) {
    q == p.(resHeaders := q.resHeaders) &&
    forall name :: name != "cache-control" && name != "pragma" ==> Get(p.resHeaders, name) == Get(q.resHeaders, name)
  }

  lemma AlikeReads(p: Policy, q: Policy, name: string)
    requires Alike(p, q) && name != "cache-control" && name != "pragma"
    ensures Get(p.resHeaders, name) == Get(q.resHeaders, name) && Has(p.resHeaders, name) == Has(q.resHeaders, name)
    ensures name in p.resHeaders <==> name in q.resHeaders
  {
    assert Get(p.resHeaders, name) == Get(q.resHeaders, name);
  }

  lemma AlikeLives(host: Host, p: Policy, q: Policy)
    requires Alike(p, q)
    ensures Storable(p) == Storable(q) && PrivateCookie(p) == PrivateCookie(q)
    ensures MaxAge(host, p) == MaxAge(host, q)
  {
    AlikeReads(p, q, "expires");
    AlikeReads(p, q, "set-cookie");
    AlikeReads(p, q, "vary");
    AlikeReads(p, q, "date");
    AlikeReads(p, q, "last-modified");
  }

  lemma AlikeMatches(p: Policy, q: Policy, r: Request)
    requires Alike(p, q)
    ensures RequestMatches(p, r, false) == RequestMatches(q, r, false)
  {
    AlikeReads(p, q, "vary");
    assert VaryMatches(p, r) == VaryMatches(q, r);
  }

  lemma AlikeReuse(host: Host, p: Policy, q: Policy, now: real)
    requires Alike(p, q)
    ensures Age(p, now) == Age(q, now) && MaxAge(host, p) == MaxAge(host, q) && Stale(host, p, now) == Stale(host, q, now)
    ensures AllowsUnvalidatedReuse(host, p, now) == AllowsUnvalidatedReuse(host, q, now)
    ensures UseStaleWhileRevalidate(host, p, now) == UseStaleWhileRevalidate(host, q, now)
  {
    AlikeLives(host, p, q);
    AlikeReads(p, q, "age");
  }

  lemma AlikeEvaluate(host: Host, p: Policy, q: Policy, r: Request, now: real)
    requires Alike(p, q)
    ensures Evaluate(host, p, r, now) == Evaluate(host, q, r, now) && Age(p, now) == Age(q, now)
  {
    AlikeMatches(p, q, r);
    AlikeReuse(host, p, q, now);
  }

  predicate Letters(s: string) {
    s != "" && forall i :: 0 <= i < |s| ==> 'a' <= s[i] <= 'z' || s[i] == '-'
  }

  lemma LettersArePlain(s: string)
    requires Letters(s)
    ensures Plain(s)
  {
    assert PROTO[0] == '_';
  }

  lemma RestrictiveIsLetters(directive: string)
    requires Restrictive(directive)
    ensures Letters(directive)
  {
  }

  lemma RestrictiveIsPlain(directive: string)
    requires Restrictive(directive)
    ensures Plain(directive) && directive != "pre-check" && directive != "post-check"
  {
    RestrictiveIsLetters(directive);
    LettersArePlain(directive);
  }

  lemma AddedParses(res: Response, directive: string)
    requires Restrictive(directive)
    ensures Parse(Get(Adding(res, directive).headers, "cache-control")) ==
            Parse(Get(res.headers, "cache-control"))[directive := Flag]
  {
    RestrictiveIsPlain(directive);
    if Has(res.headers, "cache-control") {
      ParseOneMore(res.headers["cache-control"], directive);
    } else {
      ParseAlone(directive);
    }
  }

  lemma AddedStored(req: Request, res: Response, o: Options, directive: string, now: real)
    requires Restrictive(directive)
    ensures Alike(With(Stored(req, res, o, now), directive), Stored(req, Adding(res, directive), o, now))
  {
    AddedParses(res, directive);
    assert Has(Adding(res, directive).headers, "vary") == Has(res.headers, "vary");
  }

  lemma AddedIsCargoAlike(req: Request, res: Response, o: Options, directive: string, now: real)
    requires Restrictive(directive)
    ensures CargoCult(Stored(req, Adding(res, directive), o, now)) == CargoCult(Stored(req, res, o, now))
  {
    AddedParses(res, directive);
    RestrictiveIsPlain(directive);
  }

  lemma UncargoedAlike(p: Policy, q: Policy, directive: string, order: seq<string>, longer: seq<string>)
    requires forall key :: key in order ==> key in p.rescc
    requires forall key :: key in longer ==> key in q.rescc
    requires Alike(With(p, directive), q)
    ensures Alike(if Cargo(directive) then Uncargoed(p, order) else With(Uncargoed(p, order), directive), Uncargoed(q, longer))
  {
    WithoutCargoAdded(p.rescc, directive);
    var a, b := Uncargoed(p, order), Uncargoed(q, longer);
    forall name | name != "cache-control" && name != "pragma" ensures Get(a.resHeaders, name) == Get(b.resHeaders, name) {
      AlikeReads(With(p, directive), q, name);
      UncargoedReads(p, order, name);
      UncargoedReads(q, longer, name);
    }
  }

  lemma UncargoedReads(p: Policy, order: seq<string>, name: string)
    requires forall key :: key in order ==> key in p.rescc
    requires name != "cache-control" && name != "pragma"
    ensures Get(Uncargoed(p, order).resHeaders, name) == if name == "expires" then None else Get(p.resHeaders, name)
  {
  }

  /** Without the pragma rule, a directive added to the response is one added to the policy, or is taken out again. */
  lemma AddedIsWith(req: Request, res: Response, o: Options, directive: string, now: real)
    requires Restrictive(directive) && !PragmaCounts(res.headers)
    ensures var p, q := Built(req, res, o, now), Built(req, Adding(res, directive), o, now);
            Alike(if TakenOut(res, o, directive) then p else With(p, directive), q)
  {
    AddedStored(req, res, o, directive, now);
    AddedIsCargoAlike(req, res, o, directive, now);
    var stored, added := Stored(req, res, o, now), Stored(req, Adding(res, directive), o, now);
    if CargoCult(stored) {
      var order, longer := Keys(Get(res.headers, "cache-control")), Keys(Get(Adding(res, directive).headers, "cache-control"));
      KeysListParsed(Get(res.headers, "cache-control"));
      KeysListParsed(Get(Adding(res, directive).headers, "cache-control"));
      UncargoedAlike(stored, added, directive, order, longer);
    }
  }

  lemma WithoutCargoAdded(cc: Directives, directive: string)
    ensures WithoutCargo(cc[directive := Flag]) == if Cargo(directive) then WithoutCargo(cc) else WithoutCargo(cc)[directive := Flag]
  {
  }

  /** With the pragma rule, the added header switches the rule off. */
  lemma AddedSwitchesPragmaOff(req: Request, res: Response, o: Options, directive: string, now: real)
    requires Restrictive(directive) && PragmaCounts(res.headers)
    ensures Alike(With(Built(req, WithoutPragma(res), o, now), directive), Built(req, Adding(res, directive), o, now))
    ensures On(Built(req, res, o, now).rescc, "no-cache")
  {
    AddedStored(req, res, o, directive, now);
    AddedIsCargoAlike(req, res, o, directive, now);
  }

  /**
   At every age a directive added to the response answers as one more stored directive: of the same
   response, or of the response without its pragma if the pragma rule was in force.
   */
  lemma AddedAnswersAsStored(host: Host, req: Request, res: Response, o: Options, directive: string, built: real, r: Request, now: real)
    requires Restrictive(directive)
    ensures var p, q := Built(req, res, o, built), Built(req, Adding(res, directive), o, built);
            Evaluate(host, q, r, now) ==
            if TakenOut(res, o, directive) then Evaluate(host, p, r, now)
            else if PragmaCounts(res.headers) then
              Evaluate(host, With(Built(req, WithoutPragma(res), o, built), directive), r, now)
            else Evaluate(host, With(p, directive), r, now)
  {
    var p, q := Built(req, res, o, built), Built(req, Adding(res, directive), o, built);
    if PragmaCounts(res.headers) {
      AddedSwitchesPragmaOff(req, res, o, directive, built);
      AlikeEvaluate(host, With(Built(req, WithoutPragma(res), o, built), directive), q, r, now);
    } else {
      AddedIsWith(req, res, o, directive, built);
      AlikeEvaluate(host, if TakenOut(res, o, directive) then p else With(p, directive), q, r, now);
    }
  }

  lemma AddedUnderPragma(host: Host, req: Request, res: Response, o: Options, directive: string, built: real, r: Request, now: real)
    requires Restrictive(directive) && Age(Built(req, res, o, built), now) >= 0.0 && PragmaCounts(res.headers)
    ensures var plain := Built(req, WithoutPragma(res), o, built);
            Evaluate(host, Built(req, Adding(res, directive), o, built), r, now) ==
            if plain.shared || BindsEveryCache(directive) then Miss else Evaluate(host, plain, r, now)
  {
    AddedAnswersAsStored(host, req, res, o, directive, built, r, now);
    PragmaTakesNothingOut(res, o, directive);
    PragmaKeepsAge(req, res, o, built, now);
    RestrictiveDirectivesOnlyRestrict(host, Built(req, WithoutPragma(res), o, built), directive, r, now);
  }

  lemma PragmaKeepsAge(req: Request, res: Response, o: Options, built: real, now: real)
    requires PragmaCounts(res.headers)
    ensures Age(Built(req, WithoutPragma(res), o, built), now) == Age(Built(req, res, o, built), now)
  {
  }

  lemma PragmaTakesNothingOut(res: Response, o: Options, directive: string)
    requires PragmaCounts(res.headers)
    ensures !TakenOut(res, o, directive)
  {
  }

  lemma AddedWithoutPragma(host: Host, req: Request, res: Response, o: Options, directive: string, built: real, r: Request, now: real)
    requires Restrictive(directive) && Age(Built(req, res, o, built), now) >= 0.0 && !PragmaCounts(res.headers)
    ensures var p := Built(req, res, o, built);
            Evaluate(host, Built(req, Adding(res, directive), o, built), r, now) ==
            if !TakenOut(res, o, directive) && (p.shared || BindsEveryCache(directive)) then Miss else Evaluate(host, p, r, now)
  {
    AddedAnswersAsStored(host, req, res, o, directive, built, r, now);
    if !TakenOut(res, o, directive) {
      RestrictiveDirectivesOnlyRestrict(host, Built(req, res, o, built), directive, r, now);
    }
  }

  /**
   Adding a restrictive directive to a response, at a nonnegative age: no change when the legacy option
   takes it out; a miss when it binds; else no change, unless there was no Cache-Control header and a
   no-cache pragma, which the new header switches off.
   */
  lemma AddedDirective(host: Host, req: Request, res: Response, o: Options, directive: string, built: real, r: Request, now: real)
    requires Restrictive(directive) && Age(Built(req, res, o, built), now) >= 0.0
    ensures var p, q := Built(req, res, o, built), Built(req, Adding(res, directive), o, built);
            Evaluate(host, q, r, now) ==
            if TakenOut(res, o, directive) then Evaluate(host, p, r, now)
            else if p.shared || BindsEveryCache(directive) then Miss
            else if PragmaCounts(res.headers) then Evaluate(host, Built(req, WithoutPragma(res), o, built), r, now)
            else Evaluate(host, p, r, now)
  {
    if PragmaCounts(res.headers) {
      PragmaTakesNothingOut(res, o, directive);
      AddedUnderPragma(host, req, res, o, directive, built, r, now);
    } else {
      AddedWithoutPragma(host, req, res, o, directive, built, r, now);
    }
  }

  /**
   So it improves an answer exactly when the pragma rule was in force, the cache is private, the directive
   is private or proxy-revalidate, and the response would be served if it had no pragma.
   */
  lemma AddedDirectiveHelpsExactly(host: Host, req: Request, res: Response, o: Options, directive: string, built: real,
                                   r: Request, now: real)
    requires Restrictive(directive) && Age(Built(req, res, o, built), now) >= 0.0
    ensures var p, q := Built(req, res, o, built), Built(req, Adding(res, directive), o, built);
            Rank(Evaluate(host, q, r, now)) > Rank(Evaluate(host, p, r, now)) <==>
            PragmaCounts(res.headers) && o.shared == Some(false) && !BindsEveryCache(directive) &&
            Evaluate(host, Built(req, WithoutPragma(res), o, built), r, now) != Miss
  {
    AddedDirective(host, req, res, o, directive, built, r, now);
    if PragmaCounts(res.headers) {
      AddedSwitchesPragmaOff(req, res, o, directive, built);
    }
  }

  function AddingAll(res: Response, directives: seq<string>): Response
    decreases |directives|
  {
    if directives == [] then res else AddingAll(Adding(res, directives[0]), directives[1..])
  }

  /** A directive that stays in and binds the cache. */
  predicate Binds(res: Response, o: Options, directive: string) {
    !TakenOut(res, o, directive) && (o.shared != Some(false) || BindsEveryCache(directive))
  }

  predicate SomeBinds(res: Response, o: Options, directives: seq<string>) {
    exists i :: 0 <= i < |directives| && Binds(res, o, directives[i])
  }

  lemma SomeBindsFirst(res: Response, o: Options, directives: seq<string>)
    requires directives != []
    ensures SomeBinds(res, o, directives) <==> Binds(res, o, directives[0]) || SomeBinds(res, o, directives[1..])
  {
    if i :| 0 <= i < |directives| && Binds(res, o, directives[i]) {
      assert i > 0 ==> directives[1..][i - 1] == directives[i];
    }
    if i :| 0 <= i < |directives[1..]| && Binds(res, o, directives[1..][i]) {
      assert directives[i + 1] == directives[1..][i];
    }
  }

  lemma AddingKeepsBinds(res: Response, o: Options, added: string, directives: seq<string>)
    requires Restrictive(added)
    ensures SomeBinds(Adding(res, added), o, directives) == SomeBinds(res, o, directives)
    ensures !PragmaCounts(Adding(res, added).headers)
  {
    AddedParses(res, added);
    RestrictiveIsPlain(added);
    assert forall directive :: Binds(Adding(res, added), o, directive) == Binds(res, o, directive);
  }

  /** Without the pragma rule any number of added restrictive directives give a miss if one binds, and else no change. */
  lemma {:induction false} AddedDirectivesOnlyRestrict(host: Host, req: Request, res: Response, o: Options,
                                                       directives: seq<string>, built: real, r: Request, now: real)
    requires forall i :: 0 <= i < |directives| ==> Restrictive(directives[i])
    requires Age(Built(req, res, o, built), now) >= 0.0 && !PragmaCounts(res.headers)
    ensures Evaluate(host, Built(req, AddingAll(res, directives), o, built), r, now) ==
            if SomeBinds(res, o, directives) then Miss
            else Evaluate(host, Built(req, res, o, built), r, now)
    decreases |directives|
  {
    if directives != [] {
      var first, rest := directives[0], directives[1..];
      var more := Adding(res, first);
      AddedDirective(host, req, res, o, first, built, r, now);
      AddedKeepsAge(req, res, o, first, built, now);
      AddingKeepsBinds(res, o, first, rest);
      AddedDirectivesOnlyRestrict(host, req, more, o, rest, built, r, now);
      SomeBindsFirst(res, o, directives);
    }
  }

  lemma AddedKeepsAge(req: Request, res: Response, o: Options, directive: string, built: real, now: real)
    requires Restrictive(directive) && !PragmaCounts(res.headers)
    ensures Age(Built(req, Adding(res, directive), o, built), now) == Age(Built(req, res, o, built), now)
  {
    AddedIsWith(req, res, o, directive, built);
    var p, q := Built(req, res, o, built), Built(req, Adding(res, directive), o, built);
    AlikeReads(if TakenOut(res, o, directive) then p else With(p, directive), q, "age");
  }

  // A private cache, and a response with a no-cache pragma and an Expires one second from now.
  const PRIVATE_CACHE := Options(Some(false), None, None, false)
  const GET := Request(Some("GET"), None, map[])
  const NO_CACHE_PRAGMA := Response(Some(200), map["pragma" := "no-cache", "expires" := "soon"])

  function SoonAfter(now: real): Host {
    Host((s: string) => Some(now + 1000.0), (s: string) => NotANumber)
  }

  lemma ServedWithoutPragma(now: real)
    ensures var p := Built(GET, WithoutPragma(NO_CACHE_PRAGMA), PRIVATE_CACHE, now);
            !p.shared && Evaluate(SoonAfter(now), p, GET, now) == Hit
  {
    var p := Built(GET, WithoutPragma(NO_CACHE_PRAGMA), PRIVATE_CACHE, now);
    assert p.rescc == map[] && p.reqcc == map[];
    assert Storable(p);
    assert MaxAge(SoonAfter(now), p) == 1.0;
  }

  lemma PragmaMisses(host: Host, req: Request, res: Response, o: Options, built: real, r: Request, now: real)
    requires PragmaCounts(res.headers)
    ensures Evaluate(host, Built(req, res, o, built), r, now) == Miss
  {
    assert On(Built(req, res, o, built).rescc, "no-cache");
  }

  lemma NoCachePragma()
    ensures PragmaCounts(NO_CACHE_PRAGMA.headers) && Restrictive("private") && !BindsEveryCache("private")
  {
    assert Contains("no-cache", "no-cache");
  }

  /** There, adding `private` turns the miss into a hit. */
  lemma PragmaIsSwitchedOff(now: real)
    ensures Evaluate(SoonAfter(now), Built(GET, NO_CACHE_PRAGMA, PRIVATE_CACHE, now), GET, now) == Miss
    ensures Evaluate(SoonAfter(now), Built(GET, Adding(NO_CACHE_PRAGMA, "private"), PRIVATE_CACHE, now), GET, now) == Hit
  {
    var host, p := SoonAfter(now), Built(GET, NO_CACHE_PRAGMA, PRIVATE_CACHE, now);
    NoCachePragma();
    PragmaMisses(host, GET, NO_CACHE_PRAGMA, PRIVATE_CACHE, now, GET, now);
    ServedWithoutPragma(now);
    assert Age(p, now) == 0.0;
    AddedUnderPragma(host, GET, NO_CACHE_PRAGMA, PRIVATE_CACHE, "private", now, GET, now);
  }

  // A shared cache, and a response of a given age and max-age.
  const SHARED_CACHE := Options(Some(true), None, None, false)

  function Aged(age: string, lifetime: string): Response {
    Response(Some(200), map["age" := age, "cache-control" := "max-age" + "=" + lifetime])
  }

  predicate PlainValue(text: string) {
    text != "" && Whole(text) && Trimmed(text) && Unquoted(text)
  }

  lemma MaxAgeIsLetters()
    ensures Letters("max-age") && !Restrictive("max-age")
  {
  }

  lemma AgedParses(lifetime: string)
    requires PlainValue(lifetime)
    ensures Parse(Some("max-age" + "=" + lifetime)) == map["max-age" := Str(lifetime)]
  {
    MaxAgeIsLetters();
    LettersArePlain("max-age");
    ParseOneValue("max-age", lifetime);
  }

  lemma AgedBuilt(age: string, lifetime: string, now: real)
    requires PlainValue(lifetime)
    ensures var p := Built(GET, Aged(age, lifetime), SHARED_CACHE, now);
            p.shared && p.rescc == map["max-age" := Str(lifetime)] && p.reqcc == map[] && p.resHeaders == Aged(age, lifetime).headers
    ensures !PragmaCounts(Aged(age, lifetime).headers)
  {
    AgedParses(lifetime);
  }

  lemma AgedIsStorable(age: string, lifetime: string, now: real)
    requires PlainValue(lifetime)
    ensures Admitted(Built(GET, Aged(age, lifetime), SHARED_CACHE, now))
  {
    AgedBuilt(age, lifetime, now);
    assert On(Built(GET, Aged(age, lifetime), SHARED_CACHE, now).rescc, "max-age");
  }

  lemma MaxAgeAloneGives(host: Host, p: Policy, lifetime: string)
    requires Admitted(p) && p.rescc == map["max-age" := Str(lifetime)] && lifetime != "" && "vary" !in p.resHeaders
    ensures MaxAge(host, p) == Number(lifetime) as real
  {
    assert On(p.rescc, "max-age") && !On(p.rescc, "s-maxage") && !On(p.rescc, "proxy-revalidate");
  }

  lemma AgedLives(host: Host, age: string, lifetime: string, now: real)
    requires PlainValue(lifetime)
    ensures MaxAge(host, Built(GET, Aged(age, lifetime), SHARED_CACHE, now)) == Number(lifetime) as real
  {
    AgedBuilt(age, lifetime, now);
    AgedIsStorable(age, lifetime, now);
    MaxAgeAloneGives(host, Built(GET, Aged(age, lifetime), SHARED_CACHE, now), lifetime);
  }

  lemma AgedIsOld(age: string, lifetime: string, now: real)
    requires PlainValue(lifetime)
    ensures Age(Built(GET, Aged(age, lifetime), SHARED_CACHE, now), now) == Number(age) as real
  {
    AgedBuilt(age, lifetime, now);
  }

  lemma PlainGetIsFree(p: Policy)
    requires p.url == None && p.host == None && p.verb == "GET" && !Has(p.resHeaders, "vary")
    ensures RequestMatches(p, GET, false) && !AsksForValidation(GET) && Parse(Get(GET.headers, "cache-control")) == map[]
  {
  }

  lemma AgedMisses(host: Host, age: string, lifetime: string, now: real)
    requires PlainValue(lifetime) && Number(lifetime) <= Number(age)
    ensures Evaluate(host, Built(GET, Aged(age, lifetime), SHARED_CACHE, now), GET, now) == Miss
  {
    var p := Built(GET, Aged(age, lifetime), SHARED_CACHE, now);
    AgedBuilt(age, lifetime, now);
    AgedLives(host, age, lifetime, now);
    AgedIsOld(age, lifetime, now);
    PlainGetIsFree(p);
    assert NumberOf(p.rescc, "stale-while-revalidate") == 0;
  }

  lemma AgedHits(host: Host, age: string, lifetime: string, now: real)
    requires PlainValue(lifetime) && Number(age) < 0
    ensures Evaluate(host, With(Built(GET, Aged(age, lifetime), SHARED_CACHE, now), "proxy-revalidate"), GET, now) == Hit
  {
    var p := Built(GET, Aged(age, lifetime), SHARED_CACHE, now);
    AgedBuilt(age, lifetime, now);
    AgedIsStorable(age, lifetime, now);
    AgedIsOld(age, lifetime, now);
    PlainGetIsFree(p);
    NegativeAgeEvaluates(host, p, GET, now);
  }

  lemma NegativeNumbers()
    ensures Number("-5") == -5 && Number("-9") == -9 && PlainValue("-9")
  {
    assert "-5"[1..] == "5" && "-9"[1..] == "9";
    assert Digits("5", 0) == 5 && Digits("9", 0) == 9;
  }

  /** Age -5 and max-age -9: adding proxy-revalidate to the header turns the miss into a hit. */
  lemma NegativeAgeLetsProxyRevalidateHelp(host: Host, now: real)
    ensures var res := Aged("-5", "-9");
            Evaluate(host, Built(GET, res, SHARED_CACHE, now), GET, now) == Miss &&
            Evaluate(host, Built(GET, Adding(res, "proxy-revalidate"), SHARED_CACHE, now), GET, now) == Hit
  {
    NegativeNumbers();
    AgedMisses(host, "-5", "-9", now);
    AgedHits(host, "-5", "-9", now);
    AgedBuilt("-5", "-9", now);
    AddedAnswersAsStored(host, GET, Aged("-5", "-9"), SHARED_CACHE, "proxy-revalidate", now, GET, now);
  }

  // ----- Serialization -----

  datatype Serialized = Serialized(
    v: int, t: real, sh: bool, ch: real, imm: Option<real>, icc: bool, st: int, resh: Headers, rescc: Directives,
    m: string, u: Option<string>, h: Option<string>, a: bool, reqh: Option<Headers>, reqcc: Directives)

  datatype Error = InvalidSerialization | ResponseHeadersMissing

  function ToObject(p: Policy): Serialized {
    Serialized(1, p.responseTime, p.shared, p.cacheHeuristic, Some(p.immutableMinTtl), p.ignoreCargoCult, p.status,
               p.resHeaders, p.rescc, p.verb, p.url, p.host, p.noAuthorization, p.reqHeaders, p.reqcc)
  }

  /** `resOrder` and `reqOrder` are the orders in which the keys of the object's two directive maps are met. */
  function FromObject(o: Option<Serialized>, resOrder: seq<string>, reqOrder: seq<string>): Result<Policy, Error>
    requires o.Some? ==> forall key :: key in resOrder ==> key in o.value.rescc
    requires o.Some? ==> forall key :: key in reqOrder ==> key in o.value.reqcc
  {
    if o == None || o.value.v != 1 then Err(InvalidSerialization)
    else
      var s := o.value;
      Ok(Policy(s.t, s.sh, s.ch, OrElse(s.imm, DEFAULT_IMMUTABLE_TTL), s.icc, s.st, s.resh,
                     Normalize(s.rescc, resOrder), s.m, s.u, s.h, s.a, s.reqh, Normalize(s.reqcc, reqOrder)))
  }

  ghost predicate NormalPolicy(p: Policy) {
    Normal(p.rescc) && Normal(p.reqcc)
  }

  /** A policy survives serialization exactly when its directive maps are normal. */
  lemma SerializationRoundTrip(p: Policy, resOrder: seq<string>, reqOrder: seq<string>)
    requires Lists(resOrder, p.rescc) && Lists(reqOrder, p.reqcc)
    ensures FromObject(Some(ToObject(p)), resOrder, reqOrder) == Ok(p) <==> NormalPolicy(p)
  {
    NormalizeSettles(p.rescc, resOrder);
    NormalizeSettles(p.reqcc, reqOrder);
  }

  lemma DeserializedIsNormal(o: Serialized, resOrder: seq<string>, reqOrder: seq<string>)
    requires Lists(resOrder, o.rescc) && Lists(reqOrder, o.reqcc)
    ensures var p := FromObject(Some(o), resOrder, reqOrder);
            (p.Ok? <==> o.v == 1) && (p.Ok? ==> NormalPolicy(p.value))
  {
    NormalizeSettles(o.rescc, resOrder);
    NormalizeSettles(o.reqcc, reqOrder);
  }

  lemma NoCacheIsNormal()
    ensures NormalKey("no-cache") && "no-cache" != PROTO
  {
  }

  /** Every constructed policy is normal, so every one survives serialization. */
  lemma BuiltIsNormal(req: Request, res: Response, o: Options, now: real)
    ensures NormalPolicy(Built(req, res, o, now))
  {
    ParseIsNormal(Get(res.headers, "cache-control"));
    ParseIsNormal(Get(req.headers, "cache-control"));
    NoCacheIsNormal();
  }

  // ----- Revalidation -----

  predicate IsErrorResponse(response: Option<Response>) {
    response == None || (response.value.status.Some? && response.value.status.value in {500, 502, 503, 504})
  }

  predicate IsWeak(etag: string) {
    "W/" <= TrimStart(etag)
  }

  /** The entity tag without its weakness mark. */
  function OpaqueTag(etag: string): string {
    if IsWeak(etag) then TrimStart(etag)[2..] else etag
  }

  /** Does the response select the stored one for update? */
  predicate Selects(p: Policy, req: Request, res: Response) {
    if !RequestMatches(p, req, true) || (res.status.Some? && res.status.value != 304) then false
    else if Has(res.headers, "etag") && !IsWeak(res.headers["etag"]) then
      Has(p.resHeaders, "etag") && OpaqueTag(p.resHeaders["etag"]) == res.headers["etag"]
    else if Has(p.resHeaders, "etag") && Has(res.headers, "etag") then
      OpaqueTag(p.resHeaders["etag"]) == OpaqueTag(res.headers["etag"])
    else if Has(p.resHeaders, "last-modified") then
      Get(p.resHeaders, "last-modified") == Get(res.headers, "last-modified")
    else !Has(p.resHeaders, "etag") && !Has(res.headers, "etag") && !Has(res.headers, "last-modified")
  }

  /** Names every object inherits: looking one up in the table of excluded headers finds something. */
  predicate Inherited(name: string) {
    name in ["constructor", "toString", "toLocaleString", "valueOf", "hasOwnProperty", "isPrototypeOf",
             "propertyIsEnumerable", "__proto__", "__defineGetter__", "__defineSetter__", "__lookupGetter__",
             "__lookupSetter__"]
  }

  predicate DescribesBody(name: string) {
    name in ["content-length", "content-encoding", "transfer-encoding", "content-range"]
  }

  /** The headers an update leaves as they are. */
  predicate Excluded(name: string) {
    DescribesBody(name) || Inherited(name)
  }

  function Merged(stored: Headers, update: Headers): Headers {
    stored + Updates(update, update.Keys)
  }

  /** The headers of an update, among the given names, that replace stored ones. */
  function Updates(update: Headers, names: set<string>): Headers {
    map name | name in update && name in names && !Excluded(name) :: update[name]
  }

  lemma UpdatesOne(stored: Headers, update: Headers, names: set<string>, name: string)
    requires name in update
    ensures stored + Updates(update, names + {name}) ==
            if Excluded(name) then stored + Updates(update, names) else (stored + Updates(update, names))[name := update[name]]
  {
    if Excluded(name) {
      assert Updates(update, names + {name}) == Updates(update, names);
    } else {
      assert Updates(update, names + {name}) == Updates(update, names)[name := update[name]];
    }
  }

  method MergeHeaders(stored: Headers, update: Headers, order: seq<string>) returns (headers: Headers)
    requires forall name :: name in order <==> name in update
    ensures headers == Merged(stored, update)
  {
    headers := stored;
    ghost var names: set<string> := {};
    assert Updates(update, names) == map[];
    for i := 0 to |order|
      invariant forall name :: name in names <==> name in order[..i]
      invariant headers == stored + Updates(update, names)
    {
      UpdatesOne(stored, update, names, order[i]);
      if !Excluded(order[i]) {
        headers := headers[order[i] := update[order[i]]];
      }
      names := names + {order[i]};
      assert order[..i + 1] == order[..i] + [order[i]];
    }
    assert order[..|order|] == order;
    assert names == update.Keys;
  }

  datatype Revalidated = Revalidated(policy: Policy, modified: bool, matches: bool)

  function OptionsOf(p: Policy): Options {
    Options(Some(p.shared), Some(p.cacheHeuristic), Some(p.immutableMinTtl), p.ignoreCargoCult)
  }

  function Updated(p: Policy, req: Request, res: Response, now: real): Policy {
    Built(req, Response(Some(p.status), Merged(p.resHeaders, res.headers)), OptionsOf(p), now)
  }

  function Revalidate(host: Host, p: Policy, req: Request, response: Option<Response>, now: real): Result<Revalidated, Error> {
    if RequestMatches(p, req, true) && UseStaleIfError(host, p, now) && IsErrorResponse(response) then
      Ok(Revalidated(p, false, true))
    else if response == None then Err(ResponseHeadersMissing)
    else if !Selects(p, req, response.value) then
      Ok(Revalidated(Built(req, response.value, OptionsOf(p), now),
                          response.value.status != Some(304) || !RequestMatches(p, req, true), false))
    else Ok(Revalidated(Updated(p, req, response.value, now), false, true))
  }

  method RevalidatedPolicy(host: Host, p: Policy, req: Request, response: Option<Response>, order: seq<string>, now: real)
    returns (r: Result<Revalidated, Error>)
    requires response.Some? ==> forall name :: name in order <==> name in response.value.headers
    ensures r == Revalidate(host, p, req, response, now)
  {
    if RequestMatches(p, req, true) && UseStaleIfError(host, p, now) && IsErrorResponse(response) {
      return Ok(Revalidated(p, false, true));
    }
    if response == None {
      return Err(ResponseHeadersMissing);
    }
    var res := response.value;
    if !Selects(p, req, res) {
      var replaced := CreatePolicy(req, res, OptionsOf(p), now);
      return Ok(Revalidated(replaced, res.status != Some(304) || !RequestMatches(p, req, true), false));
    }
    var headers := MergeHeaders(p.resHeaders, res.headers, order);
    var updated := CreatePolicy(req, Response(Some(p.status), headers), OptionsOf(p), now);
    return Ok(Revalidated(updated, false, true));
  }

  /** A 304 whose strong entity tag differs from the stored opaque tag never updates the stored response (section 4.3.4 of RFC 9111). */
  lemma StrongTagSelects(host: Host, p: Policy, req: Request, res: Response, now: real)
    requires !IsErrorResponse(Some(res))
    requires Has(res.headers, "etag") && !IsWeak(res.headers["etag"])
    ensures var r := Revalidate(host, p, req, Some(res), now);
            r.Ok? &&
            (r.value.matches ==> Has(p.resHeaders, "etag") && OpaqueTag(p.resHeaders["etag"]) == res.headers["etag"])
  {
  }

  /** The updated policy answers for the method of the revalidation request, not for that of the stored response. */
  lemma UpdatedVerb(p: Policy, req: Request, res: Response, now: real)
    ensures Updated(p, req, res, now).verb == p.verb <==> req.verb == Some(p.verb) || (req.verb == None && p.verb == "GET")
  {
  }

  /** So a stored GET response that was revalidated by a HEAD request misses for every later GET. */
  lemma HeadRevalidationLosesTheGet(host: Host, p: Policy, head: Request, res: Response, now: real, get: Request, later: real)
    requires p.verb == "GET" && head.verb == Some("HEAD") && get.verb == Some("GET")
    requires !IsErrorResponse(Some(res)) && Selects(p, head, res)
    ensures var r := Revalidate(host, p, head, Some(res), now);
            r.Ok? && r.value.matches && !r.value.modified &&
            Evaluate(host, r.value.policy, get, later) == Miss
  {
    assert Updated(p, head, res, now).verb == "HEAD";
  }

  // A stored response that is still fresh, a HEAD request, and a 304 that confirms it.
  const TAGGED := Response(Some(200), map["etag" := "a", "expires" := "soon"])
  const HEAD := Request(Some("HEAD"), None, map[])
  const CONFIRMED := Response(Some(304), map["etag" := "a"])

  lemma StrongTag()
    ensures !IsWeak("a") && OpaqueTag("a") == "a"
  {
    assert TrimStart("a") == "a";
  }

  lemma TaggedIsServed(now: real)
    ensures var p := Built(GET, TAGGED, PRIVATE_CACHE, now);
            p.verb == "GET" && Evaluate(SoonAfter(now), p, GET, now) == Hit
  {
    var p := Built(GET, TAGGED, PRIVATE_CACHE, now);
    assert p.rescc == map[] && p.reqcc == map[];
    assert MaxAge(SoonAfter(now), p) == 1.0;
  }

  lemma HeadSelects(now: real)
    ensures Selects(Built(GET, TAGGED, PRIVATE_CACHE, now), HEAD, CONFIRMED)
  {
    StrongTag();
  }

  /** There, a fresh GET response is served, is confirmed by a HEAD request, and is not served any more. */
  lemma HeadRevalidationHappens(now: real)
    ensures var host, p := SoonAfter(now), Built(GET, TAGGED, PRIVATE_CACHE, now);
            var r := Revalidate(host, p, HEAD, Some(CONFIRMED), now);
            && Evaluate(host, p, GET, now) == Hit
            && r.Ok? && r.value.matches && !r.value.modified
            && Evaluate(host, r.value.policy, GET, now) == Miss
  {
    TaggedIsServed(now);
    HeadSelects(now);
    HeadRevalidationLosesTheGet(SoonAfter(now), Built(GET, TAGGED, PRIVATE_CACHE, now), HEAD, CONFIRMED, now, GET, now);
  }

  // ----- Runs of revalidations -----

  datatype Exchange = Exchange(request: Request, response: Option<Response>, now: real)

  /** The policy after a run of exchanges, or none if one of them failed or did not match. */
  function Follow(host: Host, p: Policy, run: seq<Exchange>): Option<Policy> {
    if run == [] then Some(p)
    else
      var last := |run| - 1;
      var before := Follow(host, p, run[..last]);
      if before == None then None
      else
        var r := Revalidate(host, before.value, run[last].request, run[last].response, run[last].now);
        if r.Ok? && r.value.matches then Some(r.value.policy) else None
  }

  lemma FollowFront(host: Host, p: Policy, run: seq<Exchange>)
    requires run != [] && Follow(host, p, run).Some?
    ensures Follow(host, p, run[..|run| - 1]).Some?
  {
  }

  /** The value a matched exchange carried for a header: an error answered from the cache carries none. */
  function Carried(e: Exchange, name: string): Option<string> {
    if IsErrorResponse(e.response) then None else Get(e.response.value.headers, name)
  }

  /** The latest value carried in a run, or the original one. */
  function Latest(run: seq<Exchange>, name: string, original: Option<string>): Option<string> {
    if run == [] then original
    else if Carried(run[|run| - 1], name).Some? then Carried(run[|run| - 1], name)
    else Latest(run[..|run| - 1], name, original)
  }

  /** The headers that the legacy option may rewrite when a policy is built. */
  predicate Rewritten(p: Policy, name: string) {
    p.ignoreCargoCult && (name == "cache-control" || name == "expires" || name == "pragma")
  }

  lemma UncargoedKeeps(p: Policy, order: seq<string>, name: string)
    requires forall key :: key in order ==> key in p.rescc
    ensures name != "cache-control" && name != "expires" && name != "pragma" ==>
            Get(Uncargoed(p, order).resHeaders, name) == Get(p.resHeaders, name)
  {
  }

  lemma BuiltKeeps(req: Request, res: Response, o: Options, now: real, name: string)
    ensures var q := Built(req, res, o, now);
            q.ignoreCargoCult == o.ignoreCargoCult && q.status == OrElse(res.status, 200) &&
            (!Rewritten(q, name) ==> Get(q.resHeaders, name) == Get(res.headers, name))
  {
    var stored, order := Stored(req, res, o, now), Keys(Get(res.headers, "cache-control"));
    KeysListParsed(Get(res.headers, "cache-control"));
    if CargoCult(stored) {
      UncargoedKeeps(stored, order, name);
    }
  }

  lemma MergedAt(stored: Headers, update: Headers, name: string)
    ensures Get(Merged(stored, update), name) ==
            if name in update && !Excluded(name) then Some(update[name]) else Get(stored, name)
  {
  }

  lemma UpdatedKeeps(p: Policy, req: Request, res: Response, now: real, name: string)
    ensures var q := Updated(p, req, res, now);
            q.ignoreCargoCult == p.ignoreCargoCult && q.status == p.status &&
            (!Rewritten(p, name) ==>
               Get(q.resHeaders, name) ==
               if name in res.headers && !Excluded(name) then Some(res.headers[name]) else Get(p.resHeaders, name))
  {
    BuiltKeeps(req, Response(Some(p.status), Merged(p.resHeaders, res.headers)), OptionsOf(p), now, name);
    MergedAt(p.resHeaders, res.headers, name);
  }

  /** One matched exchange leaves the policy alone or updates it. */
  lemma MatchedExchange(host: Host, p: Policy, e: Exchange)
    requires Revalidate(host, p, e.request, e.response, e.now).Ok?
    requires Revalidate(host, p, e.request, e.response, e.now).value.matches
    ensures var q := Revalidate(host, p, e.request, e.response, e.now).value.policy;
            if IsErrorResponse(e.response) then q == p
            else Selects(p, e.request, e.response.value) && q == Updated(p, e.request, e.response.value, e.now)
  {
  }

  /**
   Over any run of matched revalidations the status and the headers that describe the body stay those of
   the original response, and every other header is the latest one carried; a header with an inherited
   name stays too.  `RunCleansLegacyHeaders` speaks of the three headers that the legacy option rewrites.
   */
  lemma {:induction false} RunKeepsBodyAndTakesLatest(host: Host, p: Policy, run: seq<Exchange>, name: string)
    requires Follow(host, p, run).Some?
    ensures var q := Follow(host, p, run).value;
            q.ignoreCargoCult == p.ignoreCargoCult && q.status == p.status &&
            (!Rewritten(p, name) ==>
               Get(q.resHeaders, name) ==
               if Excluded(name) then Get(p.resHeaders, name) else Latest(run, name, Get(p.resHeaders, name)))
  {
    if run != [] {
      var last := |run| - 1;
      RunKeepsBodyAndTakesLatest(host, p, run[..last], name);
      var before := Follow(host, p, run[..last]).value;
      MatchedExchange(host, before, run[last]);
      if !IsErrorResponse(run[last].response) {
        UpdatedKeeps(before, run[last].request, run[last].response.value, run[last].now, name);
      }
    }
  }

  // The three headers that the legacy option rewrites.

  /** A Cache-Control text with both directives of copied-and-pasted Cache-Control headers. */
  predicate Legacy(text: Option<string>) {
    "pre-check" in Parse(text) && "post-check" in Parse(text)
  }

  /** Such a text without its superfluous directives. */
  function Cleaned(text: Option<string>): Option<string> {
    KeysListParsed(text);
    if Legacy(text) then Format(WithoutCargo(Parse(text)), KeysWithoutCargo(Keys(text))) else text
  }

  lemma {:induction false} KeptKeysDiffer(order: seq<string>)
    requires forall i, j :: 0 <= i < j < |order| ==> order[i] != order[j]
    ensures forall i, j :: 0 <= i < j < |KeysWithoutCargo(order)| ==> KeysWithoutCargo(order)[i] != KeysWithoutCargo(order)[j]
  {
    if order != [] {
      KeptKeysDiffer(order[1..]);
      var rest := KeysWithoutCargo(order[1..]);
      assert forall j :: 0 <= j < |rest| ==> rest[j] in rest;
    }
  }

  lemma KeptKeysList(cc: Directives, order: seq<string>)
    requires Lists(order, cc)
    ensures Lists(KeysWithoutCargo(order), WithoutCargo(cc))
  {
    KeptKeysDiffer(order);
  }

  /** What has been cleaned is not cleaned again: it has lost both legacy directives. */
  lemma CleanedIsNotLegacy(text: Option<string>)
    ensures !Legacy(Cleaned(text)) && Cleaned(Cleaned(text)) == Cleaned(text)
  {
    if Legacy(text) {
      var cc, order := Parse(text), Keys(text);
      KeysListParsed(text);
      ParseIsNormal(text);
      KeptKeysList(cc, order);
      if WithoutCargo(cc) != EMPTY_FLAG {
        ParsePrinted(WithoutCargo(cc), KeysWithoutCargo(order), "pre-check");
      } else {
        EmptyKeyAloneIsLost(KeysWithoutCargo(order));
      }
      assert Cargo("pre-check");
    }
  }

  /** The value a header has once an exchange is merged. */
  function CarriedOr(e: Exchange, name: string, before: Option<string>): Option<string> {
    if Carried(e, name).Some? then Carried(e, name) else before
  }

  /** Cache-Control after a run: each update cleans what it merged. */
  function CleanedAlong(run: seq<Exchange>, cacheControl: Option<string>): Option<string> {
    if run == [] then cacheControl
    else
      var last := |run| - 1;
      var before := CleanedAlong(run[..last], cacheControl);
      if IsErrorResponse(run[last].response) then before else Cleaned(CarriedOr(run[last], "cache-control", before))
  }

  /** Expires or Pragma after a run: a legacy Cache-Control drops it. */
  function DroppedAlong(run: seq<Exchange>, name: string, cacheControl: Option<string>, value: Option<string>): Option<string> {
    if run == [] then value
    else
      var last := |run| - 1;
      var before := DroppedAlong(run[..last], name, cacheControl, value);
      if IsErrorResponse(run[last].response) then before
      else if Legacy(CarriedOr(run[last], "cache-control", CleanedAlong(run[..last], cacheControl))) then None
      else CarriedOr(run[last], name, before)
  }

  lemma UncargoedRewrites(p: Policy, order: seq<string>)
    requires forall key :: key in order ==> key in p.rescc
    ensures var q := Uncargoed(p, order);
            Get(q.resHeaders, "cache-control") == Format(WithoutCargo(p.rescc), KeysWithoutCargo(order)) &&
            Get(q.resHeaders, "expires") == None && Get(q.resHeaders, "pragma") == None
  {
  }

  lemma BuiltRewrites(req: Request, res: Response, o: Options, now: real)
    requires o.ignoreCargoCult
    ensures var q, text := Built(req, res, o, now), Get(res.headers, "cache-control");
            Get(q.resHeaders, "cache-control") == Cleaned(text) &&
            Get(q.resHeaders, "expires") == (if Legacy(text) then None else Get(res.headers, "expires")) &&
            Get(q.resHeaders, "pragma") == if Legacy(text) then None else Get(res.headers, "pragma")
  {
    var stored, order := Stored(req, res, o, now), Keys(Get(res.headers, "cache-control"));
    KeysListParsed(Get(res.headers, "cache-control"));
    if CargoCult(stored) {
      UncargoedRewrites(stored, order);
    }
  }

  lemma LegacyNamesAreMerged(p: Policy, e: Exchange, name: string)
    requires !IsErrorResponse(e.response)
    requires name == "cache-control" || name == "expires" || name == "pragma"
    ensures Get(Merged(p.resHeaders, e.response.value.headers), name) == CarriedOr(e, name, Get(p.resHeaders, name))
  {
    MergedAt(p.resHeaders, e.response.value.headers, name);
    LegacyNamesAreNotExcluded(name);
  }

  lemma LegacyNamesAreNotExcluded(name: string)
    requires name == "cache-control" || name == "expires" || name == "pragma"
    ensures !Excluded(name)
  {
  }

  /** An update with the legacy option on, exactly. */
  lemma UpdatedRewrites(p: Policy, e: Exchange)
    requires !IsErrorResponse(e.response) && p.ignoreCargoCult
    ensures var q := Updated(p, e.request, e.response.value, e.now);
            var text := CarriedOr(e, "cache-control", Get(p.resHeaders, "cache-control"));
            Get(q.resHeaders, "cache-control") == Cleaned(text) &&
            Get(q.resHeaders, "expires") == (if Legacy(text) then None else CarriedOr(e, "expires", Get(p.resHeaders, "expires"))) &&
            Get(q.resHeaders, "pragma") == if Legacy(text) then None else CarriedOr(e, "pragma", Get(p.resHeaders, "pragma"))
  {
    LegacyNamesAreMerged(p, e, "cache-control");
    LegacyNamesAreMerged(p, e, "expires");
    LegacyNamesAreMerged(p, e, "pragma");
    BuiltRewrites(e.request, Response(Some(p.status), Merged(p.resHeaders, e.response.value.headers)), OptionsOf(p), e.now);
  }

  /** With the legacy option on, the three headers over any run of matched revalidations. */
  lemma {:induction false} RunCleansLegacyHeaders(host: Host, p: Policy, run: seq<Exchange>)
    requires Follow(host, p, run).Some? && p.ignoreCargoCult
    ensures var q, text := Follow(host, p, run).value, Get(p.resHeaders, "cache-control");
            Get(q.resHeaders, "cache-control") == CleanedAlong(run, text) &&
            Get(q.resHeaders, "expires") == DroppedAlong(run, "expires", text, Get(p.resHeaders, "expires")) &&
            Get(q.resHeaders, "pragma") == DroppedAlong(run, "pragma", text, Get(p.resHeaders, "pragma"))
  {
    if run != [] {
      var front, e := run[..|run| - 1], run[|run| - 1];
      FollowFront(host, p, run);
      RunCleansLegacyHeaders(host, p, front);
      RunKeepsBodyAndTakesLatest(host, p, front, "etag");
      var before := Follow(host, p, front).value;
      MatchedExchange(host, before, e);
      if !IsErrorResponse(e.response) {
        UpdatedRewrites(before, e);
      }
    }
  }

  /** A header called `constructor` is one that a 304 cannot update. */
  lemma InheritedNameIsNotUpdated()
    ensures Merged(map["constructor" := "old"], map["constructor" := "new"]) == map["constructor" := "old"]
  {
  }

  /** No exchange of the run carries an empty entity tag. */
  ghost predicate TagsFilled(run: seq<Exchange>) {
    forall i :: 0 <= i < |run| ==> Carried(run[i], "etag") != Some("")
  }

  /** The stored response still has the opaque tag of the original one. */
  predicate SameTag(p: Policy, q: Policy) {
    Has(p.resHeaders, "etag") && Has(q.resHeaders, "etag") &&
    OpaqueTag(q.resHeaders["etag"]) == OpaqueTag(p.resHeaders["etag"])
  }

  /** A strong tag carried in the exchange is the opaque tag of the stored response. */
  predicate StrongTagAgrees(p: Policy, e: Exchange) {
    Has(p.resHeaders, "etag") &&
    (Carried(e, "etag").Some? && !IsWeak(Carried(e, "etag").value) ==>
       Carried(e, "etag").value == OpaqueTag(p.resHeaders["etag"]))
  }

  lemma {:induction false} FollowPrefix(host: Host, p: Policy, run: seq<Exchange>, n: nat)
    requires Follow(host, p, run).Some? && n <= |run|
    ensures Follow(host, p, run[..n]).Some?
    decreases |run|
  {
    if n == |run| {
      assert run[..n] == run;
    } else {
      FollowFront(host, p, run);
      FollowPrefix(host, p, run[..|run| - 1], n);
      assert run[..|run| - 1][..n] == run[..n];
    }
  }

  lemma {:induction false} RunKeepsTag(host: Host, p: Policy, run: seq<Exchange>)
    requires Has(p.resHeaders, "etag") && TagsFilled(run)
    requires Follow(host, p, run).Some?
    ensures SameTag(p, Follow(host, p, run).value)
  {
    if run != [] {
      var last := |run| - 1;
      RunKeepsTag(host, p, run[..last]);
      var before := Follow(host, p, run[..last]).value;
      ExchangeKeepsTag(host, before, run[last]);
      TagChain(p, before, Follow(host, p, run).value, run[last]);
    }
  }

  /** The stored response keeps its opaque tag through a run, and every strong tag carried in it is that tag. */
  lemma RunKeepsOpaqueTag(host: Host, p: Policy, run: seq<Exchange>)
    requires Has(p.resHeaders, "etag") && TagsFilled(run)
    requires Follow(host, p, run).Some?
    ensures SameTag(p, Follow(host, p, run).value)
    ensures forall i :: 0 <= i < |run| ==> StrongTagAgrees(p, run[i])
  {
    RunKeepsTag(host, p, run);
    forall i | 0 <= i < |run| ensures StrongTagAgrees(p, run[i]) {
      FollowPrefix(host, p, run, i);
      FollowPrefix(host, p, run, i + 1);
      assert run[..i + 1][..i] == run[..i] && run[..i + 1][i] == run[i];
      RunKeepsTag(host, p, run[..i]);
      var before := Follow(host, p, run[..i]).value;
      ExchangeKeepsTag(host, before, run[i]);
      TagChain(p, before, Follow(host, p, run[..i + 1]).value, run[i]);
    }
  }

  lemma TagChain(p: Policy, before: Policy, after: Policy, e: Exchange)
    requires SameTag(p, before) && SameTag(before, after) && StrongTagAgrees(before, e)
    ensures SameTag(p, after) && StrongTagAgrees(p, e)
  {
  }

  lemma ExchangeKeepsTag(host: Host, p: Policy, e: Exchange)
    requires Has(p.resHeaders, "etag") && Carried(e, "etag") != Some("")
    requires Revalidate(host, p, e.request, e.response, e.now).Ok?
    requires Revalidate(host, p, e.request, e.response, e.now).value.matches
    ensures SameTag(p, Revalidate(host, p, e.request, e.response, e.now).value.policy) && StrongTagAgrees(p, e)
  {
    MatchedExchange(host, p, e);
    if !IsErrorResponse(e.response) {
      TagStep(p, e);
    }
  }

  lemma SelectedTag(p: Policy, req: Request, res: Response)
    requires Has(p.resHeaders, "etag") && Has(res.headers, "etag") && Selects(p, req, res)
    ensures OpaqueTag(res.headers["etag"]) == OpaqueTag(p.resHeaders["etag"])
  {
  }

  lemma TagStep(p: Policy, e: Exchange)
    requires !IsErrorResponse(e.response) && Has(p.resHeaders, "etag")
    requires Selects(p, e.request, e.response.value)
    requires Carried(e, "etag") != Some("")
    ensures SameTag(p, Updated(p, e.request, e.response.value, e.now)) && StrongTagAgrees(p, e)
  {
    if Carried(e, "etag").Some? {
      TagIsMerged(p, e);
      SelectedTag(p, e.request, e.response.value);
    } else {
      UpdatedKeeps(p, e.request, e.response.value, e.now, "etag");
    }
  }

  /** After every part of the run. */
  ghost predicate TagStays(host: Host, p: Policy, run: seq<Exchange>) {
    forall n :: 0 <= n <= |run| ==>
      Follow(host, p, run[..n]).Some? && SameTag(p, Follow(host, p, run[..n]).value)
  }

  lemma TagIsMerged(p: Policy, e: Exchange)
    requires Carried(e, "etag").Some?
    ensures Get(Updated(p, e.request, e.response.value, e.now).resHeaders, "etag") == Carried(e, "etag")
  {
    UpdatedKeeps(p, e.request, e.response.value, e.now, "etag");
    TagIsNotExcluded();
  }

  lemma TagIsNotExcluded()
    ensures !Excluded("etag") && !Excluded("last-modified")
  {
  }

  /** An empty entity tag is merged, and then counts as none. */
  lemma EmptyTagAtEnd(host: Host, p: Policy, run: seq<Exchange>)
    requires run != [] && Carried(run[|run| - 1], "etag") == Some("")
    requires Follow(host, p, run).Some?
    ensures !Has(Follow(host, p, run).value.resHeaders, "etag")
  {
    var e := run[|run| - 1];
    var before := Follow(host, p, run[..|run| - 1]).value;
    MatchedExchange(host, before, e);
    TagIsMerged(before, e);
  }

  lemma EmptyTagEndsIt(host: Host, p: Policy, run: seq<Exchange>, i: nat)
    requires i < |run| && Carried(run[i], "etag") == Some("") && Follow(host, p, run).Some?
    ensures !TagStays(host, p, run)
  {
    FollowPrefix(host, p, run, i + 1);
    EmptyTagAtEnd(host, p, run[..i + 1]);
  }

  /** Through a run of matched exchanges the opaque tag stays if and only if no exchange carries an empty tag. */
  lemma TagStaysIff(host: Host, p: Policy, run: seq<Exchange>)
    requires Has(p.resHeaders, "etag") && Follow(host, p, run).Some?
    ensures TagStays(host, p, run) <==> TagsFilled(run)
  {
    if TagsFilled(run) {
      forall n | 0 <= n <= |run|
        ensures Follow(host, p, run[..n]).Some? && SameTag(p, Follow(host, p, run[..n]).value)
      {
        FollowPrefix(host, p, run, n);
        assert TagsFilled(run[..n]);
        RunKeepsOpaqueTag(host, p, run[..n]);
      }
    } else {
      var i :| 0 <= i < |run| && Carried(run[i], "etag") == Some("");
      EmptyTagEndsIt(host, p, run, i);
    }
  }

  // A stored tag, a 304 that carries an empty one, and a 304 that carries another one.
  const DATED := Response(Some(200), map["etag" := "a", "last-modified" := "m"])
  const UNTAGGED := Response(Some(304), map["etag" := "", "last-modified" := "m"])
  const RETAGGED := Response(Some(304), map["etag" := "W/b", "last-modified" := "m"])

  function DatedPolicy(now: real): Policy {
    Built(GET, DATED, PRIVATE_CACHE, now)
  }

  lemma UntaggedSelects(now: real)
    ensures Selects(DatedPolicy(now), GET, UNTAGGED)
  {
  }

  lemma SelectedUpdates(host: Host, p: Policy, e: Exchange)
    requires !IsErrorResponse(e.response) && Selects(p, e.request, e.response.value)
    ensures Revalidate(host, p, e.request, e.response, e.now) ==
            Ok(Revalidated(Updated(p, e.request, e.response.value, e.now), false, true))
  {
  }

  lemma SelectedNext(host: Host, p: Policy, run: seq<Exchange>, e: Exchange)
    requires Follow(host, p, run).Some? && !IsErrorResponse(e.response)
    requires Selects(Follow(host, p, run).value, e.request, e.response.value)
    ensures Follow(host, p, run + [e]) == Some(Updated(Follow(host, p, run).value, e.request, e.response.value, e.now))
  {
    assert (run + [e])[..|run|] == run;
    SelectedUpdates(host, Follow(host, p, run).value, e);
  }

  /** A matched 304 with an empty entity tag: the run goes on, and the tag is gone. */
  lemma EmptyTagErasesTheTag(host: Host, now: real)
    ensures var run := [Exchange(GET, Some(UNTAGGED), now)];
            Has(DatedPolicy(now).resHeaders, "etag") && Follow(host, DatedPolicy(now), run).Some? &&
            !TagStays(host, DatedPolicy(now), run)
  {
    var e := Exchange(GET, Some(UNTAGGED), now);
    UntaggedSelects(now);
    OneUpdate(host, DatedPolicy(now), e);
    assert [e][0] == e && Carried(e, "etag") == Some("");
    EmptyTagEndsIt(host, DatedPolicy(now), [e], 0);
  }

  lemma UntaggedHeaders(now: real)
    ensures var q := Updated(DatedPolicy(now), GET, UNTAGGED, now);
            Get(q.resHeaders, "etag") == Some("") && Get(q.resHeaders, "last-modified") == Some("m")
  {
    var p := DatedPolicy(now);
    UpdatedKeeps(p, GET, UNTAGGED, now, "etag");
    UpdatedKeeps(p, GET, UNTAGGED, now, "last-modified");
    TagIsNotExcluded();
  }

  lemma UntaggedVaries(now: real)
    ensures !Has(Updated(DatedPolicy(now), GET, UNTAGGED, now).resHeaders, "vary")
  {
    UpdatedKeeps(DatedPolicy(now), GET, UNTAGGED, now, "vary");
  }

  lemma UntaggedMatches(now: real)
    ensures RequestMatches(Updated(DatedPolicy(now), GET, UNTAGGED, now), GET, true)
  {
    UntaggedVaries(now);
    PlainGetIsFree(Updated(DatedPolicy(now), GET, UNTAGGED, now));
  }

  lemma WeakTag()
    ensures IsWeak("W/b") && OpaqueTag("W/b") == "b"
  {
    assert TrimStart("W/b") == "W/b";
  }

  lemma RetaggedSelects(now: real)
    ensures Selects(Updated(DatedPolicy(now), GET, UNTAGGED, now), GET, RETAGGED)
  {
    UntaggedHeaders(now);
    UntaggedMatches(now);
    WeakTag();
  }

  lemma TwoUpdates(host: Host, p: Policy, req: Request, first: Response, second: Response, now: real)
    requires first.status == Some(304) && second.status == Some(304)
    requires Selects(p, req, first) && Selects(Updated(p, req, first, now), req, second)
    ensures Follow(host, p, [Exchange(req, Some(first), now), Exchange(req, Some(second), now)]) ==
            Some(Updated(Updated(p, req, first, now), req, second, now))
  {
    var e, f := Exchange(req, Some(first), now), Exchange(req, Some(second), now);
    OneUpdate(host, p, e);
    SelectedNext(host, p, [e], f);
    TwoAreOneAndOne(e, f);
  }

  lemma TwoAreOneAndOne(e: Exchange, f: Exchange)
    ensures [e] + [f] == [e, f]
  {
  }

  lemma OneUpdate(host: Host, p: Policy, e: Exchange)
    requires !IsErrorResponse(e.response) && Selects(p, e.request, e.response.value)
    ensures Follow(host, p, [e]) == Some(Updated(p, e.request, e.response.value, e.now))
  {
    SelectedNext(host, p, [], e);
    assert [] + [e] == [e];
  }

  lemma RetaggedTag(now: real)
    ensures Get(Updated(Updated(DatedPolicy(now), GET, UNTAGGED, now), GET, RETAGGED, now).resHeaders, "etag") == Some("W/b")
  {
    TagIsMerged(Updated(DatedPolicy(now), GET, UNTAGGED, now), Exchange(GET, Some(RETAGGED), now));
  }

  lemma DatedTag(now: real)
    ensures Get(DatedPolicy(now).resHeaders, "etag") == Some("a") && OpaqueTag("a") != OpaqueTag("W/b")
  {
    StrongTag();
    WeakTag();
  }

  /** After it a 304 with another tag is matched too, so a run of matches ends with a tag that is not the stored one. */
  lemma AnotherTagIsMerged(host: Host, now: real)
    ensures var p := DatedPolicy(now);
            var q := Follow(host, p, [Exchange(GET, Some(UNTAGGED), now), Exchange(GET, Some(RETAGGED), now)]);
            && q.Some? && Get(p.resHeaders, "etag") == Some("a") && Get(q.value.resHeaders, "etag") == Some("W/b")
            && OpaqueTag("a") != OpaqueTag("W/b")
  {
    UntaggedSelects(now);
    RetaggedSelects(now);
    DatedTag(now);
    RetaggedTag(now);
    TwoUpdates(host, DatedPolicy(now), GET, UNTAGGED, RETAGGED, now);
  }
}
