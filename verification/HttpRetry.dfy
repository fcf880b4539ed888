/** The HTTP client's search for a TLS configuration that works: it starts from what the cache
    knows about a host, retries with other settings, and caches the one that succeeded. */
module HttpRetry {
  import opened Common

  datatype Tls = Plain | Native | Rustls

  /** One attempt: the TLS kind, and whether invalid certificates are accepted. */
  datatype Attempt = Attempt(tls: Tls, invalid: bool)

  /** The answer to one attempt. Only a failure to send (not, say, a time-out) is retried. */
  datatype Answer = Response | RequestError | OtherError

  /** The network: what the n-th attempt of a call is answered. */
  type Network = (nat, Attempt) -> Answer

  /** The attempts made, whether there was a response, and what is put in the cache. */
  datatype Result = Result(attempts: seq<Attempt>, ok: bool, cached: Option<Attempt>)

  function Tried(tls: Option<Tls>, invalid: Option<bool>): Attempt {
    Attempt(if tls.Some? then tls.value else Rustls, if invalid.Some? then invalid.value else false)
  }

  function Unknowns(tls: Option<Tls>, invalid: Option<bool>): (nat, nat) {
    (if tls.None? then 1 else 0, if invalid.None? then 1 else 0)
  }

  function Before(a: Attempt, r: Result): Result {
    r.(attempts := [a] + r.attempts)
  }

  /** `post_request_` */
  function PostRequest(net: Network, n: nat, tls: Option<Tls>, invalid: Option<bool>,
                       original: Option<bool>): Result
    decreases Unknowns(tls, invalid).0, Unknowns(tls, invalid).1
  {
    var a := Tried(tls, invalid);
    if tls.Some? && invalid.Some? then
      if net(n, a) == Response then Result([a], true, Some(a)) else Result([a], false, None)
    else
      match net(n, a)
      case Response => Result([a], true, Some(a))
      case RequestError =>
        if invalid.None? then Before(a, PostRequest(net, n + 1, tls, Some(true), original))
        else Before(a, PostRequest(net, n + 1, Some(Native), original, original))
      case OtherError => Result([a], false, None)
  }

  /** `get_http_response_async`: a known method and readable headers, or no attempt at all. */
  function GetResponse(net: Network, n: nat, acceptable: bool, tls: Option<Tls>, invalid: Option<bool>,
                       original: Option<bool>): Result
    decreases Unknowns(tls, invalid).0, Unknowns(tls, invalid).1
  {
    var a := Tried(tls, invalid);
    if !acceptable then Result([], false, None)
    else if tls.Some? && invalid.Some? then
      if net(n, a) == Response then Result([a], true, Some(a)) else Result([a], false, None)
    else if net(n, a) == Response then Result([a], true, Some(a))
    else if net(n, a) == RequestError then
      if invalid.None? then Before(a, GetResponse(net, n + 1, acceptable, tls, Some(true), original))
      else Before(a, GetResponse(net, n + 1, acceptable, Some(Native), original, original))
    else Result([a], false, None)
  }

  lemma {:induction false} SameSearch(net: Network, n: nat, tls: Option<Tls>, invalid: Option<bool>,
                                      original: Option<bool>)
    ensures GetResponse(net, n, true, tls, invalid, original) == PostRequest(net, n, tls, invalid, original)
    decreases Unknowns(tls, invalid).0, Unknowns(tls, invalid).1
  {
    if (tls.None? || invalid.None?) && net(n, Tried(tls, invalid)) == RequestError {
      if invalid.None? {
        SameSearch(net, n + 1, tls, Some(true), original);
      } else {
        SameSearch(net, n + 1, Some(Native), original, original);
      }
    }
  }

  /** The settings a call may try, in order, from what the cache knows. */
  function Plan(tls: Option<Tls>, invalid: Option<bool>): seq<Attempt> {
    var kinds := if tls.Some? then [tls.value] else [Rustls, Native];
    if invalid.Some? then seq(|kinds|, i requires 0 <= i < |kinds| => Attempt(kinds[i], invalid.value))
    else if tls.Some? then [Attempt(tls.value, false), Attempt(tls.value, true)]
    else [Attempt(Rustls, false), Attempt(Rustls, true), Attempt(Native, false), Attempt(Native, true)]
  }

  /** Walking a plan: stop at the first answer that is not a failure to send. */
  function Walk(net: Network, n: nat, plan: seq<Attempt>): Result
    requires |plan| > 0
    decreases |plan|
  {
    var a := plan[0];
    if net(n, a) == Response then Result([a], true, Some(a))
    else if net(n, a) == RequestError && |plan| > 1 then Before(a, Walk(net, n + 1, plan[1..]))
    else Result([a], false, None)
  }

  /** The recursion follows its plan: this is the whole of what it does. */
  lemma PostFollowsPlan(net: Network, tls: Option<Tls>, invalid: Option<bool>)
    ensures PostRequest(net, 0, tls, invalid, invalid) == Walk(net, 0, Plan(tls, invalid))
  {
    if invalid.Some? {
      if tls.None? {
        assert Plan(tls, invalid)[1..] == [Attempt(Native, invalid.value)];
        KnownPair(net, 1, Native, invalid.value, invalid);
      } else {
        KnownPair(net, 0, tls.value, invalid.value, invalid);
      }
    } else if tls.Some? {
      assert Plan(tls, invalid)[1..] == [Attempt(tls.value, true)];
      KnownPair(net, 1, tls.value, true, invalid);
    } else {
      var plan := Plan(tls, invalid);
      assert plan[1..][1..][1..] == [Attempt(Native, true)];
      assert plan[1..][1..] == [Attempt(Native, false), Attempt(Native, true)];
      KnownPair(net, 3, Native, true, invalid);
      assert PostRequest(net, 2, Some(Native), None, None) == Walk(net, 2, plan[1..][1..]);
      assert PostRequest(net, 1, None, Some(true), None) == Walk(net, 1, plan[1..]);
    }
  }

  lemma KnownPair(net: Network, n: nat, tls: Tls, invalid: bool, original: Option<bool>)
    ensures PostRequest(net, n, Some(tls), Some(invalid), original) == Walk(net, n, [Attempt(tls, invalid)])
  {
  }

  predicate NoRepeat(s: seq<Attempt>) {
    forall i, j :: 0 <= i < j < |s| ==> s[i] != s[j]
  }

  /** A search that starts with the n-th request and follows a plan: it goes on only after a failure
      to send, gives up before the plan is through only on another error, and caches exactly the
      attempt that got the response, which is its last. */
  predicate Follows(net: Network, n: nat, plan: seq<Attempt>, r: Result) {
    && 0 < |r.attempts| && r.attempts <= plan
    && (forall i :: 0 <= i < |r.attempts| - 1 ==> net(n + i, r.attempts[i]) == RequestError)
    && (var k := |r.attempts| - 1;
        && r.ok == (net(n + k, r.attempts[k]) == Response)
        && r.cached == (if r.ok then Some(r.attempts[k]) else None)
        && (!r.ok ==> r.attempts == plan || net(n + k, r.attempts[k]) == OtherError))
  }

  lemma FollowsBefore(net: Network, n: nat, plan: seq<Attempt>, rest: Result)
    requires |plan| > 1 && net(n, plan[0]) == RequestError && Follows(net, n + 1, plan[1..], rest)
    ensures Follows(net, n, plan, Before(plan[0], rest))
  {
    var r := Before(plan[0], rest);
    assert plan == [plan[0]] + plan[1..];
    forall i | 0 <= i < |r.attempts| - 1 ensures net(n + i, r.attempts[i]) == RequestError {
      if i > 0 {
        assert r.attempts[i] == rest.attempts[i - 1];
        assert net((n + 1) + (i - 1), rest.attempts[i - 1]) == RequestError;
      }
    }
    assert r.attempts[|r.attempts| - 1] == rest.attempts[|rest.attempts| - 1];
    assert n + (|r.attempts| - 1) == (n + 1) + (|rest.attempts| - 1);
  }

  lemma {:induction false} WalkFollows(net: Network, n: nat, plan: seq<Attempt>)
    requires |plan| > 0
    ensures Follows(net, n, plan, Walk(net, n, plan))
    decreases |plan|
  {
    if net(n, plan[0]) == RequestError && |plan| > 1 {
      WalkFollows(net, n + 1, plan[1..]);
      FollowsBefore(net, n, plan, Walk(net, n + 1, plan[1..]));
    }
  }

  lemma PlanIsShort(tls: Option<Tls>, invalid: Option<bool>)
    ensures 1 <= |Plan(tls, invalid)| <= 4 && NoRepeat(Plan(tls, invalid))
  {
  }

  /** Either version follows its plan, which holds at most four settings, no two alike. */
  lemma SearchIsBounded(net: Network, tls: Option<Tls>, invalid: Option<bool>)
    ensures var r := PostRequest(net, 0, tls, invalid, invalid);
            && GetResponse(net, 0, true, tls, invalid, invalid) == r
            && Follows(net, 0, Plan(tls, invalid), r)
            && 0 < |r.attempts| <= 4 && NoRepeat(r.attempts)
  {
    SameSearch(net, 0, tls, invalid, invalid);
    PostFollowsPlan(net, tls, invalid);
    PlanIsShort(tls, invalid);
    WalkFollows(net, 0, Plan(tls, invalid));
  }

  // The cache

  datatype Cache = Cache(tls: map<string, Tls>, invalid: map<string, bool>)

  /** A plain URL is never cached and needs no search. */
  function CachedTls(c: Cache, domain: string, plain: bool): Option<Tls> {
    if plain then Some(Plain) else if domain in c.tls then Some(c.tls[domain]) else None
  }

  function CachedInvalid(c: Cache, domain: string, plain: bool, allowed: bool): Option<bool> {
    if !allowed || plain then Some(false)
    else if domain in c.invalid then Some(c.invalid[domain]) else None
  }

  function Upsert(c: Cache, domain: string, plain: bool, found: Option<Attempt>): Cache {
    if plain || found.None? then c
    else Cache(c.tls[domain := found.value.tls], c.invalid[domain := found.value.invalid])
  }

  /** A call to a domain: look up, search, remember. `allowed`: insecure certificates may be tried. */
  function Call(net: Network, c: Cache, domain: string, plain: bool, allowed: bool): (Result, Cache) {
    var r := PostRequest(net, 0, CachedTls(c, domain, plain), CachedInvalid(c, domain, plain, allowed),
                         CachedInvalid(c, domain, plain, allowed));
    (r, Upsert(c, domain, plain, r.cached))
  }

  lemma PlanKeepsKnown(tls: Option<Tls>, invalid: Option<bool>, i: nat)
    requires i < |Plan(tls, invalid)|
    ensures tls.Some? ==> Plan(tls, invalid)[i].tls == tls.value
    ensures invalid.Some? ==> Plan(tls, invalid)[i].invalid == invalid.value
  {
  }

  lemma FoundInPlan(net: Network, tls: Option<Tls>, invalid: Option<bool>)
    requires PostRequest(net, 0, tls, invalid, invalid).ok
    ensures var r := PostRequest(net, 0, tls, invalid, invalid);
            && 0 < |r.attempts|
            && r.cached == Some(r.attempts[|r.attempts| - 1])
            && (invalid.Some? ==> r.cached.value.invalid == invalid.value)
  {
    PostFollowsPlan(net, tls, invalid);
    WalkFollows(net, 0, Plan(tls, invalid));
    PlanKeepsKnown(tls, invalid, |PostRequest(net, 0, tls, invalid, invalid).attempts| - 1);
  }

  lemma OneAttempt(net: Network, tls: Tls, invalid: bool)
    ensures PostRequest(net, 0, Some(tls), Some(invalid), Some(invalid)).attempts == [Attempt(tls, invalid)]
  {
  }

  lemma UpsertThenLookup(c: Cache, domain: string, allowed: bool, a: Attempt, d: string)
    requires !allowed ==> !a.invalid
    ensures var c' := Upsert(c, domain, false, Some(a));
            && CachedTls(c', d, false) == (if d == domain then Some(a.tls) else CachedTls(c, d, false))
            && CachedInvalid(c', d, false, allowed)
            == (if d == domain then Some(a.invalid) else CachedInvalid(c, d, false, allowed))
  {
  }

  /** Once a search has succeeded the next call to that domain is a single attempt with the settings
      that worked, whatever the network answers then; other domains are not touched. */
  lemma SuccessIsRemembered(net: Network, net2: Network, c: Cache, domain: string, allowed: bool, d: string)
    requires Call(net, c, domain, false, allowed).0.ok
    ensures var (r, c') := Call(net, c, domain, false, allowed);
            && 0 < |r.attempts|
            && Call(net2, c', domain, false, allowed).0.attempts == [r.attempts[|r.attempts| - 1]]
            && (d != domain ==>
                  CachedTls(c', d, false) == CachedTls(c, d, false)
                  && CachedInvalid(c', d, false, allowed) == CachedInvalid(c, d, false, allowed))
  {
    var r := Call(net, c, domain, false, allowed).0;
    FoundInPlan(net, CachedTls(c, domain, false), CachedInvalid(c, domain, false, allowed));
    var a := r.cached.value;
    UpsertThenLookup(c, domain, allowed, a, domain);
    UpsertThenLookup(c, domain, allowed, a, d);
    OneAttempt(net2, a.tls, a.invalid);
  }

  /** A plain URL is one attempt, without TLS and whatever may be tried elsewhere, and a call that fails or
      needs no TLS leaves the cache alone. */
  lemma PlainIsOneAttempt(net: Network, c: Cache, domain: string, plain: bool, allowed: bool)
    ensures var (r, c') := Call(net, c, domain, plain, allowed);
            && (plain ==> r.attempts == [Attempt(Plain, false)])
            && (plain ==> r.ok == (net(0, Attempt(Plain, false)) == Response))
            && (plain || !r.ok ==> c' == c)
  {
    var tls, invalid := CachedTls(c, domain, plain), CachedInvalid(c, domain, plain, allowed);
    PostFollowsPlan(net, tls, invalid);
    WalkFollows(net, 0, Plan(tls, invalid));
  }

  /** A request with an unknown method or unreadable headers is never sent: no attempt is made, nothing is
      found, and the cache stays as it was. */
  lemma NeverSent(net: Network, n: nat, c: Cache, domain: string, plain: bool, tls: Option<Tls>,
                  invalid: Option<bool>)
    ensures var r := GetResponse(net, n, false, tls, invalid, invalid);
            r.attempts == [] && !r.ok && Upsert(c, domain, plain, r.cached) == c
  {
  }

  /** With insecure certificates forbidden, no attempt of any call accepts one. */
  lemma NeverInsecureWhenForbidden(net: Network, c: Cache, domain: string, plain: bool)
    ensures var r := Call(net, c, domain, plain, false).0;
            forall i :: 0 <= i < |r.attempts| ==> !r.attempts[i].invalid
  {
    var tls := CachedTls(c, domain, plain);
    PostFollowsPlan(net, tls, Some(false));
    WalkFollows(net, 0, Plan(tls, Some(false)));
  }
}
