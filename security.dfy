/** The request guards of `backend/core/security.py`: the client address a request is counted
    under, the per-address sliding-window rate limiter, and the CSRF allow/deny decision.
    Clock readings are integer parameters; the settings are fixed when the limiter is built,
    as the cached settings object is. */
module Security {
  import opened Wrappers
  import opened Text
  import opened Seqs

  /* ---------- Client address ---------- */

  /** `_get_client_ip`: the first entry of a non-empty `X-Forwarded-For`, stripped; without
      one, the connection's host, or `unknown` when there is none. */
  function ClientIp(forwarded: Option<string>, clientHost: Option<string>): (ip: string)
    ensures forwarded.Some? && forwarded.value != [] ==> ',' !in ip && Unpadded(ip)
    ensures (forwarded.None? || forwarded.value == []) && clientHost.Some? ==> ip == clientHost.value
    ensures (forwarded.None? || forwarded.value == []) && clientHost.None? ==> ip == "unknown"
  {
    if forwarded.Some? && forwarded.value != [] then
      var first := BeforeChar(forwarded.value, ',');
      StripKeepsComma(first);
      Strip(first)
    else if clientHost.Some? then clientHost.value
    else "unknown"
  }

  lemma {:induction false} StripKeepsComma(s: string)
    requires ',' !in s
    ensures ',' !in Strip(s)
    decreases |s|
  {
    if s != [] && IsSpace(s[0]) {
      StripKeepsComma(s[1..]);
    } else if s != [] && IsSpace(s[|s| - 1]) {
      StripKeepsComma(s[..|s| - 1]);
    }
  }

  /** The first proxy entry, stripped, is what the request is counted under, whatever
      follows it. */
  lemma ForwardedFirst(ip: string, rest: string, clientHost: Option<string>)
    requires ',' !in ip
    ensures ClientIp(Some(ip + "," + rest), clientHost) == Strip(ip)
  {
    BeforeCharAt(ip + "," + rest, ip);
  }

  /** A single forwarded address is taken as it is, once stripped. */
  lemma ForwardedSingle(ip: string, clientHost: Option<string>)
    requires ip != [] && ',' !in ip
    ensures ClientIp(Some(ip), clientHost) == Strip(ip)
  {
    BeforeCharAt(ip + [], ip);
    assert ip + [] == ip;
  }

  lemma {:induction false} BeforeCharAt(s: string, w: string)
    requires StartsWith(s, w) && ',' !in w && (|w| == |s| || s[|w|] == ',')
    ensures BeforeChar(s, ',') == w
    decreases |w|
  {
    if w != [] {
      assert s[0] == w[0];
      BeforeCharAt(s[1..], w[1..]);
    }
  }

  /* ---------- The sliding window ---------- */

  /** Seconds a timestamp counts against its address. */
  const Window := 60

  /** `_cleanup_old`'s comprehension: the timestamps still inside the window at `now`, in order. */
  function Prune(ts: seq<int>, now: int): (r: seq<int>)
    ensures |r| <= |ts|
    ensures forall t :: t in r <==> t in ts && now - t < Window
    ensures IsSubsequence(r, ts)
    ensures forall t :: multiset(r)[t] == if now - t < Window then multiset(ts)[t] else 0
  {
    if ts == [] then []
    else
      var rest := Prune(ts[1..], now);
      assert forall t :: t in ts <==> t == ts[0] || t in ts[1..] by {
        HeadTail(ts);
      }
      assert multiset(ts) == multiset{ts[0]} + multiset(ts[1..]) by {
        HeadTail(ts);
      }
      if now - ts[0] < Window then
        assert ([ts[0]] + rest)[1..] == rest;
        [ts[0]] + rest
      else
        SubsequenceDrop(rest, ts);
        rest
  }

  /** Dropping an element in front keeps a subsequence a subsequence. */
  lemma SubsequenceDrop(a: seq<int>, b: seq<int>)
    requires b != [] && IsSubsequence(a, b[1..])
    ensures IsSubsequence(a, b)
  {
  }

  /** Pruning twice at the same instant prunes nothing more. */
  lemma {:induction false} PruneIdempotent(ts: seq<int>, now: int)
    ensures Prune(Prune(ts, now), now) == Prune(ts, now)
    decreases |ts|
  {
    if ts != [] {
      PruneIdempotent(ts[1..], now);
      if now - ts[0] < Window {
        assert ([ts[0]] + Prune(ts[1..], now))[1..] == Prune(ts[1..], now);
      }
    }
  }

  /** A later cleanup subsumes an earlier one: what the earlier kept and the later drops is
      exactly what the later alone drops. */
  lemma {:induction false} PruneLater(ts: seq<int>, earlier: int, later: int)
    requires earlier <= later
    ensures Prune(Prune(ts, earlier), later) == Prune(ts, later)
    decreases |ts|
  {
    if ts != [] {
      PruneLater(ts[1..], earlier, later);
      if earlier - ts[0] < Window {
        assert ([ts[0]] + Prune(ts[1..], earlier))[1..] == Prune(ts[1..], earlier);
      }
    }
  }

  /** What the limiter answers a request. */
  datatype Verdict =
    | Passed
    | TooMany(status: int, retryAfter: string)
    | Admitted(limitHeader: int, remaining: int)

  /** The rate limiter: the timestamps of each address's recent requests. An address appears
      once a request of its has been looked at. */
  class RateLimiter {
    var requests: map<string, seq<int>>
    const enabled: bool
    const limit: int

    /** No address holds more timestamps than the limit allows. */
    predicate Valid()
      reads this
    {
      forall ip :: ip in requests ==> |requests[ip]| <= if limit < 0 then 0 else limit
    }

    /** The timestamps of `ip`; an unknown address has none. */
    function Recent(ip: string): (ts: seq<int>)
      reads this
      ensures ip in requests ==> ts == requests[ip]
      ensures ip !in requests ==> ts == []
    {
      if ip in requests then requests[ip] else []
    }

    constructor(enabled: bool, limit: int)
      ensures this.enabled == enabled && this.limit == limit
      ensures requests == map[]
      ensures Valid()
    {
      this.enabled := enabled;
      this.limit := limit;
      requests := map[];
    }

    /** `_cleanup_old`: the address keeps only its timestamps inside the window at `now`;
        every other address is left as it was. */
    method CleanupOld(ip: string, now: int)
      modifies this
      requires Valid()
      ensures Valid()
      ensures requests == old(requests)[ip := Prune(old(Recent(ip)), now)]
    {
      requests := requests[ip := Prune(Recent(ip), now)];
    }

    /** `dispatch`: requests outside `/api/`, or any request while limiting is off, pass and
        leave no trace. Otherwise the address's list is cleaned up at `now`; a full window
        gives 429 with `Retry-After: 60` and records nothing, and an admitted request is
        recorded at `stamp` (the second clock reading) and told how many requests remain. */
    method Dispatch(path: string, forwarded: Option<string>, clientHost: Option<string>, now: int, stamp: int)
      returns (v: Verdict)
      modifies this
      requires Valid()
      ensures Valid()
      ensures !enabled || !StartsWith(path, "/api/") ==> v == Passed && requests == old(requests)
      ensures enabled && StartsWith(path, "/api/") ==>
        var ip := ClientIp(forwarded, clientHost);
        var kept := Prune(old(Recent(ip)), now);
        if |kept| >= limit then
          v == TooMany(429, "60") && requests == old(requests)[ip := kept]
        else
          |kept| < limit && requests == old(requests)[ip := kept + [stamp]] &&
          v == Admitted(limit, if limit - (|kept| + 1) < 0 then 0 else limit - (|kept| + 1))
    {
      if !enabled {
        return Passed;
      }
      if !StartsWith(path, "/api/") {
        return Passed;
      }
      var ip := ClientIp(forwarded, clientHost);
      CleanupOld(ip, now);
      if |requests[ip]| >= limit {
        return TooMany(429, "60");
      }
      requests := requests[ip := requests[ip] + [stamp]];
      var left := limit - |requests[ip]|;
      v := Admitted(limit, if left < 0 then 0 else left);
    }
  }

  /* ---------- CSRF ---------- */

  /** The headers and request line the CSRF guard looks at; a header is `None` when absent. */
  datatype CsrfRequest = CsrfRequest(
    verb: string,
    path: string,
    origin: Option<string>,
    referer: Option<string>,
    host: Option<string>,
    csrfToken: Option<string>,
    contentType: Option<string>)

  datatype CsrfOutcome = Unchecked | Validated | Forbidden(status: int, detail: string)

  predicate StateChanging(verb: string) {
    verb == "POST" || verb == "PUT" || verb == "PATCH" || verb == "DELETE"
  }

  const UploadPath := "/api/v1/reviews/upload"

  /** A header counts only when present and non-empty, as Python's truthiness has it. */
  predicate Given(h: Option<string>) {
    h.Some? && h.value != []
  }

  /** The host of an `Origin`: what follows the first `://`, without trailing slashes. */
  function OriginHost(origin: string): string {
    TrimTrailingSlashes(AfterFirst(origin, "://"))
  }

  /** The host of a `Referer`: what follows the first `://`, up to the first `/`. */
  function RefererHost(referer: string): (h: string)
    ensures '/' !in h
  {
    BeforeChar(AfterFirst(referer, "://"), '/')
  }

  /** Same host, or any host whose name begins with `localhost`. */
  predicate HostAllowed(h: string, host: string) {
    h == host || StartsWith(h, "localhost")
  }

  /** The guard's decision, stated at once: requests it does not check; then acceptance when
      the origin (or, without one, the referer) names an allowed host, when a CSRF token is
      given, or when the body is declared JSON; 403 otherwise. */
  predicate Exempt(enabled: bool, r: CsrfRequest) {
    !enabled || !StateChanging(r.verb) || !StartsWith(r.path, "/api/") || StartsWith(r.path, UploadPath)
  }

  predicate Vouched(r: CsrfRequest) {
    var host := r.host.GetOr("");
    (if Given(r.origin) then HostAllowed(OriginHost(r.origin.value), host)
     else Given(r.referer) && HostAllowed(RefererHost(r.referer.value), host))
    || Given(r.csrfToken)
    || Contains(r.contentType.GetOr(""), "application/json")
  }

  /** `CSRFMiddleware.dispatch`: the exemptions in order, then the `origin_valid` flag set by
      each of the three checks in turn. */
  method CsrfDispatch(enabled: bool, r: CsrfRequest) returns (outcome: CsrfOutcome)
    ensures outcome == Unchecked <==> Exempt(enabled, r)
    ensures outcome == Validated <==> !Exempt(enabled, r) && Vouched(r)
    ensures outcome.Forbidden? ==> outcome == Forbidden(403, "CSRF validation failed")
  {
    if !enabled {
      return Unchecked;
    }
    if !StateChanging(r.verb) {
      return Unchecked;
    }
    if !StartsWith(r.path, "/api/") {
      return Unchecked;
    }
    if StartsWith(r.path, UploadPath) {
      return Unchecked;
    }
    var host := r.host.GetOr("");
    var originValid := false;
    if Given(r.origin) {
      var originHost := OriginHost(r.origin.value);
      if originHost == host || StartsWith(originHost, "localhost") {
        originValid := true;
      }
    } else if Given(r.referer) {
      var refererHost := RefererHost(r.referer.value);
      if refererHost == host || StartsWith(refererHost, "localhost") {
        originValid := true;
      }
    }
    if Given(r.csrfToken) {
      originValid := true;
    }
    if Contains(r.contentType.GetOr(""), "application/json") {
      originValid := true;
    }
    if !originValid {
      return Forbidden(403, "CSRF validation failed");
    }
    outcome := Validated;
  }

  /** Any non-empty token lets a checked request through, whatever its origin. */
  lemma TokenSuffices(enabled: bool, r: CsrfRequest)
    requires !Exempt(enabled, r) && Given(r.csrfToken)
    ensures Vouched(r)
  {
  }

  /** A JSON content type lets a checked request through, whatever its origin. */
  lemma JsonSuffices(enabled: bool, r: CsrfRequest)
    requires Contains(r.contentType.GetOr(""), "application/json")
    ensures Vouched(r)
  {
  }

  /** The upload exemption is a prefix match, so the raw upload endpoint is exempt too. */
  lemma RawUploadExempt(enabled: bool, r: CsrfRequest)
    requires r.path == "/api/v1/reviews/upload/raw"
    ensures Exempt(enabled, r)
  {
    assert r.path[..|UploadPath|] == UploadPath;
  }

  /** Reads are never checked. */
  lemma SafeVerbsUnchecked(enabled: bool, r: CsrfRequest)
    requires r.verb == "GET" || r.verb == "HEAD" || r.verb == "OPTIONS"
    ensures Exempt(enabled, r)
  {
  }

  /** A non-empty `Origin` decides alone: the referer is then never consulted. */
  lemma OriginOverridesReferer(r: CsrfRequest, referer: Option<string>)
    requires Given(r.origin)
    ensures Vouched(r) == Vouched(r.(referer := referer))
  {
  }

  /** The `localhost` test is a prefix test: an origin whose host merely starts with
      `localhost` is accepted for any `Host`. */
  lemma LocalhostPrefix(r: CsrfRequest, suffix: string)
    requires r.origin == Some("http://localhost" + suffix) && '/' !in suffix
    ensures Vouched(r)
  {
    var h := "localhost" + suffix;
    assert "http://localhost" == "http://" + "localhost";
    AppendAssoc("http://", "localhost", suffix);
    AfterScheme(h);
    assert h[|h| - 1] != '/' by {
      if suffix != [] { assert h[|h| - 1] == suffix[|suffix| - 1]; }
    }
    NoTrailingSlash(h);
    assert h[..9] == "localhost";
  }

  /** What follows `http://` is all that follows the first `://`. */
  lemma AfterScheme(rest: string)
    ensures AfterFirst("http://" + rest, "://") == rest
  {
    var o := "http://" + rest;
    assert OccursAt(o, "://", 4) by {
      assert o[4..][..3] == "://";
    }
    forall p: nat | p < 4 ensures !OccursAt(o, "://", p) {
      assert o[p] == "http://"[p];
      assert o[p..][0] == o[p];
    }
    IndexFromSkips(o, "://", 0, 4);
    assert o[7..] == rest;
  }

  lemma NoTrailingSlash(s: string)
    requires s != [] && s[|s| - 1] != '/'
    ensures TrimTrailingSlashes(s) == s
  {
  }
}
