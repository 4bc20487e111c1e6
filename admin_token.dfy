/**
 * The cached service-account (admin) token of the backend API. The cached
 * token is reused while it stays valid beyond a safety margin; otherwise a new
 * one is requested from the store, and its expiry is floored so that a short
 * declared lifetime cannot make the gateway refresh on every call.
 */
module AdminTokens {
  import opened Wrappers
  import opened Upstream

  /** A cached token is reused only while it expires more than this many seconds from now. */
  const RefreshMarginSeconds := 10
  /** The least lifetime granted to a freshly issued token. */
  const MinTokenTtlSeconds := 60
  /** The lifetime assumed when the reply declares none. */
  const DefaultExpiresInSeconds := 3600

  /**
   * The fields of the backend token reply that the gateway reads. `token` is
   * assumed to be a string when present; `expiresIn` is `None` exactly when
   * the key `expires_in` is absent from the reply.
   */
  datatype TokenReply = TokenReply(token: Option<string>, expiresIn: Option<int>)

  /** The two cached values: the token (absent before the first refresh) and its expiry. */
  datatype Cache = Cache(token: Option<string>, expiresAt: int)

  /** One call of the token getter: its result, whether it called the store, and the cache afterwards. */
  datatype Step = Step(result: Result<string, Error>, issued: bool, cache: Cache)

  /** A token is usable when present and non-empty. */
  predicate Usable(token: Option<string>) {
    token.Some? && token.value != ""
  }

  predicate Reusable(c: Cache, now: int) {
    Usable(c.token) && c.expiresAt > now + RefreshMarginSeconds
  }

  function Max(a: int, b: int): (m: int) {
    if a >= b then a else b
  }

  /** Credentials are configured when neither the e-mail nor the password is empty. */
  predicate Configured(email: string, password: string) {
    email != "" && password != ""
  }

  /** The declared lifetime of a reply, or the default when the key is absent. */
  function ExpiresIn(reply: TokenReply): (e: int) {
    match reply.expiresIn
    case None => DefaultExpiresInSeconds
    case Some(e) => e
  }

  /**
   * One call of the getter with cache `c` at clock `now`; `reply` is what the
   * store answers if it is asked.
   */
  function GetAdminTokenStep(c: Cache, configured: bool, now: int, reply: HttpResponse<TokenReply>): (s: Step)
    // reuse: no call to the store, nothing changes
    ensures Reusable(c, now) ==> s == Step(Success(c.token.value), false, c)
    // the store is asked exactly when the cache is stale and credentials exist
    ensures s.issued <==> !Reusable(c, now) && configured
    ensures !Reusable(c, now) && !configured ==> s.result == Failure(MissingAdminCredentials)
    // a refresh succeeds exactly when the store answers with a non-empty token
    ensures s.issued ==>
      (s.result.Success? <==> !IsErrorStatus(reply.status) && Usable(reply.body.token))
    ensures s.issued && IsErrorStatus(reply.status) ==> s.result == Failure(UpstreamFailed(reply.status))
    ensures s.issued && !IsErrorStatus(reply.status) && !Usable(reply.body.token) ==>
      s.result == Failure(AdminTokenUnparsable)
    // every failure leaves the cache as it was
    ensures s.result.Failure? ==> s.cache == c
    // every success returns the cached token, which is then reusable
    ensures s.result.Success? ==> s.cache.token == Some(s.result.value) && Reusable(s.cache, now)
    // a refreshed token lives at least MinTokenTtlSeconds, and the declared lifetime if longer
    ensures s.issued && s.result.Success? ==>
      && s.result.value == reply.body.token.value
      && s.cache.expiresAt >= now + MinTokenTtlSeconds
      && s.cache.expiresAt >= now + ExpiresIn(reply.body)
      && (s.cache.expiresAt == now + MinTokenTtlSeconds || s.cache.expiresAt == now + ExpiresIn(reply.body))
  {
    if Reusable(c, now) then
      Step(Success(c.token.value), false, c)
    else if !configured then
      Step(Failure(MissingAdminCredentials), false, c)
    else
      match CheckStatus(reply)
      case Failure(e) => Step(Failure(e), true, c)
      case Success(data) =>
        if !Usable(data.token) then
          Step(Failure(AdminTokenUnparsable), true, c)
        else
          Step(Success(data.token.value), true,
               Cache(data.token, now + Max(MinTokenTtlSeconds, ExpiresIn(data))))
  }

  /** The process-wide admin token cache; the credentials are configuration. */
  class AdminTokenCache {
    var token: Option<string>
    var expiresAt: int
    const adminEmail: string
    const adminPassword: string

    function State(): (c: Cache)
      reads this
    {
      Cache(token, expiresAt)
    }

    constructor (adminEmail: string, adminPassword: string)
      ensures token == None && expiresAt == 0
      ensures this.adminEmail == adminEmail && this.adminPassword == adminPassword
    {
      token := None;
      expiresAt := 0;
      this.adminEmail := adminEmail;
      this.adminPassword := adminPassword;
    }

    /**
     * Return the cached token or refresh it. `issued` tells whether the store
     * was asked; `reply` is its answer when it is.
     */
    method GetAdminToken(now: int, reply: HttpResponse<TokenReply>) returns (r: Result<string, Error>, issued: bool)
      modifies this
      ensures var s := GetAdminTokenStep(old(State()), Configured(adminEmail, adminPassword), now, reply);
        r == s.result && issued == s.issued && State() == s.cache
    {
      if token.Some? && token.value != "" && expiresAt > now + RefreshMarginSeconds {
        return Success(token.value), false;
      }
      if adminEmail == "" || adminPassword == "" {
        return Failure(MissingAdminCredentials), false;
      }
      issued := true;
      if IsErrorStatus(reply.status) {
        return Failure(UpstreamFailed(reply.status)), issued;
      }
      var data := reply.body;
      var expiresIn := ExpiresIn(data);
      if data.token.None? || data.token.value == "" {
        return Failure(AdminTokenUnparsable), issued;
      }
      token := data.token;
      expiresAt := now + Max(MinTokenTtlSeconds, expiresIn);
      r := Success(data.token.value);
    }
  }

  /** The outcome of a run of sequential getter calls. */
  datatype Run = Run(results: seq<Result<string, Error>>, issuedCount: nat, cache: Cache)

  /** Call the getter at each clock reading in turn, with the matching store reply. */
  function RunCalls(c: Cache, configured: bool, times: seq<int>, replies: seq<HttpResponse<TokenReply>>): (run: Run)
    requires |replies| == |times|
    ensures |run.results| == |times|
    ensures run.issuedCount <= |times|
    decreases |times|
  {
    if times == [] then Run([], 0, c)
    else
      var s := GetAdminTokenStep(c, configured, times[0], replies[0]);
      var rest := RunCalls(s.cache, configured, times[1..], replies[1..]);
      Run([s.result] + rest.results, (if s.issued then 1 else 0) + rest.issuedCount, rest.cache)
  }

  /**
   * Calls made while the cached token is still valid beyond the margin never
   * reach the store, all return the cached token, and leave the cache unchanged.
   */
  lemma {:induction false} NoCallWhileFresh(c: Cache, configured: bool, times: seq<int>, replies: seq<HttpResponse<TokenReply>>)
    requires |replies| == |times|
    requires Usable(c.token)
    requires forall i :: 0 <= i < |times| ==> times[i] + RefreshMarginSeconds < c.expiresAt
    ensures RunCalls(c, configured, times, replies).issuedCount == 0
    ensures RunCalls(c, configured, times, replies).cache == c
    ensures forall i :: 0 <= i < |times| ==> RunCalls(c, configured, times, replies).results[i] == Success(c.token.value)
  {
    if times != [] {
      var rest := times[1..];
      forall i | 0 <= i < |rest| ensures rest[i] + RefreshMarginSeconds < c.expiresAt {
        assert rest[i] == times[i + 1];
      }
      NoCallWhileFresh(c, configured, rest, replies[1..]);
      var run := RunCalls(c, configured, times, replies);
      forall i | 0 <= i < |times| ensures run.results[i] == Success(c.token.value) {
        if i > 0 {
          assert run.results[i] == RunCalls(c, configured, rest, replies[1..]).results[i - 1];
        }
      }
    }
  }

  /**
   * After a refresh at `now`, every later call in the following
   * MinTokenTtlSeconds - RefreshMarginSeconds seconds reuses the new token:
   * a second refresh cannot follow the first within that window.
   */
  lemma RefreshThenReuse(c: Cache, configured: bool, now: int, reply: HttpResponse<TokenReply>,
                         times: seq<int>, replies: seq<HttpResponse<TokenReply>>)
    requires |replies| == |times|
    requires GetAdminTokenStep(c, configured, now, reply).issued
    requires GetAdminTokenStep(c, configured, now, reply).result.Success?
    requires forall i :: 0 <= i < |times| ==> times[i] < now + MinTokenTtlSeconds - RefreshMarginSeconds
    ensures var s := GetAdminTokenStep(c, configured, now, reply);
      && RunCalls(s.cache, configured, times, replies).issuedCount == 0
      && forall i :: 0 <= i < |times| ==> RunCalls(s.cache, configured, times, replies).results[i] == s.result
  {
    var s := GetAdminTokenStep(c, configured, now, reply);
    NoCallWhileFresh(s.cache, configured, times, replies);
  }
}
