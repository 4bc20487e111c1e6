/**
 * The session table: an opaque session token maps to the caller's customer id
 * and an absolute expiry. Every successful validation slides the expiry to
 * `now + ttl`; a validation that finds the entry expired evicts it.
 */
module Sessions {
  import opened Wrappers
  import opened Upstream

  type Token = string

  datatype Session = Session(customerId: int, expiresAt: int)

  /** Expiry is strict: an entry whose expiry equals the clock is still valid. */
  predicate Expired(s: Session, now: int) {
    s.expiresAt < now
  }

  /** The outcome of one validation: what the caller gets and the table afterwards. */
  datatype Validation = Validation(result: Result<int, Error>, table: map<Token, Session>)

  /** Look up, then either reject, evict an expired entry, or renew the entry. */
  function Validate(table: map<Token, Session>, token: Token, now: int, ttl: int): (v: Validation)
    // an unknown token is rejected and nothing changes
    ensures v.result == Failure(InvalidSession) <==> token !in table
    ensures token !in table ==> v.table == table
    // an expired token is rejected and exactly its entry is removed
    ensures v.result == Failure(SessionExpired) <==> token in table && Expired(table[token], now)
    ensures v.result == Failure(SessionExpired) ==> v.table.Keys == table.Keys - {token}
    // a live token yields its customer id and only its expiry moves
    ensures v.result.Success? <==> token in table && !Expired(table[token], now)
    ensures v.result.Success? ==>
      && v.result.value == table[token].customerId
      && v.table.Keys == table.Keys
      && v.table[token] == Session(table[token].customerId, now + ttl)
    // no other entry is touched, whatever the outcome
    ensures forall k :: k in table && k != token ==> k in v.table && v.table[k] == table[k]
    ensures forall k :: k in v.table ==> k in table
  {
    if token !in table then
      Validation(Failure(InvalidSession), table)
    else if Expired(table[token], now) then
      Validation(Failure(SessionExpired), table - {token})
    else
      Validation(Success(table[token].customerId), table[token := table[token].(expiresAt := now + ttl)])
  }

  /** The session table of the process; the TTL is read from the configuration once. */
  class SessionStore {
    var sessions: map<Token, Session>
    const ttl: int

    constructor (ttl: int)
      ensures sessions == map[] && this.ttl == ttl
    {
      sessions := map[];
      this.ttl := ttl;
    }

    /** The insertion done by a successful login, with a token not yet in the table. */
    method Create(token: Token, customerId: int, now: int) returns (t: Token)
      requires token !in sessions
      modifies this
      ensures t == token
      ensures sessions == old(sessions)[token := Session(customerId, now + ttl)]
      ensures |sessions| == |old(sessions)| + 1
      ensures forall k :: k in old(sessions) ==> k in sessions && sessions[k] == old(sessions)[k]
    {
      sessions := sessions[token := Session(customerId, now + ttl)];
      t := token;
    }

    /** Validate a session token and renew it; returns the customer id it belongs to. */
    method RequireSessionToken(token: Token, now: int) returns (r: Result<int, Error>)
      modifies this
      ensures r == Validate(old(sessions), token, now, ttl).result
      ensures sessions == Validate(old(sessions), token, now, ttl).table
    {
      if token !in sessions {
        return Failure(InvalidSession);
      }
      var sess := sessions[token];
      if sess.expiresAt < now {
        sessions := sessions - {token};
        return Failure(SessionExpired);
      }
      sessions := sessions[token := sess.(expiresAt := now + ttl)];
      r := Success(sess.customerId);
    }
  }

  /** The results of validating one token at each of the given clock readings in turn. */
  function ValidateEach(table: map<Token, Session>, token: Token, ttl: int, times: seq<int>): (rs: seq<Result<int, Error>>)
    ensures |rs| == |times|
    decreases |times|
  {
    if times == [] then []
    else
      var v := Validate(table, token, times[0], ttl);
      [v.result] + ValidateEach(v.table, token, ttl, times[1..])
  }

  /**
   * Sliding TTL: a session validated first before its expiry and then again
   * at most `ttl` seconds after each previous validation never fails, and
   * always yields the same customer id.
   */
  lemma {:induction false} SlidingTtlKeepsSessionAlive(table: map<Token, Session>, token: Token, ttl: int, times: seq<int>)
    requires token in table
    requires |times| > 0 ==> times[0] <= table[token].expiresAt
    requires forall i :: 0 < i < |times| ==> times[i] <= times[i - 1] + ttl
    ensures forall i :: 0 <= i < |times| ==> ValidateEach(table, token, ttl, times)[i] == Success(table[token].customerId)
  {
    if times != [] {
      var v := Validate(table, token, times[0], ttl);
      var rest := times[1..];
      if |rest| > 0 {
        assert rest[0] == times[1] <= times[0] + ttl;
      }
      forall i | 0 < i < |rest| ensures rest[i] <= rest[i - 1] + ttl {
        assert rest[i] == times[i + 1] && rest[i - 1] == times[i];
      }
      SlidingTtlKeepsSessionAlive(v.table, token, ttl, rest);
      assert v.table[token].customerId == table[token].customerId;
      var rs := ValidateEach(table, token, ttl, times);
      forall i | 0 <= i < |times| ensures rs[i] == Success(table[token].customerId) {
        if i > 0 {
          assert rs[i] == ValidateEach(v.table, token, ttl, rest)[i - 1];
        }
      }
    }
  }

  /** A session created at `created` is accepted up to and including `created + ttl`. */
  lemma LoginThenValidate(table: map<Token, Session>, token: Token, customerId: int, created: int, ttl: int, now: int)
    requires token !in table
    requires now <= created + ttl
    ensures Validate(table[token := Session(customerId, created + ttl)], token, now, ttl).result == Success(customerId)
  {
  }

  /**
   * A session left idle past its TTL is rejected as expired and evicted, so the
   * next validation of the same token reports it as unknown.
   */
  lemma IdleSessionIsEvicted(table: map<Token, Session>, token: Token, customerId: int, created: int, ttl: int, now: int, later: int)
    requires token !in table
    requires now > created + ttl
    ensures var v := Validate(table[token := Session(customerId, created + ttl)], token, now, ttl);
      && v.result == Failure(SessionExpired)
      && v.table == table
      && Validate(v.table, token, later, ttl).result == Failure(InvalidSession)
  {
  }
}
