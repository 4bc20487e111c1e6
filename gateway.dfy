/**
 * The two request handlers that use the session table: login, which creates a
 * session for the customer the store vouches for, and prices, which checks the
 * session before it aggregates the per-product lookups.
 */
module Gateway {
  import opened Wrappers
  import opened Upstream
  import opened Sessions
  import opened Pricing

  /** The body of a prices answer. */
  datatype PricesReply<P, E> = PricesReply(customerId: int, prices: map<ProductId, P>, errors: map<ProductId, E>)

  /**
   * Login: ask the store for the customer id, then store a session under the
   * newly generated token `newToken`. Nothing is stored when the store call fails.
   */
  method VfLogin(store: SessionStore, reply: HttpResponse<LoginReply>, newToken: Token, now: int)
    returns (r: Result<Token, Error>)
    requires newToken !in store.sessions
    modifies store
    ensures r.Success? <==> CustomerIdFromFrontend(reply).Success?
    ensures r.Failure? ==> r.error == CustomerIdFromFrontend(reply).error && store.sessions == old(store.sessions)
    ensures r.Success? ==>
      && r.value == newToken
      && store.sessions == old(store.sessions)[newToken := Session(CustomerIdFromFrontend(reply).value, now + store.ttl)]
  {
    var customerId := CustomerIdFromFrontend(reply);
    if customerId.Failure? {
      return Failure(customerId.error);
    }
    var token := store.Create(newToken, customerId.value, now);
    r := Success(token);
  }

  /**
   * Prices: validate the session (renewing it), then route each product's
   * lookup outcome, given in input order, into the price or the error map.
   */
  method VfPrices<P, E>(store: SessionStore, token: Token, now: int, ids: seq<ProductId>, outcomes: seq<Result<P, E>>)
    returns (r: Result<PricesReply<P, E>, Error>)
    requires 1 <= |ids| <= 20
    requires |outcomes| == |ids|
    modifies store
    ensures store.sessions == Validate(old(store.sessions), token, now, store.ttl).table
    ensures r.Success? <==> Validate(old(store.sessions), token, now, store.ttl).result.Success?
    ensures r.Failure? ==> r.error == Validate(old(store.sessions), token, now, store.ttl).result.error
    ensures r.Success? ==>
      && r.value.customerId == Validate(old(store.sessions), token, now, store.ttl).result.value
      && Routed(ids, outcomes, |ids|, r.value.prices, r.value.errors)
      && (Distinct(ids) ==> r.value.prices.Keys !! r.value.errors.Keys
                            && r.value.prices.Keys + r.value.errors.Keys == IdSet(ids))
  {
    var customerId := store.RequireSessionToken(token, now);
    if customerId.Failure? {
      return Failure(customerId.error);
    }
    var prices, errors := AggregatePrices(ids, outcomes);
    r := Success(PricesReply(customerId.value, prices, errors));
  }
}
