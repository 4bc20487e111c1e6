/**
 * The boundary to the remote store: the error taxonomy the gateway raises,
 * the rule that turns an HTTP status into an error, and the decision that
 * extracts a customer id from the frontend login reply.
 *
 * The HTTP client itself (URLs, headers, timeouts, JSON decoding) is not part of
 * this model: a reply arrives as an HttpResponse whose body is already decoded.
 */
module Upstream {
  import opened Wrappers

  /** The failures the gateway reports; the comment gives the HTTP status it answers with. */
  datatype Error =
    | InvalidSession            // 401 "Invalid session"
    | SessionExpired            // 401 "Session expired"
    | MissingAdminCredentials   // 500 admin e-mail or password not configured
    | UpstreamFailed(status: int) // 502 the store answered with status >= 400
    | AdminTokenUnparsable      // 502 "Could not parse admin token"
    | CustomerIdUnparsable      // 502 "Could not parse customer_id"

  /** A reply of the store: its status code and its decoded JSON body. */
  datatype HttpResponse<+T> = HttpResponse(status: int, body: T)

  /** The fields of the frontend token reply that the gateway reads. */
  datatype LoginReply = LoginReply(customerId: Option<int>)

  /** Status codes from 400 upwards are failures. */
  predicate IsErrorStatus(status: int) {
    status >= 400
  }

  /** What both the POST and the GET helper do with a reply. */
  function CheckStatus<T>(resp: HttpResponse<T>): (r: Result<T, Error>)
    ensures r.Failure? <==> IsErrorStatus(resp.status)
    ensures r.Failure? ==> r.error == UpstreamFailed(resp.status)
    ensures r.Success? ==> r.value == resp.body
  {
    if IsErrorStatus(resp.status) then Failure(UpstreamFailed(resp.status)) else Success(resp.body)
  }

  /**
   * The customer id of a frontend login: a failed call propagates, an absent
   * (or null) customer_id is an error, and any present id, 0 included, is accepted.
   */
  function CustomerIdFromFrontend(resp: HttpResponse<LoginReply>): (r: Result<int, Error>)
    ensures r.Success? <==> !IsErrorStatus(resp.status) && resp.body.customerId.Some?
    ensures r.Success? ==> r.value == resp.body.customerId.value
    ensures IsErrorStatus(resp.status) ==> r == Failure(UpstreamFailed(resp.status))
    ensures !IsErrorStatus(resp.status) && resp.body.customerId.None? ==> r == Failure(CustomerIdUnparsable)
  {
    match CheckStatus(resp)
    case Failure(e) => Failure(e)
    case Success(data) =>
      match data.customerId
      case None => Failure(CustomerIdUnparsable)
      case Some(id) => Success(id)
  }
}
