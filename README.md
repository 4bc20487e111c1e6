# vf-nc-gateway: verified model of the session and token core

The gateway sits between a voice/chat assistant and a nopCommerce store. This
project models, in Dafny, the parts of `app.py` that keep state or make
decisions:

- **Session table** (`sessions.dfy`). `SESSIONS` maps an opaque session token to
  a customer id and an absolute expiry. The `SessionStore` class holds it as a
  `map`. Login inserts an entry that expires at `now + ttl`. Validation rejects
  an unknown token and leaves the table unchanged. It rejects an expired token
  and evicts only that entry. Otherwise it returns the customer id and slides
  that entry's expiry to `now + ttl`. The pure function `Validate` states this.
  The lemmas prove the sliding TTL: a session validated at intervals of at most
  `ttl` seconds never fails, and a session left idle is evicted.
- **Admin token cache** (`admin_token.dfy`). The `AdminTokenCache` class holds
  `ADMIN_TOKEN` and `ADMIN_TOKEN_EXPIRES_AT`. `GetAdminTokenStep` states one
  call of `get_admin_token`:
  - the cached token is reused while it expires more than 10 seconds from now;
  - missing credentials fail before any call to the store;
  - an error status or a reply without a token fails and leaves the cache unchanged;
  - otherwise the new expiry is `now + max(60, expires_in)`, with `expires_in`
    defaulting to 3600.

  The lemmas prove that calls made while the token is fresh never reach the store.
  They also prove that no second refresh can follow a refresh within 50 seconds.
- **Customer id extraction** (`upstream.dfy`). `CustomerIdFromFrontend` turns the
  frontend login reply into a customer id. It fails on an error status and on
  an absent `customer_id`. `CheckStatus` states the rule that every status of
  400 or more is an upstream failure.
- **Pricing aggregation** (`pricing.dfy`). `AggregatePrices` is the loop of
  `vf_prices`. It zips the product ids with their lookup outcomes, in input
  order, and fills a price map and an error map. `Routed` describes the result:
  - every success is in `prices` and every failure is in `errors`;
  - no key appears that is not an input id;
  - for a repeated id, the last outcome of each kind is the one kept.

  `RoutedIsUnique` shows that this description admits only one pair of maps.
  `DistinctIdsArePartitioned` shows that, for distinct ids, the two key sets are
  disjoint and together are exactly the input ids.
- **Handlers** (`gateway.dfy`). `VfLogin` and `VfPrices` compose the pieces
  above the way the two routes do.

Modelling choices:
- The clock is an integer `now` passed to each operation.
- The session TTL and the admin credentials are configuration, given to the
  constructors.
- The store's replies are inputs (`HttpResponse(status, body)`), with the body
  already decoded. `GetAdminToken` reports whether it asked the store.
- The new session token is a parameter, and it must not already be in the table.
- The product-id keys are integers. The source keys its maps by `str(pid)`,
  which is injective on integers.

Behaviour of the program that the model keeps:
- A session stores only the customer id and its expiry (app.py:259-262).
- Login fails when the call fails, when `customer_id` is absent or null, or
  when the reply cannot be read (app.py:206-215); the rest of the login reply
  is not read.
- Sessions are removed only when a validation finds them expired
  (app.py:95-97).
- With a repeated product id, the same id can be in both the price map and
  the error map (app.py:289-293, `DuplicateIdExample`). The two maps partition
  the input ids when the ids are distinct (`DistinctIdsArePartitioned`).

## Model

| member | source | states |
|---|---|---|
| `Upstream.CheckStatus` | app.py:121-132 | a reply fails exactly when its status is 400 or more, with that status; otherwise its body is passed on |
| `Upstream.CustomerIdFromFrontend` | app.py:198-215 | succeeds exactly when the call succeeded and `customer_id` is present, and returns that id (0 included); an error status propagates; an absent id is "Could not parse customer_id" |
| `Sessions.Validate` | app.py:90-100 | unknown token: "Invalid session", table unchanged; `expires_at < now`: "Session expired", exactly that entry removed; otherwise the stored customer id, with only that entry's expiry set to `now + ttl`; expiry equal to `now` is accepted; no other entry changes |
| `Sessions.SessionStore.constructor` | app.py:40 | the session table starts empty |
| `Sessions.SessionStore.RequireSessionToken` | app.py:90-100 | returns the result and leaves the table that `Validate` describes |
| `Sessions.SessionStore.Create` | app.py:258-266 | with a token not in the table, adds exactly one entry (given customer id, expiry `now + ttl`), returns that token, leaves every existing entry untouched |
| `Sessions.SlidingTtlKeepsSessionAlive` | app.py:95-100 | validations whose first time is before the expiry and whose gaps are at most `ttl` all succeed with the same customer id |
| `Sessions.LoginThenValidate` | app.py:259-262 | a session created at `t` is accepted at any time up to and including `t + ttl` |
| `Sessions.IdleSessionIsEvicted` | app.py:95-97 | a session idle past `t + ttl` is rejected as expired and removed; the next validation reports "Invalid session" |
| `AdminTokens.GetAdminTokenStep` | app.py:161-195 | reuse when the token is non-empty and expires after `now + 10` (no call, no change); a call to the store exactly when the cache is stale and credentials are set; missing credentials, an error status, or a missing/empty token fail and leave the cache unchanged; a refresh stores the token with expiry `now + max(60, expires_in)` (default 3600), so at least `now + 60` |
| `AdminTokens.AdminTokenCache.constructor` | app.py:42-43 | the cache starts with no token and expiry 0 |
| `AdminTokens.AdminTokenCache.GetAdminToken` | app.py:161-195 | returns the result and call flag and leaves the cache that `GetAdminTokenStep` describes |
| `AdminTokens.NoCallWhileFresh` | app.py:165-166 | any run of calls made while the cached token expires more than 10 seconds later issues no store call, returns that token each time and keeps the cache |
| `AdminTokens.RefreshThenReuse` | app.py:184-195 | after a successful refresh at `now`, calls before `now + 50` issue no further store call and return the refreshed token |
| `Pricing.AggregatePrices` | app.py:286-293 | the maps it fills satisfy `Routed`; for distinct ids they are disjoint and their keys are exactly the input ids |
| `Pricing.DistinctIdsArePartitioned` | app.py:289-293 | for distinct ids, routed maps have disjoint key sets whose union is the input id set, and each id maps to its own outcome |
| `Pricing.RoutedIsUnique` | app.py:289-293 | the routing description admits exactly one pair of maps, so the last outcome of each kind for an id decides its value |
| `Pricing.PartialFailureExample` | app.py:289-293 | ids 1, 2, 3 with 2 failing give prices {1, 3} and errors {2} |
| `Pricing.DuplicateIdExample` | app.py:289-293 | a repeated id keeps the later success in prices and its failure in errors |
| `Gateway.VfLogin` | app.py:254-266 | on a failed customer-id lookup the error is returned and the table is unchanged; otherwise the new token is returned and exactly one entry is added for that customer with expiry `now + ttl` |
| `Gateway.VfPrices` | app.py:269-299 | the session is validated as `Validate` describes; its failure is returned unchanged; on success the reply carries the customer id and maps that satisfy `Routed` (a partition for distinct ids) |

## Left out

- The HTTP client (`nc_post_json`, `nc_get_json`): URLs, headers, timeouts and JSON decoding are a foreign library. Only the status rule is modelled (`CheckStatus`).
- Calls that fail without a status: a reply body that is not JSON raises at app.py:132 and app.py:156, and a timeout or connection error raises in the client. A reply here always has a status and a decoded body, so these failures cannot be expressed. In `get_admin_token` such a failure happens after the store was called and leaves the cache unchanged, like an error status does.
- Replies whose JSON body is not an object: `data.get` raises at app.py:184 and app.py:208. Replies here are records, so this failure cannot be expressed. In `get_admin_token` it comes after the store call and leaves the cache unchanged.
- A JSON `null` for `expires_in` (app.py:185 raises on it): `TokenReply.expiresIn` is `None` only when the key is absent, which gives the default 3600.
- Non-string tokens: app.py:187 accepts any truthy JSON value as the admin token; the model assumes the token is a string and usable when non-empty.
- Conversion failures of `int(...)` on `expires_in` or `customer_id` (a non-numeric value raises): replies carry already-typed optional integers.
- The lookup of one price (`get_final_price`): its outcomes are an input sequence of `Result` values, in input order. The admin-token refresh it triggers is modelled separately.
- `asyncio.Lock` and `asyncio.gather`: calls are modelled as sequential. The lock only serialises refreshes, and gather returns results in input order.
- Floating-point time and prices: the clock is an integer, and prices and error texts are opaque type parameters.
- Sessions.SessionStore.RequireSessionToken: reads the clock once, where the source reads it for the expiry test and again for the renewal.
- AdminTokens.GetAdminTokenStep: computes the new expiry from the clock value of the reuse test, where the source reads the clock again after the store replies. A later read only makes the expiry later, as long as the clock does not step back between the two reads.
- `secrets.token_urlsafe`: the new session token is a parameter that is not already in the table.
- FastAPI routes, `/health`, CORS and request-body validation: the 1 to 20 bound on product ids is a precondition of `VfPrices`.
- Environment configuration and path templates: the TTL and admin credentials are constructor arguments. Paths are not modelled.
