# Currency converter: client, service, id parser and auth, in Dafny

This project models the decision logic of a small web API that converts
currencies. The API proxies the exchangerate.host rate provider, mirrors the
provider's list of currency codes into a Redis hash, and authenticates its
users with JWTs. Four pieces are modelled, each as pure functions over
immutable values:

- **`ExchangerateClient`** (`exchangerate_client.dfy`). It adds the access key to
  the query parameters. It sorts a decoded JSON reply into one of four outcomes:
  pass-through, `ClientError(message)`, `UnknownClientError`, or an exception
  that escapes uncaught. It also picks `quotes[base + target]` out of a `live`
  reply.
- **`CurrencyService`** (`currency_service.dfy`). `retrieve_available_currencies`
  is a transition on a state made of the memo (`Option<map>`) and the Redis
  hashes (`map<string, map<string, string>>`). `get_rate` turns a client quote
  into a `RateOutput` and turns client errors into `ExchangerateClientError`.
- **`QueryParams`** (`query_params.dfy`). This is `parse_query_parameters_as_list_int`:
  `str.split(',')`, then `int()` on each segment. `int()` is limited to an
  explicit ASCII grammar: optional surrounding whitespace, an optional sign,
  then digits with single underscores allowed between digits. The whitespace
  `int()` strips is `str.isspace()` without the four separator characters
  U+001C to U+001F, which `str.split()` does treat as whitespace. A literal of
  more than 4300 digits is refused, which is CPython's default limit on
  integer-string conversion.
- **`AuthService`** (`auth_service.dfy`). This covers signup, login, token refresh
  and request authentication over a user table `map<username, hash>`. The
  clock is an argument `now` in whole seconds. Each token carries its expiry
  `now + days * 86400`, and the decoder is given the current time.

Two support modules are shared. `PyRuntime` (`py_runtime.dfy`) holds `Option`,
`Result`, the exceptions that escape uncaught, Python's whitespace class, and
`str.split()[-1]`. `JsonModel` (`json_model.dfy`) holds the decoded JSON value
and Python's `value[key]` on it.

Several collaborators are inputs rather than code:

- the decoded HTTP reply body;
- what the client's `get_available_currencies` answers;
- SHA-256, `jwt.encode` and `jwt.decode`;
- the current time, and the secret and token lifetimes read from the settings;
- the rendering of a float rate in the description (`show`).

Each of these is a function parameter or a plain argument. `urljoin(base, 'live')`
is kept as the unevaluated term `Joined(base, "live")`.

## Where the tests and the code disagree

The model follows the code.

- `_get` accepts a reply only when `success` equals the **string** `'true'`
  (`app/currency_converter/clients.py:46`; the field is typed `str` at line 9).
  A JSON literal `true` is a boolean (section 3 of RFC 8259), so it is not equal
  to that string. A reply `{"success": true, ...}` with no `error` field is
  therefore an `UnknownClientError` (`ExchangerateClient.BooleanTrueIsNotSuccess`).
  The tests at `app/currency_converter/tests/test_clients.py:37-44` expect it to
  pass through.
- Only a `KeyError` from `body['error']['info']` is caught. So a failure reply
  whose `error` is a string raises `TypeError`, and a reply without `success`
  raises `KeyError`; neither becomes `UnknownClientError`
  (`ExchangerateClient.UnclassifiedBodies`). The tests at
  `app/currency_converter/tests/test_clients.py:63-78` expect
  `UnknownClientError` in both cases.
- `UnknownClientError.message` is `'Unknown error'` (`clients.py:29`). The tests
  expect `'Unknown error from third party service.'`.

## Behaviour worth knowing

- An empty currency map cannot be stored. The Redis client library refuses an
  `HSET` that has no field/value pairs (it raises `DataError`). So
  `retrieve_available_currencies` on an empty map raises, and neither the hash
  nor the memo changes.
- The settings class (`app/config.py:5-15`) declares no `AUTH_SECRET`,
  `JWT_TOKEN_SECRET`, `ACCESS_TOKEN_LIFETIME_DAYS` or
  `REFRESH_TOKEN_LIFETIME_DAYS`, although the auth service reads all four. The
  model takes them as parameters, as if they were declared.

## Model

| member | source | states |
|---|---|---|
| `ExchangerateClient.MergeParams` | app/currency_converter/clients.py:37-40 | `access_key` is always sent with the configured key. Every other key sent comes from the caller with the caller's value, and every caller key is sent. |
| `ExchangerateClient.OnlyAccessKeyWithoutParams` | app/currency_converter/clients.py:37-38 | With no caller parameters, or an empty mapping, `access_key` is the only parameter. |
| `ExchangerateClient.CallerParamsKept` | app/currency_converter/clients.py:39-40 | With caller parameters, the keys sent are exactly the caller's keys plus `access_key`. `access_key` carries the configured key even when the caller supplied one, and every other caller value is kept. |
| `ExchangerateClient.Get` | app/currency_converter/clients.py:35-53 | The reply is passed through unchanged iff it is an object whose `success` is the string "true". `ClientError(m)` iff `success` is present but not "true" and `error.info` exists, with `m` that `info`. `UnknownClientError` iff `success` is not "true" and `error` or `error.info` is missing. A body that is not an object escapes as `TypeError`, an object without `success` as `KeyError('success')`, and a failure reply whose `error` is not a mapping as `TypeError`. |
| `ExchangerateClient.BooleanTrueIsNotSuccess` | app/currency_converter/clients.py:46-53 | A reply whose `success` is the JSON boolean `true` is not passed through; without `error` it is `UnknownClientError`. |
| `ExchangerateClient.UnclassifiedBodies` | app/currency_converter/clients.py:46-50 | A failure reply whose `error` is a string escapes as `TypeError`. A reply without `success` escapes as `KeyError('success')`. |
| `ExchangerateClient.GetRate` | app/currency_converter/clients.py:55-70 | Sends exactly `{source: base, currencies: target, access_key}` to the base URL joined with `live`. Returns `quotes[base+target]` iff the reply passed `_get` and has that quote. A missing `quotes` or a missing pair is `UnknownClientError`. A non-mapping `quotes` escapes as `TypeError`. Every error from `_get` propagates unchanged. |
| `CurrencyService.New` | app/currency_converter/services.py:17-18 | A fresh service has no memo. It sees the Redis contents as they are, and its memo trivially agrees with the hash. |
| `CurrencyService.Translate` | app/currency_converter/services.py:25-26 | Both client error classes become `ExchangerateClientError` with the client error's `message`, so an unknown error carries "Unknown error". Other exceptions pass through. |
| `CurrencyService.RetrieveAvailableCurrencies` | app/currency_converter/services.py:20-33 | On success the fetched map is returned and becomes the memo. Every fetched code maps to its fetched name in `available_currencies`, older fields of that hash stay, and other Redis keys are untouched. A client error becomes `ExchangerateClientError` with the same message. On any failure the state is unchanged. |
| `CurrencyService.RetrievePreservesMirror` | app/currency_converter/services.py:28-31 | If the memo agreed with the Redis hash before a retrieval, it agrees after it, whatever the client answered. |
| `CurrencyService.RetrieveIdempotent` | app/currency_converter/services.py:28-31 | Retrieving the same answer a second time changes nothing more. |
| `CurrencyService.Describe` | app/currency_converter/services.py:46 | The description reads "1 ", the base, " = ", the rendered rate, " ", the target, at those positions. |
| `CurrencyService.GetRate` | app/currency_converter/services.py:35-47 | Makes one client call, for the same base and target. A quote that is null, a list or an object fails `RateOutput`'s `rate: float` field (`app/currency_converter/schemas.py`) with a validation error. Any other quote gives `pair = base+target`, the rate as the client returned it, and the description built from both. A client error becomes `ExchangerateClientError` with the client's message. An uncaught client exception propagates unchanged. The service state is not an input, so neither the memo nor the cache changes. |
| `CurrencyService.QuoteMustBeAFloat` | app/currency_converter/schemas.py:8 | A null quote for the pair fails validation, and a numeric quote becomes a rate record. |
| `CurrencyService.MissingQuoteIsUnknownError` | app/currency_converter/services.py:38-41 | A reply without the requested quote surfaces as `ExchangerateClientError("Unknown error")`. The request carried the base, the target and the access key. |
| `QueryParams.Split` | app/core/utils.py:5 | `split(',')` gives one segment more than there are commas. No segment contains a comma, and joining the segments with commas gives the input back. |
| `QueryParams.SplitJoin` | app/core/utils.py:5 | Splitting undoes joining, for comma-free segments. |
| `QueryParams.SplitConcat` | app/core/utils.py:5 | Splitting `x + "," + y` gives the segments of `x` followed by those of `y`. |
| `QueryParams.ParseInt` | app/core/utils.py:5 | `int()` succeeds exactly on integer literals: `int()`'s whitespace, an optional sign, digit groups, `int()`'s whitespace, with at most 4300 digits. Wherever such a literal sits, the result is that literal's value. |
| `QueryParams.DigitLimit` | app/core/utils.py:5 | A plain run of digits parses iff it has at most 4300 digits, and then gives its decimal value. |
| `QueryParams.SeparatorNotStripped` | app/core/utils.py:5 | U+001C is whitespace for `str.isspace()`, yet `int()` does not strip it. |
| `QueryParams.Collect` | app/core/utils.py:5 | A list comprehension over an element parser succeeds iff every element parses. It gives one value per element, in order. Otherwise it raises the `ValueError` of the first element that does not parse, with no partial list. |
| `QueryParams.ParseAll` | app/core/utils.py:5 | The same comprehension with `int()` as the element parser. A failure names the first segment that is not a literal. |
| `QueryParams.ParseIdList` | app/core/utils.py:4-5 | Success iff every comma-separated segment is a literal. The length is the number of commas plus one, and entry `i` is the value of segment `i`. A failure carries the first segment that is not a literal. |
| `QueryParams.ParseRendering` | app/core/utils.py:5 | `int(str(x)) == x` for every integer with at most 4300 digits. |
| `QueryParams.ParseIdListRoundTrip` | app/core/utils.py:4-5 | For any non-empty list of integers of at most 4300 digits, joining their decimal renderings with commas and parsing gives the list back. |
| `QueryParams.ParseExample` | app/core/utils.py:4 | `"1,2,3"` parses to `[1, 2, 3]`. |
| `QueryParams.EmptyInputFails` | app/core/utils.py:5 | The empty string fails. |
| `QueryParams.LeadingCommaFails` | app/core/utils.py:5 | A leading comma fails the whole list. |
| `QueryParams.TrailingCommaFails` | app/core/utils.py:5 | A trailing comma fails the whole list. |
| `QueryParams.DoubledCommaFails` | app/core/utils.py:5 | A doubled comma fails the whole list. |
| `QueryParams.SurroundingSpaceExample` | app/core/utils.py:5 | `" -7\n"` is `-7`: surrounding whitespace and a sign are accepted. |
| `QueryParams.UnderscoreExample` | app/core/utils.py:5 | `"+1_0"` is `10`: one underscore may separate digits. |
| `QueryParams.RejectedExamples` | app/core/utils.py:5 | `"1__0"`, `"_1"`, `"1_"` and a bare `"-"` are rejected. |
| `PyRuntime.LastWord` | app/users/services.py:142 | `split()[-1]` raises `IndexError` iff the header is all whitespace. Otherwise it is the non-empty, space-free word that ends the header, followed only by whitespace. |
| `PyRuntime.LastWordUnique` | app/users/services.py:142 | The last word of a string is unique. |
| `PyRuntime.LastWordAfterSpace` | app/users/services.py:142 | The last word of `"Bearer " + token` is `token` whenever the token is non-empty and has no whitespace. |
| `AuthService.HashSeparatesPasswords` | app/users/services.py:35-41 | The stored hash is the digest of secret + password. With a one-to-one digest, two passwords give the same hash iff they are equal. |
| `AuthService.GenerateTokens` | app/users/services.py:43-69 | At time `now`, the access token encodes `{username, type: access, exp: now + access days}` and the refresh token encodes `{username, type: refresh, exp: now + refresh days}`. |
| `AuthService.NewPairEachInstant` | app/users/services.py:43-69 | With a one-to-one encoder, pairs issued at different instants differ in both tokens, because the expiry differs. |
| `AuthService.GetUser` | app/users/services.py:71-77 | Returns the row iff the username is in the table, otherwise `UserNotFoundError`. |
| `AuthService.Signup` | app/users/services.py:79-95 | A taken username gives `UserAlreadyExists` and an unchanged table. Otherwise exactly one row is added, storing `sha256(secret + password)`, existing rows are unchanged, and the new user's token pair is returned. |
| `AuthService.Login` | app/users/services.py:97-110 | An unknown user gives `UserNotFoundError` whatever the password. A known user succeeds iff the stored hash equals `sha256(secret + password)`; otherwise `Unauthorized`. |
| `AuthService.RefreshToken` | app/users/services.py:112-134 | An undecodable token, or one missing the `username` or `type` claim, gives `InvalidTokenError`; an expired token counts as undecodable. Then an unknown user gives `UserNotFoundError` whatever the type. Then a type other than "refresh" gives `InvalidTokenError`. Success returns a pair newly issued at the time of the refresh. |
| `AuthService.Authenticate` | app/users/services.py:136-150 | The token is the last word of the header, and a header without one raises `IndexError`. A decode failure, a missing `username` claim or an unknown user all give `UnauthorizedError`. Otherwise it returns the user's row. The token type is never looked at. |
| `AuthService.SignupThenLogin` | app/users/services.py:97-110 | After signing up, logging in with the same password succeeds. A password with a different hash is `Unauthorized`. |
| `AuthService.LoginOnlyWithRegisteredPassword` | app/users/services.py:97-110 | With a one-to-one digest, login after signup succeeds iff the password is the registered one. |
| `AuthService.SamePasswordSameHash` | app/users/services.py:35-41 | Two users who sign up with one password store the same value. |
| `AuthService.SignupTwice` | app/users/services.py:85-93 | A second signup under a taken name fails and keeps the first password. |
| `AuthService.IssuedTokensInUse` | app/users/services.py:112-150 | For a pair used while the decoder still reads it back: the refresh token gives a pair newly issued at the time of use, the access token is refused by `refresh_token`, and both tokens authenticate after `"Bearer "`. |
| `AuthService.UserCheckedBeforeType` | app/users/services.py:130-132 | For a user who no longer exists, an access token offered for refresh gives `UserNotFoundError`, not `InvalidTokenError`. |

## Left out

- HTTP transport (`httpx.AsyncClient`, `response.json()`), `urljoin`, the Redis connection and the SQLAlchemy session are left out. They are replaced by the reply body, an unevaluated URL term and maps. A body that is not valid JSON is not modelled.
- `async`/`await` is modelled as sequential code. Nothing in the modelled code runs concurrently.
- SHA-256, JWT encoding and decoding, and the signing algorithm are parameters, not implementations. The expiry check happens inside the decoder, which is given the current time.
- `AuthService.GenerateTokens`: the two `datetime.now` calls are modelled as one instant, in whole seconds. The source reads the clock twice, so the two expiries may differ by the time between the reads.
- `ExchangerateClient.get_available_currencies` is called by the service but not defined in the client. Its answer is an input.
- The favourites operations (`add_favorite_list`, `get_favorite_rates`, `delete_favorite_pairs`), `is_currency_available` and `CurrencyNotAvailableError` appear only in tests and routes, not in the modelled services.
- Routes, HTTP error classes, response schemas, the exception handler, settings loading and ORM model declarations are left out.
- `params.update` mutates the caller's dictionary in place. Maps here are values, so that aliasing is not modelled; `get_rate` builds its own dictionary anyway.
- `QueryParams.ParseInt`: accepts ASCII digits only. Python's `int()` also accepts other Unicode decimal digits, which the model rejects.
- `QueryParams.ParseInt`: the digit limit is fixed at CPython's default of 4300. `sys.set_int_max_str_digits` and `PYTHONINTMAXSTRDIGITS` can change it, and Pythons before 3.11 have no limit.
- `CurrencyService.GetRate`: only the quotes every configuration of `RateOutput` refuses (null, list, object) are modelled as a validation error. Every string and boolean quote is accepted, including a non-numeric string, which `rate: float` refuses under any configuration. Whether a numeric string or a boolean is coerced depends on the `BaseSchema` configuration, which is not part of this model, and Python's float-literal grammar is not modelled. An accepted rate is carried as received, not converted to a float, and its rendering in the description is the `show` parameter.
- `AuthService.Signup`: only the unique-username violation is modelled as `UserAlreadyExists`. Other database failures, such as a username longer than the column allows, are not modelled.
