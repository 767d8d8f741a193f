# Safeguard .NET SDK authenticator base, in Dafny

This project models `AuthenticatorBase`, the base class that every login
mechanism of the Safeguard .NET SDK derives from. The class holds the
Safeguard API access token and a disposed flag. It exchanges a broker (RSTS)
token for a new access token. It asks the core service how many seconds the
held token has left. It erases the token on disposal.

Modules, one per component:

- `Outcomes` (`outcomes.dfy`): `Option`, `Result` and `Outcome`, and the exceptions as an `Error` datatype. The exceptions are ObjectDisposedException, the two SafeguardDotNetException cases, and whatever a concrete login flow throws.
- `Int32Text` (`int32_text.dfy`): the .NET text of a 32-bit `int`. `FormatInt` is `int.ToString()` under the invariant culture and `ParseInt32` is `int.TryParse` with the default integer style: surrounding white space, an optional sign, ASCII digits, and the 32-bit range.
- `Http` (`http.dfy`): requests, responses, header lookup, and a `Client` class standing for one RestSharp `RestClient`. A client logs every request it executes. Its server's answers come from an oracle `reply: (nat, Request) -> Response` fixed at construction.
- `Credentials` (`credentials.dfy`): `SecureString` as a class with its text and a disposed flag. Disposal erases the text, and reading a disposed one fails.
- `Authentication` (`authenticator.dfy`): the URLs, the probe and exchange requests, the lifetime decision ladder as the pure function `ProbeLifetime`, the broker hook `RstsLogin`, and the class `AuthenticatorBase`.
- `Scenarios` (`scenarios.dfy`): callers that use only the class contracts against mocked servers. They cover a fresh authenticator, a login, a probe reporting 42, disposal, and an unreachable exchange.

`AuthenticatorBase.Valid()` is the object invariant. A disposed authenticator
holds no token. Every broker token the login flow has handed out is disposed,
its text is erased, and it is never the access token.

The abstract `GetRstsTokenInternal` of the concrete authenticators is the
`RstsLogin` object passed to the constructor. Its `outcome` oracle says what
the n-th login yields: a broker token, or an exception. `Dispose(bool)` is
named `DisposeWith`, because Dafny has no overloading.

Two facts about the code that the contracts make explicit:

- A successful refresh replaces the `AccessToken` reference without disposing the previous token (`AuthenticatorBase.cs:124`). `RefreshAccessToken` states that the old token object is left as it was.
- Only `GetAccessToken`, `GetAccessTokenLifetimeRemaining` and `RefreshAccessToken` throw ObjectDisposedException when the flag is set (`:74`, `:81`, `:105`). `Dispose(bool)` reads the flag only to return early (`:140`). `HasAccessToken` and `ClearAccessToken` do not read it, though by the invariant `HasAccessToken` is false after disposal.

## Model

| member | source | states |
|---|---|---|
| `Int32Text.ParseFormatRoundTrip` | SafeguardDotNet/Authentication/AuthenticatorBase.cs:98 | Parsing the text `int.ToString` writes gives back the same number exactly when it fits in 32 bits. A wider value is refused, not wrapped. |
| `Int32Text.ParseIgnoresSurroundingWhite` | SafeguardDotNet/Authentication/AuthenticatorBase.cs:98 | White space before and after the header text does not change what `int.TryParse` reads. |
| `Http.FindHeader` | SafeguardDotNet/Authentication/AuthenticatorBase.cs:97 | Finds the value of the first header whose name equals the given name exactly. It is None exactly when no header has that name. |
| `Http.Client.constructor` | SafeguardDotNet/Authentication/AuthenticatorBase.cs:28 | A new client is bound to its base URL, trusts the platform default certificates, and has sent nothing. |
| `Http.Client.Execute` | SafeguardDotNet/Authentication/AuthenticatorBase.cs:91 | Executing a request appends it to the client's log and returns the server's answer to that request at that position. |
| `Credentials.SecureString.constructor` | SafeguardDotNet/Authentication/AuthenticatorBase.cs:124 | `ToSecureString` holds the given text and is not disposed. |
| `Credentials.SecureString.Dispose` | SafeguardDotNet/Authentication/AuthenticatorBase.cs:68 | Disposal erases the text and marks the string disposed. |
| `Credentials.SecureString.ToInsecureString` | SafeguardDotNet/Authentication/AuthenticatorBase.cs:89 | Gives the held text, or ObjectDisposed once the string is disposed. |
| `Authentication.CoreUrlNamesApiVersion` | SafeguardDotNet/Authentication/AuthenticatorBase.cs:30 | The text of the core URL after `https://{address}/service/core/v` parses back to the API version. |
| `Authentication.ProbeCarriesBearerToken` | SafeguardDotNet/Authentication/AuthenticatorBase.cs:85-90 | The probe sends the held access token, and only that, as its RFC 6750 bearer token, with no body. |
| `Authentication.ExchangeCarriesBrokerToken` | SafeguardDotNet/Authentication/AuthenticatorBase.cs:109-114 | The exchange request has no `Authorization` header, so it presents no bearer token. |
| `Authentication.ProbeLifetime` | SafeguardDotNet/Authentication/AuthenticatorBase.cs:92-100 | The probe throws a connection error carrying the base URL exactly when the transport did not complete. It yields 0 exactly when the response is not a success or the server reported 0. |
| `Authentication.ProbeReportsLifetime` | SafeguardDotNet/Authentication/AuthenticatorBase.cs:97-100 | When a successful probe's first lifetime header holds the text of an `int`, the probe returns that `int` unchanged, even a negative one. |
| `Authentication.ProbeSentinelWithoutLifetime` | SafeguardDotNet/Authentication/AuthenticatorBase.cs:97-99 | A successful probe with the header missing or not an `int` returns 10, which is not 0. |
| `Authentication.ProbeSentinelOnOverflow` | SafeguardDotNet/Authentication/AuthenticatorBase.cs:98-99 | A reported lifetime outside the 32-bit range is treated as unreadable and gives 10. |
| `Authentication.RstsLogin.GetRstsTokenInternal` | SafeguardDotNet/Authentication/AuthenticatorBase.cs:128 | Each call either gives a fresh, undisposed broker token holding the login's text and records it, or throws the login's error and records nothing. |
| `Authentication.AuthenticatorBase.constructor` | SafeguardDotNet/Authentication/AuthenticatorBase.cs:22-47 | The URLs are `https://{addr}/RSTS` and `https://{addr}/service/core/v{apiVersion}`. `ignoreSsl` gives IgnoreSsl, no stored callback, and accept-all on both clients. Otherwise a callback is stored and installed on both clients. Otherwise the defaults stay. The new object holds no token and is not disposed. |
| `Authentication.AuthenticatorBase.HasAccessToken` | SafeguardDotNet/Authentication/AuthenticatorBase.cs:61-64 | True exactly when a token is held, whether or not the object is disposed. |
| `Authentication.AuthenticatorBase.ClearAccessToken` | SafeguardDotNet/Authentication/AuthenticatorBase.cs:66-70 | Afterwards no token is held, and a token that was held is disposed and erased. The disposed flag is unchanged. With no token held, nothing else changes. |
| `Authentication.AuthenticatorBase.GetAccessToken` | SafeguardDotNet/Authentication/AuthenticatorBase.cs:72-77 | Throws ObjectDisposed after disposal. Otherwise it returns the held token, or null. |
| `Authentication.AuthenticatorBase.GetAccessTokenLifetimeRemaining` | SafeguardDotNet/Authentication/AuthenticatorBase.cs:79-101 | Throws ObjectDisposed after disposal and returns 0 with no token, sending nothing in either case. If the held token was disposed by a caller that got it from `GetAccessToken`, reading it throws ObjectDisposed and nothing is sent. Otherwise it sends exactly one probe carrying the token and returns `ProbeLifetime` of the answer. The token and the disposed flag never change. |
| `Authentication.AuthenticatorBase.RefreshAccessToken` | SafeguardDotNet/Authentication/AuthenticatorBase.cs:103-126 | After disposal it throws before calling the login or the server. A login error is rethrown and nothing is sent. Otherwise it sends one exchange with the broker token. A failed exchange throws ConnectionFailed or ExchangeRejected(status, body) and keeps the old token. A successful exchange stores a new token holding `UserToken`. On every path the broker token ends disposed and erased, and it is never the stored token. |
| `Authentication.AuthenticatorBase.ExchangeStsToken` | SafeguardDotNet/Authentication/AuthenticatorBase.cs:109-124 | The body of the `using` block. It sends exactly one exchange request, then throws on a transport failure or a non-success status with the token unchanged, or stores a fresh token holding `UserToken`. |
| `Authentication.AuthenticatorBase.Dispose` | SafeguardDotNet/Authentication/AuthenticatorBase.cs:132-136 | Afterwards the object is disposed and holds no token. A second call changes nothing. |
| `Authentication.AuthenticatorBase.DisposeWith` | SafeguardDotNet/Authentication/AuthenticatorBase.cs:138-150 | When already disposed, or with `disposing` false, nothing changes. Otherwise the held token is disposed and erased and dropped, and the object is marked disposed. |

## Left out

- The HTTP transport is an oracle of responses, and RestSharp's `IsSuccessful` is a flag of the response rather than a function of the status code.
- TLS certificate validation is left out. Only which policy a client records is modelled, and a callback is an opaque handle.
- JSON is not modelled. The response carries the `UserToken` value that decoding its body would give. Two crashes on a success response are not modelled: `JObject.Parse` throwing on a body that is not JSON (`AuthenticatorBase.cs:123`), and the null dereference when `UserToken` is absent (`:124`).
- Exception messages are not built as text. A connection failure carries the base URL and the transport's error message. A rejected exchange carries the status code and the body, without the mechanism's `Id`.
- `Id` and `Clone` are abstract and `IsAnonymous` is trivially false in the source. None of them is modelled. The concrete `GetRstsTokenInternal` implementations are not modelled either, and no concrete authenticator is part of this model.
- `Authentication.AuthenticatorBase.constructor`: the network address is assumed to form a valid absolute URI. RestSharp's `new RestClient(url)` (`AuthenticatorBase.cs:28`, `:31`) throws on text that is not one, for example the empty address, which gives "https:///RSTS"; the model's constructor always succeeds. The connection error (`:93`, `:117`) carries the URL as built, not RestSharp's normalised `BaseUrl`. RestSharp is not part of this model.
- `SecureString` encryption and pinning are not modelled. `ToInsecureString` is assumed to fail with ObjectDisposed on a disposed string, as the runtime's marshalling of a disposed `SecureString` does.
- `Int32Text.FormatInt` and `Int32Text.ParseInt32`: the current culture's sign symbols are not modelled; both always use "-" and "+", which matters only for a negative API version or lifetime. Trailing NUL characters accepted by `int.TryParse` are not modelled either.
- `Authentication.RstsLogin.GetRstsTokenInternal`: the hook is assumed to return a new, undisposed, non-null token on each call (or throw). A concrete hook returning null, which would make `ToInsecureString` throw at `AuthenticatorBase.cs:114`, or returning a token it keeps and reuses, which the `using` would dispose, is not modelled; the invariant that no broker token is the access token rests on this.
- `DisposeWith`: clearing the token cannot fail in the model, so the `finally` that sets the flag always runs after a clearing that completed.
- `GC.SuppressFinalize` and finalisation are left out.
- Concurrent use of one authenticator is left out, as is the event listener interface and the command-line event tool.
