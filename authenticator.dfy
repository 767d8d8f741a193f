/**
 * The authenticator base class of the Safeguard .NET SDK: the state every
 * login mechanism shares (the held access token and the disposed flag), the
 * exchange of a broker (RSTS) token for a Safeguard API access token, the
 * token lifetime probe, and disposal.
 */
module Authentication {
  import opened Outcomes
  import opened Int32Text
  import opened Http
  import opened Credentials

  /** The name ObjectDisposedException reports. */
  const ObjectName: string := "AuthenticatorBase"

  /** Request flag and response header of the lifetime probe. */
  const LifetimeHeader: string := "X-TokenLifetimeRemaining"

  /** Reported when a probe succeeds but gives no readable lifetime: "valid, duration unknown". */
  const UnknownLifetime: int32 := 10

  // ---------------------------------------------------------------- URLs

  function RstsUrl(networkAddress: string): string
  {
    "https://" + networkAddress + "/RSTS"
  }

  /** Everything of the core URL before the API version. */
  function CorePrefix(networkAddress: string): string
  {
    "https://" + networkAddress + "/service/core/v"
  }

  function CoreUrl(networkAddress: string, apiVersion: int32): string
  {
    CorePrefix(networkAddress) + FormatInt(apiVersion as int)
  }

  /** The core URL names its API version: the text after the fixed prefix reads back as that version. */
  lemma CoreUrlNamesApiVersion(networkAddress: string, apiVersion: int32)
    ensures |CorePrefix(networkAddress)| <= |CoreUrl(networkAddress, apiVersion)|
    ensures ParseInt32(CoreUrl(networkAddress, apiVersion)[|CorePrefix(networkAddress)|..]) == Some(apiVersion)
  {
    var url := CoreUrl(networkAddress, apiVersion);
    assert url[|CorePrefix(networkAddress)|..] == FormatInt(apiVersion as int);
    ParseFormatRoundTrip(apiVersion as int);
  }

  // ---------------------------------------------------------------- requests

  /** The lifetime probe: `GET LoginMessage`, authorised by the access token as a bearer token. */
  function ProbeRequest(accessToken: string): Request
  {
    Request(Get, "LoginMessage",
            [Header("Accept", "application/json"),
             Header("Authorization", "Bearer " + accessToken),
             Header(LifetimeHeader, "")],
            NoBody)
  }

  /** The token exchange: `POST Token/LoginResponse` with the broker token in the JSON body. */
  function ExchangeRequest(stsAccessToken: string): Request
  {
    Request(Post, "Token/LoginResponse",
            [Header("Accept", "application/json"),
             Header("Content-type", "application/json")],
            StsAccessTokenBody(stsAccessToken))
  }

  /**
   * The token a server reads from a request's `Authorization` header under
   * the "Bearer" scheme of section 2.1 of RFC 6750.
   */
  function BearerToken(request: Request): Option<string>
  {
    match FindHeader(request.headers, "Authorization")
    case None => None
    case Some(v) => if |v| >= 7 && v[..7] == "Bearer " then Some(v[7..]) else None
  }

  /** The probe presents exactly the held access token, and nothing else, as its bearer token. */
  lemma ProbeCarriesBearerToken(accessToken: string)
    ensures BearerToken(ProbeRequest(accessToken)) == Some(accessToken)
    ensures ProbeRequest(accessToken).body == NoBody
  {
    var hs := ProbeRequest(accessToken).headers;
    assert hs[1].name == "Authorization" && hs[0].name != "Authorization";
    assert FirstMatchAt(hs, "Authorization", 1);
  }

  /** The exchange has no `Authorization` header, so it presents no bearer token. */
  lemma ExchangeCarriesBrokerToken(stsAccessToken: string)
    ensures !HasHeader(ExchangeRequest(stsAccessToken).headers, "Authorization")
    ensures BearerToken(ExchangeRequest(stsAccessToken)) == None
  {
  }

  // ---------------------------------------------------------------- the lifetime ladder

  /** The lifetime the server reports: the first lifetime header, read as an `int`. */
  function ReportedLifetime(headers: seq<Header>): Option<int32>
  {
    match FindHeader(headers, LifetimeHeader)
    case None => None
    case Some(v) => ParseInt32(v)
  }

  /**
   * What the lifetime probe makes of the server's answer: an exception when
   * the transport did not complete, 0 ("no longer valid") for a non-success
   * status, the reported lifetime when the header reads as an `int`, and
   * otherwise UnknownLifetime.
   */
  function ProbeLifetime(baseUrl: string, response: Response): (r: Result<int32>)
    ensures r.Failure? <==> response.responseStatus != Completed
    ensures r.Failure? ==> r.error == ConnectionFailed(baseUrl, response.errorMessage)
    ensures r == Success(0) <==>
              response.responseStatus == Completed &&
              (!response.isSuccessful || ReportedLifetime(response.headers) == Some(0))
  {
    if response.responseStatus != Completed then Failure(ConnectionFailed(baseUrl, response.errorMessage))
    else if !response.isSuccessful then Success(0)
    else
      match ReportedLifetime(response.headers)
      case None => Success(UnknownLifetime)
      case Some(remaining) => Success(remaining)
  }

  /** A successful probe whose header carries the text of `n` yields `n` unchanged, negative or not. */
  lemma ProbeReportsLifetime(baseUrl: string, response: Response, n: int32)
    requires response.responseStatus == Completed && response.isSuccessful
    requires FindHeader(response.headers, LifetimeHeader) == Some(FormatInt(n as int))
    ensures ProbeLifetime(baseUrl, response) == Success(n)
  {
    ParseFormatRoundTrip(n as int);
  }

  /** A successful probe without the lifetime header, or with one that is not an `int`, yields the non-zero sentinel. */
  lemma ProbeSentinelWithoutLifetime(baseUrl: string, response: Response)
    requires response.responseStatus == Completed && response.isSuccessful
    requires !HasHeader(response.headers, LifetimeHeader) ||
             ParseInt32(FindHeader(response.headers, LifetimeHeader).value).None?
    ensures ProbeLifetime(baseUrl, response) == Success(UnknownLifetime)
    ensures UnknownLifetime != 0
  {
  }

  /** A lifetime that overflows 32 bits is not wrapped: the probe falls back to the sentinel. */
  lemma ProbeSentinelOnOverflow(baseUrl: string, response: Response, n: int)
    requires response.responseStatus == Completed && response.isSuccessful
    requires n > MaxInt32 || n < MinInt32
    requires FindHeader(response.headers, LifetimeHeader) == Some(FormatInt(n))
    ensures ProbeLifetime(baseUrl, response) == Success(UnknownLifetime)
  {
    ParseFormatRoundTrip(n);
  }

  // ---------------------------------------------------------------- the broker hook

  /**
   * The login flow of a concrete authenticator (`GetRstsTokenInternal`):
   * each call either yields a new broker token or throws.
   */
  class RstsLogin {
    /** What the flow yields on its n-th call. */
    const outcome: nat -> Result<string>
    var calls: nat
    /** Every broker token handed out so far. */
    ghost var issued: seq<SecureString>

    constructor (outcome: nat -> Result<string>)
      ensures this.outcome == outcome && calls == 0 && issued == []
    {
      this.outcome := outcome;
      calls := 0;
      issued := [];
    }

    method GetRstsTokenInternal() returns (r: Result<SecureString>)
      modifies this
      ensures calls == old(calls) + 1
      ensures r.Success? <==> outcome(old(calls)).Success?
      ensures r.Failure? ==> r.error == outcome(old(calls)).error && issued == old(issued)
      ensures r.Success? ==> fresh(r.value) && r.value.chars == outcome(old(calls)).value && !r.value.disposed &&
                             issued == old(issued) + [r.value]
    {
      var o := outcome(calls);
      calls := calls + 1;
      if o.Failure? {
        r := Failure(o.error);
      } else {
        var token := new SecureString(o.value);
        issued := issued + [token];
        r := Success(token);
      }
    }
  }

  // ---------------------------------------------------------------- the authenticator

  class AuthenticatorBase {
    var disposed: bool
    var AccessToken: SecureString?

    const NetworkAddress: string
    const ApiVersion: int32
    const IgnoreSsl: bool
    const ValidationCallback: Option<CertificateCallback>
    const SafeguardRstsUrl: string
    const SafeguardCoreUrl: string
    const RstsClient: Client
    const CoreClient: Client
    /** The concrete authenticator's `GetRstsTokenInternal`. */
    const Rsts: RstsLogin

    ghost var Repr: set<object>

    /**
     * The object invariant: a disposed authenticator holds no token, and every
     * broker token ever fetched has been released, its text erased, and is not
     * the access token.
     */
    ghost predicate Valid()
      reads this, Repr
    {
      this in Repr && Rsts in Repr && RstsClient !in Repr && CoreClient !in Repr &&
      (AccessToken != null ==> AccessToken in Repr) &&
      (forall t :: t in Rsts.issued ==> t in Repr && t.disposed && t.chars == [] && t != AccessToken) &&
      (disposed ==> AccessToken == null) &&
      RstsClient.baseUrl == SafeguardRstsUrl && CoreClient.baseUrl == SafeguardCoreUrl
    }

    constructor (networkAddress: string, apiVersion: int32, ignoreSsl: bool,
                 validationCallback: Option<CertificateCallback>, rsts: RstsLogin,
                 rstsReply: (nat, Request) -> Response, coreReply: (nat, Request) -> Response)
      requires rsts.issued == []
      ensures Valid() && fresh(Repr - {rsts})
      ensures !disposed && AccessToken == null
      ensures NetworkAddress == networkAddress && ApiVersion == apiVersion && Rsts == rsts
      ensures SafeguardRstsUrl == RstsUrl(networkAddress) && SafeguardCoreUrl == CoreUrl(networkAddress, apiVersion)
      ensures fresh(RstsClient) && fresh(CoreClient) && RstsClient.sent == [] && CoreClient.sent == []
      ensures RstsClient.reply == rstsReply && CoreClient.reply == coreReply
      ensures ignoreSsl ==>
                IgnoreSsl && ValidationCallback == None &&
                RstsClient.certificateCheck == AcceptAll && CoreClient.certificateCheck == AcceptAll
      ensures !ignoreSsl && validationCallback.Some? ==>
                !IgnoreSsl && ValidationCallback == validationCallback &&
                RstsClient.certificateCheck == Custom(validationCallback.value) &&
                CoreClient.certificateCheck == Custom(validationCallback.value)
      ensures !ignoreSsl && validationCallback.None? ==>
                !IgnoreSsl && ValidationCallback == None &&
                RstsClient.certificateCheck == PlatformDefault && CoreClient.certificateCheck == PlatformDefault
    {
      NetworkAddress := networkAddress;
      ApiVersion := apiVersion;
      Rsts := rsts;
      SafeguardRstsUrl := RstsUrl(networkAddress);
      var rstsClient := new Client(RstsUrl(networkAddress), rstsReply);
      RstsClient := rstsClient;
      SafeguardCoreUrl := CoreUrl(networkAddress, apiVersion);
      var coreClient := new Client(CoreUrl(networkAddress, apiVersion), coreReply);
      CoreClient := coreClient;
      var ignore, callback := false, None;
      if ignoreSsl {
        ignore, callback := true, None;
        rstsClient.certificateCheck := AcceptAll;
        coreClient.certificateCheck := AcceptAll;
      } else if validationCallback.Some? {
        ignore, callback := false, validationCallback;
        rstsClient.certificateCheck := Custom(validationCallback.value);
        coreClient.certificateCheck := Custom(validationCallback.value);
      }
      IgnoreSsl := ignore;
      ValidationCallback := callback;
      disposed := false;
      AccessToken := null;
      Repr := {this, rsts};
    }

    /** True exactly when a token is held; the disposed flag is not consulted. */
    method HasAccessToken() returns (b: bool)
      ensures b <==> AccessToken != null
    {
      b := AccessToken != null;
    }

    /** Erases and drops the held token, if any; the disposed flag is not consulted. */
    method ClearAccessToken()
      requires Valid()
      modifies this, AccessToken
      ensures Valid() && Repr == old(Repr)
      ensures AccessToken == null && disposed == old(disposed)
      ensures old(AccessToken) != null ==> old(AccessToken).disposed && old(AccessToken).chars == []
    {
      if AccessToken != null {
        AccessToken.Dispose();
      }
      AccessToken := null;
    }

    method GetAccessToken() returns (r: Result<SecureString?>)
      ensures disposed ==> r == Failure(ObjectDisposed(ObjectName))
      ensures !disposed ==> r == Success(AccessToken)
    {
      if disposed {
        return Failure(ObjectDisposed(ObjectName));
      }
      r := Success(AccessToken);
    }

    /**
     * Asks the core service how long the held token has left. Sends nothing
     * when disposed or when no token is held, and changes nothing of its own.
     */
    method GetAccessTokenLifetimeRemaining() returns (r: Result<int32>)
      requires Valid()
      modifies CoreClient`sent
      ensures Valid()
      ensures AccessToken == old(AccessToken) && disposed == old(disposed)
      ensures disposed ==> r == Failure(ObjectDisposed(ObjectName)) && CoreClient.sent == old(CoreClient.sent)
      ensures !disposed && AccessToken == null ==> r == Success(0) && CoreClient.sent == old(CoreClient.sent)
      ensures !disposed && AccessToken != null && AccessToken.disposed ==>
                r == Failure(ObjectDisposed("SecureString")) && CoreClient.sent == old(CoreClient.sent)
      ensures !disposed && AccessToken != null && !AccessToken.disposed ==>
                var request := ProbeRequest(AccessToken.chars);
                CoreClient.sent == old(CoreClient.sent) + [request] &&
                r == ProbeLifetime(SafeguardCoreUrl, CoreClient.reply(|old(CoreClient.sent)|, request))
    {
      if disposed {
        return Failure(ObjectDisposed(ObjectName));
      }
      var has := HasAccessToken();
      if !has {
        return Success(0);
      }
      var token := AccessToken.ToInsecureString();
      if token.Failure? {
        return Failure(token.error);
      }
      var response := CoreClient.Execute(ProbeRequest(token.value));
      r := ProbeLifetime(CoreClient.baseUrl, response);
    }

    /**
     * Fetches a broker token through the concrete login flow and exchanges it
     * for a new access token. The broker token is released at the one exit of
     * its scope, whichever way the exchange ends, and is never kept. A failed
     * exchange leaves the held token as it was; a successful one replaces the
     * reference without erasing the previous token.
     */
    method RefreshAccessToken() returns (r: Outcome)
      requires Valid()
      modifies this, Rsts, CoreClient`sent
      ensures Valid() && fresh(Repr - old(Repr))
      ensures disposed == old(disposed)
      ensures old(disposed) ==>
                r == Fail(ObjectDisposed(ObjectName)) && AccessToken == old(AccessToken) &&
                Rsts.calls == old(Rsts.calls) && Rsts.issued == old(Rsts.issued) &&
                CoreClient.sent == old(CoreClient.sent)
      ensures !old(disposed) ==> Rsts.calls == old(Rsts.calls) + 1
      ensures !old(disposed) && Rsts.outcome(old(Rsts.calls)).Failure? ==>
                r == Fail(Rsts.outcome(old(Rsts.calls)).error) && AccessToken == old(AccessToken) &&
                Rsts.issued == old(Rsts.issued) && CoreClient.sent == old(CoreClient.sent)
      ensures !old(disposed) && Rsts.outcome(old(Rsts.calls)).Success? ==>
                var request := ExchangeRequest(Rsts.outcome(old(Rsts.calls)).value);
                var response := CoreClient.reply(|old(CoreClient.sent)|, request);
                |Rsts.issued| == |old(Rsts.issued)| + 1 && Rsts.issued[|Rsts.issued| - 1].disposed &&
                CoreClient.sent == old(CoreClient.sent) + [request] &&
                (response.responseStatus != Completed ==>
                   r == Fail(ConnectionFailed(SafeguardCoreUrl, response.errorMessage)) &&
                   AccessToken == old(AccessToken)) &&
                (response.responseStatus == Completed && !response.isSuccessful ==>
                   r == Fail(ExchangeRejected(response.statusCode, response.content)) &&
                   AccessToken == old(AccessToken)) &&
                (response.responseStatus == Completed && response.isSuccessful ==>
                   r == Pass && AccessToken != null && fresh(AccessToken) &&
                   AccessToken.chars == response.userToken && !AccessToken.disposed)
      ensures old(AccessToken) != null ==>
                old(AccessToken).chars == old(AccessToken.chars) && old(AccessToken).disposed == old(AccessToken.disposed)
    {
      if disposed {
        return Fail(ObjectDisposed(ObjectName));
      }
      var fetched := Rsts.GetRstsTokenInternal();
      if fetched.Failure? {
        return Fail(fetched.error);
      }
      var rstsToken := fetched.value;
      // using (rstsToken) { ... }: the token is disposed at the block's single exit
      var sts := rstsToken.ToInsecureString();
      r := ExchangeStsToken(sts.value);
      rstsToken.Dispose();
      Repr := Repr + {rstsToken};
    }

    /**
     * The body of the `using` block in RefreshAccessToken: POST the broker
     * token and either throw or store the `UserToken` of the answer.
     */
    method ExchangeStsToken(stsAccessToken: string) returns (r: Outcome)
      modifies this`AccessToken, this`Repr, CoreClient`sent
      ensures var request := ExchangeRequest(stsAccessToken);
              var response := CoreClient.reply(|old(CoreClient.sent)|, request);
              CoreClient.sent == old(CoreClient.sent) + [request] &&
              (response.responseStatus != Completed ==>
                 r == Fail(ConnectionFailed(CoreClient.baseUrl, response.errorMessage))) &&
              (response.responseStatus == Completed && !response.isSuccessful ==>
                 r == Fail(ExchangeRejected(response.statusCode, response.content))) &&
              (response.responseStatus == Completed && response.isSuccessful ==>
                 r == Pass && AccessToken != null && AccessToken.chars == response.userToken && !AccessToken.disposed)
      ensures r.Fail? ==> AccessToken == old(AccessToken) && Repr == old(Repr)
      ensures r.Pass? ==> AccessToken != null && fresh(AccessToken) && Repr == old(Repr) + {AccessToken}
    {
      var response := CoreClient.Execute(ExchangeRequest(stsAccessToken));
      if response.responseStatus != Completed {
        r := Fail(ConnectionFailed(CoreClient.baseUrl, response.errorMessage));
      } else if !response.isSuccessful {
        r := Fail(ExchangeRejected(response.statusCode, response.content));
      } else {
        AccessToken := new SecureString(response.userToken);
        Repr := Repr + {AccessToken};
        r := Pass;
      }
    }

    /** `Dispose()`: the public entry, `Dispose(true)`. */
    method Dispose()
      requires Valid()
      modifies this, AccessToken
      ensures Valid() && Repr == old(Repr)
      ensures disposed && AccessToken == null
      ensures old(disposed) ==> unchanged(this)
      ensures !old(disposed) && old(AccessToken) != null ==> old(AccessToken).disposed && old(AccessToken).chars == []
    {
      DisposeWith(true);
    }

    /**
     * `Dispose(bool disposing)`: does nothing when already disposed or when not
     * disposing; otherwise clears the token and then, in a `finally`, marks
     * the object disposed.
     */
    method DisposeWith(disposing: bool)
      requires Valid()
      modifies this, AccessToken
      ensures Valid() && Repr == old(Repr)
      ensures old(disposed) || !disposing ==>
                unchanged(this) && (old(AccessToken) != null ==> unchanged(old(AccessToken)))
      ensures !old(disposed) && disposing ==>
                disposed && AccessToken == null &&
                (old(AccessToken) != null ==> old(AccessToken).disposed && old(AccessToken).chars == [])
    {
      if disposed || !disposing {
        return;
      }
      ClearAccessToken();
      disposed := true;
    }
  }
}
