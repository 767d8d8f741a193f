/**
 * Callers of the authenticator that use nothing but its contracts, against
 * mocked servers: what a client of the class can conclude.
 */
module Scenarios {
  import opened Outcomes
  import opened Int32Text
  import opened Http
  import opened Authentication

  function Unreachable(n: nat, request: Request): Response
  {
    Response(TransportError, false, 0, "", "connection refused", [], "")
  }

  /** A server that accepts every exchange and reports 42 seconds on every probe. */
  function Accepting(n: nat, request: Request): Response
  {
    Response(Completed, true, 200, "{\"UserToken\":\"api-token\"}", "",
             [Header(LifetimeHeader, "42")], "api-token")
  }

  /** A new authenticator holds no token and answers 0 without calling the server. */
  method FreshAuthenticator()
  {
    var login := new RstsLogin((n: nat) => Success("broker-token"));
    var auth := new AuthenticatorBase("safeguard.example", 4, false, None, login, Unreachable, Accepting);
    var has := auth.HasAccessToken();
    assert !has;
    var life := auth.GetAccessTokenLifetimeRemaining();
    assert life == Success(0) && auth.CoreClient.sent == [];
  }

  /** A successful exchange stores the server's token and erases the broker token. */
  method LoginStoresToken()
  {
    var login := new RstsLogin((n: nat) => Success("broker-token"));
    var auth := new AuthenticatorBase("safeguard.example", 4, false, None, login, Unreachable, Accepting);
    var refreshed := auth.RefreshAccessToken();
    assert refreshed == Pass;
    var has := auth.HasAccessToken();
    assert has && auth.AccessToken.chars == "api-token";
    assert login.issued[0].chars == [];
  }

  /** With a token held, a probe answered with lifetime header "42" reports 42 seconds. */
  method ProbeReports42(auth: AuthenticatorBase)
    requires auth.Valid() && !auth.disposed && auth.CoreClient.reply == Accepting
    requires auth.AccessToken != null && !auth.AccessToken.disposed
    modifies auth.CoreClient
  {
    var probe := Accepting(|auth.CoreClient.sent|, ProbeRequest(auth.AccessToken.chars));
    assert FindHeader(probe.headers, LifetimeHeader) == Some("42");
    assert FormatInt(42) == "42";
    ProbeReportsLifetime(auth.SafeguardCoreUrl, probe, 42);
    var life := auth.GetAccessTokenLifetimeRemaining();
    assert life == Success(42);
  }

  /** Once disposed, every token operation refuses, and disposing again is harmless. */
  method DisposedAuthenticator(auth: AuthenticatorBase)
    requires auth.Valid()
    modifies auth, auth.AccessToken, auth.Rsts, auth.CoreClient
  {
    auth.Dispose();
    var has := auth.HasAccessToken();
    assert !has;
    var token := auth.GetAccessToken();
    assert token == Failure(ObjectDisposed(ObjectName));
    var life := auth.GetAccessTokenLifetimeRemaining();
    assert life.Failure?;
    var calls := auth.Rsts.calls;
    var refreshed := auth.RefreshAccessToken();
    assert refreshed == Fail(ObjectDisposed(ObjectName)) && auth.Rsts.calls == calls;
    auth.Dispose();
    assert auth.disposed;
  }

  /** An exchange that cannot reach the core service stores no token. */
  method UnreachableExchange()
  {
    var login := new RstsLogin((n: nat) => Success("broker-token"));
    var auth := new AuthenticatorBase("safeguard.example", 4, true, None, login, Unreachable, Unreachable);
    assert auth.IgnoreSsl && auth.CoreClient.certificateCheck == AcceptAll;
    var refreshed := auth.RefreshAccessToken();
    assert refreshed == Fail(ConnectionFailed(auth.SafeguardCoreUrl, "connection refused"));
    var has := auth.HasAccessToken();
    assert !has;
    assert login.issued[0].disposed;
  }
}
