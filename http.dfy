/**
 * The HTTP transport the authenticator talks through, reduced to what it
 * observes: the requests it sends and the responses it gets back. A `Client`
 * stands for one RestSharp `RestClient` bound to a base URL; what the server
 * answers is an oracle fixed when the client is made.
 */
module Http {
  import opened Outcomes

  datatype Header = Header(name: string, value: string)

  datatype HttpMethod = Get | Post

  /** A request body: none, or the JSON object `{ "StsAccessToken": token }`. */
  datatype Body = NoBody | StsAccessTokenBody(stsAccessToken: string)

  datatype Request = Request(httpMethod: HttpMethod, resource: string, headers: seq<Header>, body: Body)

  /** RestSharp's `ResponseStatus`; only `Completed` means the server answered. */
  datatype ResponseStatus = NoStatus | Completed | TransportError | TimedOut | Aborted

  /**
   * What `Execute` hands back. `userToken` is the `UserToken` field that JSON
   * decoding of `content` yields; the decoding itself is not modelled.
   */
  datatype Response = Response(
    responseStatus: ResponseStatus,
    isSuccessful: bool,
    statusCode: int,
    content: string,
    errorMessage: string,
    headers: seq<Header>,
    userToken: string)

  /** A handle on a caller-supplied certificate validation callback; what it checks is not modelled. */
  datatype CertificateCallback = CertificateCallback(handle: nat)

  /** Which certificates a client accepts. */
  datatype TrustPolicy = PlatformDefault | AcceptAll | Custom(callback: CertificateCallback)

  predicate HasHeader(headers: seq<Header>, name: string)
  {
    exists i :: 0 <= i < |headers| && headers[i].name == name
  }

  /** `headers[i]` is the first header called `name`. */
  predicate FirstMatchAt(headers: seq<Header>, name: string, i: int)
  {
    0 <= i < |headers| && headers[i].name == name && forall j :: 0 <= j < i ==> headers[j].name != name
  }

  /**
   * The value of the first header called exactly `name` (an ordinal,
   * case-sensitive comparison, as LINQ's `FirstOrDefault` over the response
   * headers does), or None when there is none.
   */
  function FindHeader(headers: seq<Header>, name: string): (r: Option<string>)
    ensures r.None? <==> !HasHeader(headers, name)
    ensures r.Some? ==> exists i :: FirstMatchAt(headers, name, i) && headers[i].value == r.value
  {
    if headers == [] then None
    else if headers[0].name == name then
      assert FirstMatchAt(headers, name, 0);
      Some(headers[0].value)
    else
      var r := FindHeader(headers[1..], name);
      assert HasHeader(headers, name) ==> HasHeader(headers[1..], name) by {
        if HasHeader(headers, name) {
          var i :| 0 <= i < |headers| && headers[i].name == name;
          assert headers[1..][i - 1].name == name;
        }
      }
      assert r.Some? ==> exists i :: FirstMatchAt(headers, name, i) && headers[i].value == r.value by {
        if r.Some? {
          var i :| FirstMatchAt(headers[1..], name, i) && headers[1..][i].value == r.value;
          assert headers[i + 1] == headers[1..][i];
          assert FirstMatchAt(headers, name, i + 1) by {
            forall j | 0 <= j < i + 1 ensures headers[j].name != name {
              if j > 0 { assert headers[j] == headers[1..][j - 1]; }
            }
          }
        }
      }
      r
  }

  class Client {
    const baseUrl: string
    /** The server's answer to the n-th request this client sends. */
    const reply: (nat, Request) -> Response
    var certificateCheck: TrustPolicy
    /** Every request executed so far, oldest first. */
    var sent: seq<Request>

    constructor (baseUrl: string, reply: (nat, Request) -> Response)
      ensures this.baseUrl == baseUrl && this.reply == reply
      ensures certificateCheck == PlatformDefault && sent == []
    {
      this.baseUrl := baseUrl;
      this.reply := reply;
      certificateCheck := PlatformDefault;
      sent := [];
    }

    /** `RestClient.Execute`: send one request and return the server's answer to it. */
    method Execute(request: Request) returns (response: Response)
      modifies this`sent
      ensures sent == old(sent) + [request]
      ensures response == reply(|old(sent)|, request)
    {
      response := reply(|sent|, request);
      sent := sent + [request];
    }
  }
}
