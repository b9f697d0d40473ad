/** The device object of src/shellyDevice.h:19-53 and its transport
    `shellyDevice::GET` (src/shellyDevice.cpp:30-95): one RPC call with at most
    one Digest-authenticated retry. The HTTP client is a stub object that
    records every request and answers it through a responder function. */
module ShellyDevice {
  import opened Wrappers
  import opened ArduinoString
  import opened Challenge
  import opened DigestAuth
  import opened AuthorizationHeader

  /** `shellyDevice`: a display name and the private `_server`, `_user` and
      `_password`, none of which the transport changes. */
  datatype Device = Device(name: string, server: string, user: string, password: string)

  /** The constructor `shellyDevice(serverIP, password = "")`. */
  function NewDevice(serverIP: string, password: string := ""): (d: Device)
    ensures d.server == "http://" + serverIP && d.user == "admin"
    ensures d.password == password && d.name == serverIP
  {
    Device(serverIP, "http://" + serverIP, "admin", password)
  }

  /** `server()`: the full server string. */
  function Server(d: Device): string {
    d.server
  }

  lemma ServerOfNewDevice(serverIP: string, password: string)
    ensures Server(NewDevice(serverIP, password)) == "http://" + serverIP
  {
  }

  /** `HTTP_CODE_OK` and `HTTP_CODE_UNAUTHORIZED`. */
  const CodeOk: int := 200
  const CodeUnauthorized: int := 401

  /** A request as it leaves the client: the URL and the `Authorization`
      header, if one was added. */
  datatype Request = Request(url: string, authorization: Option<string>)

  /** What comes back: the status code (negative for a transport failure, as
      `HTTPClient::GET` reports it), the collected `WWW-Authenticate` header,
      and the body. `Some(h)` stands for a header that `hasHeader` reports,
      which in the ESP32 `HTTPClient` means one collected with a non-empty
      value; a reply without it, or with an empty one, is `None`. */
  datatype Reply = Reply(code: int, wwwAuthenticate: Option<string>, body: string)

  /** The network and the device behind it: the reply to a request, given the
      requests sent before it. */
  type Responder = (seq<Request>, Request) -> Reply

  /** The `HTTPClient` object, reduced to what `GET` uses. */
  class HttpClient {
    const respond: Responder
    /** Every request issued so far, oldest first. */
    var log: seq<Request>
    var url: string
    var authorization: Option<string>
    var reply: Reply
    var connected: bool

    constructor (respond: Responder)
      ensures this.respond == respond && log == [] && !connected
    {
      this.respond := respond;
      log, url, authorization := [], "", None;
      reply := Reply(0, None, "");
      connected := false;
    }

    /** `begin(wifi, url)`: a new request to `url` with no extra headers. */
    method Begin(url: string)
      modifies this
      ensures this.url == url && authorization == None && connected
      ensures log == old(log) && reply == old(reply)
    {
      this.url, authorization, connected := url, None, true;
    }

    /** `addHeader("Authorization", value)`. */
    method AddAuthorization(value: string)
      modifies this
      ensures authorization == Some(value)
      ensures url == old(url) && log == old(log) && reply == old(reply) && connected == old(connected)
    {
      authorization := Some(value);
    }

    /** `GET()`: send the request, keep the reply, return its status code. */
    method Get() returns (code: int)
      modifies this
      ensures log == old(log) + [Request(url, authorization)]
      ensures reply == respond(old(log), Request(url, authorization)) && code == reply.code
      ensures url == old(url) && authorization == old(authorization) && connected == old(connected)
    {
      var request := Request(url, authorization);
      reply := respond(log, request);
      log := log + [request];
      code := reply.code;
    }

    /** `end()`: release the connection. */
    method End()
      modifies this
      ensures !connected
      ensures url == old(url) && authorization == old(authorization) && log == old(log) && reply == old(reply)
    {
      connected := false;
    }

    /** `hasHeader("WWW-Authenticate")`. */
    predicate HasHeader()
      reads this
    {
      reply.wwwAuthenticate.Some?
    }

    /** `header(0U)`: the collected header, or "" when it was not sent. */
    function Header(): string
      reads this
    {
      ChallengeOf(reply)
    }

    /** `getString()`: the body of the last reply. */
    function GetString(): string
      reads this
    {
      reply.body
    }
  }

  // ---------------------------------------------------------------------
  // What one call does, as a function of the device and the responder

  /** The collected `WWW-Authenticate` header of a reply, or "" when it was
      not sent. */
  function ChallengeOf(r: Reply): string {
    match r.wwwAuthenticate
    case Some(h) => h
    case None => ""
  }

  /** The URL every request of a call goes to. */
  function Url(d: Device, rpcMethod: string): string {
    d.server + "/rpc/" + rpcMethod
  }

  /** The retry condition: the first reply is 401, carries a challenge, and a
      password is configured. */
  predicate WillRetry(first: Reply, password: string) {
    first.wwwAuthenticate.Some? && first.code == CodeUnauthorized && |password| > 0
  }

  /** The payload returned for a final reply: its body on 200, otherwise the
      status code wrapped as `{"httpResponse": <code>}`. */
  function Payload(r: Reply): string {
    if r.code == CodeOk then r.body else StatusPayload(r.code)
  }

  function StatusPayload(code: int): string {
    "{\"httpResponse\": " + IntToDecimal(code) + "}"
  }

  /** Reading the status code back out of a synthetic payload. */
  function ParseStatusPayload(s: string): (r: Option<int>)
  {
    var pre := "{\"httpResponse\": ";
    if |s| > |pre| && s[..|pre|] == pre && s[|s| - 1] == '}' then ParseInt(s[|pre|..|s| - 1]) else None
  }

  /** The requests one call issues and the string it returns. */
  datatype Outcome = Outcome(requests: seq<Request>, payload: string)

  /** The authenticated retry: the same URL, now with the Digest header
      answering the challenge `challenge`. */
  function RetryRequest(d: Device, rpcMethod: string, challenge: string, sha: Hash, cnonce: CNonce): Request {
    Request(Url(d, rpcMethod), Some(Authorization(sha, d.user, d.password, ParseChallenge(challenge), "/rpc/" + rpcMethod, cnonce)))
  }

  /** A call of `GET(rpcMethod)` after the requests `before`, with hash
      primitive `sha` and client nonce `cnonce`. */
  function Exchange(d: Device, rpcMethod: string, respond: Responder, before: seq<Request>, sha: Hash, cnonce: CNonce): Outcome {
    var first := Request(Url(d, rpcMethod), None);
    var r1 := respond(before, first);
    if WillRetry(r1, d.password) then
      var second := RetryRequest(d, rpcMethod, ChallengeOf(r1), sha, cnonce);
      var r2 := respond(before + [first], second);
      Outcome([first, second], Payload(r2))
    else
      Outcome([first], Payload(r1))
  }

  /** `shellyDevice::GET`. */
  method Get(d: Device, http: HttpClient, sha: Hash, cnonce: CNonce, rpcMethod: string) returns (payload: string)
    modifies http
    ensures var o := Exchange(d, rpcMethod, http.respond, old(http.log), sha, cnonce);
      http.log == old(http.log) + o.requests && payload == o.payload
    ensures !http.connected
  {
    ghost var before := http.log;
    ghost var first := Request(Url(d, rpcMethod), None);
    payload := "{}";
    var path := "/rpc/" + rpcMethod;
    assert d.server + path == Url(d, rpcMethod);
    http.Begin(d.server + path);
    var httpResponseCode := http.Get();
    ghost var r1 := http.reply;
    var needAuth := http.HasHeader() && httpResponseCode == CodeUnauthorized;
    if needAuth && |d.password| > 0 {
      httpResponseCode := Retry(d, http, sha, cnonce, rpcMethod);
      ExchangeWithRetry(d, rpcMethod, http.respond, before, sha, cnonce);
    } else {
      ExchangeWithoutRetry(d, rpcMethod, http.respond, before, sha, cnonce);
    }
    if httpResponseCode == CodeOk {
      payload := http.GetString();
    } else {
      payload := StatusPayload(httpResponseCode);
    }
    http.End();
  }

  /** The retry branch of `shellyDevice::GET`: read the challenge of the
      reply at hand, close the connection, and send the request again with
      the Digest header built from that challenge. */
  method Retry(d: Device, http: HttpClient, sha: Hash, cnonce: CNonce, rpcMethod: string) returns (code: int)
    modifies http
    ensures var second := RetryRequest(d, rpcMethod, ChallengeOf(old(http.reply)), sha, cnonce);
      http.log == old(http.log) + [second] && http.reply == http.respond(old(http.log), second)
    ensures code == http.reply.code && http.connected
  {
    var path := "/rpc/" + rpcMethod;
    assert d.server + path == Url(d, rpcMethod);
    var authHeader := http.Header();
    http.End();
    var ch := ParseChallenge(authHeader);
    var authString := BuildAuthorization(sha, d.user, d.password, ch, path, cnonce);
    http.Begin(d.server + path);
    http.AddAuthorization(authString);
    code := http.Get();
  }

  /** `Exchange` when the retry condition holds. */
  lemma ExchangeWithRetry(d: Device, rpcMethod: string, respond: Responder, before: seq<Request>, sha: Hash, cnonce: CNonce)
    requires WillRetry(respond(before, Request(Url(d, rpcMethod), None)), d.password)
    ensures var first := Request(Url(d, rpcMethod), None);
      var r1 := respond(before, first);
      var second := RetryRequest(d, rpcMethod, ChallengeOf(r1), sha, cnonce);
      Exchange(d, rpcMethod, respond, before, sha, cnonce) == Outcome([first, second], Payload(respond(before + [first], second)))
  {
  }

  /** `Exchange` when the retry condition fails. */
  lemma ExchangeWithoutRetry(d: Device, rpcMethod: string, respond: Responder, before: seq<Request>, sha: Hash, cnonce: CNonce)
    requires !WillRetry(respond(before, Request(Url(d, rpcMethod), None)), d.password)
    ensures var first := Request(Url(d, rpcMethod), None);
      Exchange(d, rpcMethod, respond, before, sha, cnonce) == Outcome([first], Payload(respond(before, first)))
  {
  }

  // ---------------------------------------------------------------------
  // Properties of one call

  /** One or two requests, all to `server + "/rpc/" + rpcMethod`; the first
      without an `Authorization` header; a second one exactly when the retry
      condition holds, and then carrying the Digest header computed from the
      first reply's challenge. */
  lemma {:induction false} ExchangeRequests(d: Device, rpcMethod: string, respond: Responder, before: seq<Request>, sha: Hash, cnonce: CNonce)
    ensures var o, r1 := Exchange(d, rpcMethod, respond, before, sha, cnonce), respond(before, Request(Url(d, rpcMethod), None));
      (1 <= |o.requests| <= 2) &&
      (forall i :: 0 <= i < |o.requests| ==> o.requests[i].url == d.server + "/rpc/" + rpcMethod) &&
      o.requests[0].authorization == None &&
      (|o.requests| == 2 <==> r1.code == 401 && r1.wwwAuthenticate.Some? && d.password != "") &&
      (|o.requests| == 2 ==>
         o.requests[1].authorization ==
         Some(Authorization(sha, d.user, d.password, ParseChallenge(r1.wwwAuthenticate.value), "/rpc/" + rpcMethod, cnonce)))
  {
  }

  /** The returned string: the body of the final reply on 200 (the final
      reply being the retry's when there was one), otherwise the synthetic
      status payload for its code. The initial "{}" is never what a non-200
      call returns. */
  lemma ExchangePayload(d: Device, rpcMethod: string, respond: Responder, before: seq<Request>, sha: Hash, cnonce: CNonce)
    ensures var o := Exchange(d, rpcMethod, respond, before, sha, cnonce);
      var last := respond(before + o.requests[..|o.requests| - 1], o.requests[|o.requests| - 1]);
      (last.code == 200 ==> o.payload == last.body) &&
      (last.code != 200 ==> o.payload == "{\"httpResponse\": " + IntToDecimal(last.code) + "}" &&
                            o.payload != "{}" && ParseStatusPayload(o.payload) == Some(last.code))
  {
    var o := Exchange(d, rpcMethod, respond, before, sha, cnonce);
    var last := respond(before + o.requests[..|o.requests| - 1], o.requests[|o.requests| - 1]);
    if |o.requests| == 1 {
      assert before + o.requests[..0] == before;
    } else {
      assert o.requests[..1] == [o.requests[0]];
    }
    if last.code != 200 {
      StatusPayloadRoundTrip(last.code);
    }
  }

  /** The code can be read back from the synthetic payload. */
  lemma StatusPayloadRoundTrip(code: int)
    ensures ParseStatusPayload(StatusPayload(code)) == Some(code)
    ensures StatusPayload(code) != "{}"
  {
    var pre, digits := "{\"httpResponse\": ", IntToDecimal(code);
    var s := StatusPayload(code);
    assert s == pre + digits + "}";
    assert s[..|pre|] == pre;
    assert s[|pre|..|s| - 1] == digits;
    IntToDecimalRoundTrip(code);
  }

  /** A first reply that is not a 401 with a challenge, or a device without
      a password, ends the call after one request with that reply's payload. */
  lemma NoRetry(d: Device, rpcMethod: string, respond: Responder, before: seq<Request>, sha: Hash, cnonce: CNonce)
    requires var r1 := respond(before, Request(Url(d, rpcMethod), None));
      r1.code != 401 || r1.wwwAuthenticate.None? || d.password == ""
    ensures var o := Exchange(d, rpcMethod, respond, before, sha, cnonce);
      o.requests == [Request(Url(d, rpcMethod), None)] &&
      o.payload == Payload(respond(before, Request(Url(d, rpcMethod), None)))
  {
  }

  /** A device made with the default password never retries. */
  lemma DefaultPasswordNeverRetries(serverIP: string, rpcMethod: string, respond: Responder, before: seq<Request>, sha: Hash, cnonce: CNonce)
    ensures |Exchange(NewDevice(serverIP), rpcMethod, respond, before, sha, cnonce).requests| == 1
  {
    NoRetry(NewDevice(serverIP), rpcMethod, respond, before, sha, cnonce);
  }

  /** The challenge's `algorithm` is echoed but never checked: whatever it
      names, the retry is sent, with a SHA-256 response. */
  lemma AlgorithmNotChecked(d: Device, rpcMethod: string, respond: Responder, before: seq<Request>, sha: Hash, cnonce: CNonce,
                            qop: string, realm: string, nonce: string, algorithm: string)
    requires IsToken(qop) && IsToken(realm) && IsToken(nonce) && d.password != ""
    requires var r1 := respond(before, Request(Url(d, rpcMethod), None));
      r1.code == 401 && r1.wwwAuthenticate == Some(ChallengeHeader(qop, realm, nonce, algorithm))
    ensures var o := Exchange(d, rpcMethod, respond, before, sha, cnonce);
      |o.requests| == 2 &&
      o.requests[1].authorization ==
        Some(AuthorizationLayout(d.user, realm, nonce, algorithm,
                                 ClientResponse(sha, d.user, d.password, Challenge("Digest", realm, nonce, qop, algorithm), "/rpc/" + rpcMethod, cnonce),
                                 qop, NatToDecimal(cnonce)))
  {
    ParseChallengeHeader(qop, realm, nonce, algorithm);
  }

  // ---------------------------------------------------------------------
  // A device on the other end

  /** The challenge a device sends: qop "auth" and SHA-256. */
  function DeviceChallenge(realm: string, nonce: string): string {
    ChallengeHeader("auth", realm, nonce, "SHA-256")
  }

  /** What a device behind `host` with password `password` checks in a
      request: an `Authorization` header for the user "admin", its realm and
      nonce, qop "auth", and a response that is the RFC 7616 response for the
      request URI, the nonce count and the cnonce the header carries. */
  predicate Accepts(sha: Hash, host: string, password: string, realm: string, nonce: string, req: Request) {
    req.authorization.Some? && |host| <= |req.url| && req.url[..|host|] == host &&
    var c := ReadCredentials(req.authorization.value);
    c.username == "admin" && c.realm == realm && c.nonce == nonce && c.qop == "auth" &&
    c.response == Rfc7616Response(sha, c.username, realm, password, "GET", req.url[|host|..], nonce, c.nc, c.cnonce, c.qop)
  }

  /** The device as a responder: `body` for an accepted request, otherwise
      a 401 with its challenge. */
  function DigestDevice(sha: Hash, host: string, password: string, realm: string, nonce: string, body: string): Responder {
    (history: seq<Request>, req: Request) =>
      if Accepts(sha, host, password, realm, nonce, req) then Reply(CodeOk, None, body)
      else Reply(CodeUnauthorized, Some(DeviceChallenge(realm, nonce)), "")
  }

  lemma HexIsReadable(s: string)
    requires IsLowerHex(s)
    ensures IsToken(s)
  {
    assert forall i :: 0 <= i < |s| ==> s[i] != '"' && s[i] != '=' by {
      forall i | 0 <= i < |s| ensures s[i] != '"' && s[i] != '=' {
        assert IsLowerHexDigit(s[i]);
      }
    }
  }

  lemma DecimalHasNoComma(s: string)
    requires AllDigits(s)
    ensures ',' !in s
  {
    assert forall i :: 0 <= i < |s| ==> s[i] != ',' by {
      forall i | 0 <= i < |s| ensures s[i] != ',' {
        assert IsDigit(s[i]);
      }
    }
  }

  /** What the device reads from the header a client with password `p` sends. */
  lemma DeviceReadsClientHeader(sha: Hash, user: string, p: string, realm: string, nonce: string, path: string, cnonce: CNonce)
    requires IsToken(user) && IsToken(realm) && IsToken(nonce)
    ensures var ch := Challenge("Digest", realm, nonce, "auth", "SHA-256");
      ReadCredentials(Authorization(sha, user, p, ch, path, cnonce)) ==
      Credentials(user, realm, nonce, ClientResponse(sha, user, p, ch, path, cnonce), "auth", "1", NatToDecimal(cnonce))
  {
    var ch := Challenge("Digest", realm, nonce, "auth", "SHA-256");
    var x := ClientResponse(sha, user, p, ch, path, cnonce);
    HexIsReadable(x);
    DecimalHasNoComma(NatToDecimal(cnonce));
    assert IsToken("SHA-256") && '=' !in "auth" && ',' !in "auth";
    ReadAuthorizationLayout(user, realm, nonce, "SHA-256", x, "auth", NatToDecimal(cnonce));
  }

  /** A call of a device object made with password `p` against a device with
      password `password`: the first request is refused with the challenge,
      the retry carries the client's header, and the payload is the body
      exactly when the device accepts that header. */
  lemma DigestDeviceExchange(serverIP: string, p: string, sha: Hash, password: string, realm: string, nonce: string, body: string,
                             rpcMethod: string, before: seq<Request>, cnonce: CNonce)
    requires p != "" && IsToken(realm) && IsToken(nonce)
    ensures var d := NewDevice(serverIP, p);
      var o := Exchange(d, rpcMethod, DigestDevice(sha, d.server, password, realm, nonce, body), before, sha, cnonce);
      var ch := Challenge("Digest", realm, nonce, "auth", "SHA-256");
      |o.requests| == 2 &&
      o.requests[1] == Request(Url(d, rpcMethod), Some(Authorization(sha, "admin", p, ch, "/rpc/" + rpcMethod, cnonce))) &&
      o.payload == (if Accepts(sha, d.server, password, realm, nonce, o.requests[1]) then body else StatusPayload(401))
  {
    var d := NewDevice(serverIP, p);
    var respond := DigestDevice(sha, d.server, password, realm, nonce, body);
    var first := Request(Url(d, rpcMethod), None);
    var r1 := respond(before, first);
    assert r1 == Reply(CodeUnauthorized, Some(DeviceChallenge(realm, nonce)), "");
    ParseChallengeHeader("auth", realm, nonce, "SHA-256");
    var second := RetryRequest(d, rpcMethod, ChallengeOf(r1), sha, cnonce);
    assert second == Request(Url(d, rpcMethod), Some(Authorization(sha, "admin", p, Challenge("Digest", realm, nonce, "auth", "SHA-256"), "/rpc/" + rpcMethod, cnonce)));
    ExchangeWithRetry(d, rpcMethod, respond, before, sha, cnonce);
    DevicePayload(sha, d.server, password, realm, nonce, body, before + [first], second);
  }

  /** The payload of a call that ends at a device's answer. */
  lemma DevicePayload(sha: Hash, host: string, password: string, realm: string, nonce: string, body: string,
                      history: seq<Request>, req: Request)
    ensures Payload(DigestDevice(sha, host, password, realm, nonce, body)(history, req)) ==
      if Accepts(sha, host, password, realm, nonce, req) then body else StatusPayload(401)
  {
  }

  /** The retry a client with password `p` sends to `host`. */
  function ClientRetry(sha: Hash, host: string, p: string, realm: string, nonce: string, rpcMethod: string, cnonce: CNonce): Request {
    Request(host + "/rpc/" + rpcMethod,
            Some(Authorization(sha, "admin", p, Challenge("Digest", realm, nonce, "auth", "SHA-256"), "/rpc/" + rpcMethod, cnonce)))
  }

  /** The request URI a device sees after its own host. */
  lemma UrlParts(host: string, rpcMethod: string)
    ensures var u := host + "/rpc/" + rpcMethod;
      |host| <= |u| && u[..|host|] == host && u[|host|..] == "/rpc/" + rpcMethod
  {
    var u := host + "/rpc/" + rpcMethod;
    assert u == host + ("/rpc/" + rpcMethod);
  }

  /** Acceptance of a request to `url` whose header reads as `c`. */
  lemma AcceptsCredentials(sha: Hash, host: string, password: string, realm: string, nonce: string,
                           url: string, rest: string, h: string, c: Credentials)
    requires ReadCredentials(h) == c
    requires |host| <= |url| && url[..|host|] == host && url[|host|..] == rest
    ensures Accepts(sha, host, password, realm, nonce, Request(url, Some(h))) <==>
      c.username == "admin" && c.realm == realm && c.nonce == nonce && c.qop == "auth" &&
      c.response == Rfc7616Response(sha, c.username, realm, password, "GET", rest, nonce, c.nc, c.cnonce, c.qop)
  {
  }

  /** What a device sees in the retry of a client with password `p`. */
  lemma ClientRetryCredentials(sha: Hash, host: string, p: string, password: string, realm: string, nonce: string,
                               rpcMethod: string, cnonce: CNonce)
    requires IsToken(realm) && IsToken(nonce)
    ensures var path, cn := "/rpc/" + rpcMethod, NatToDecimal(cnonce);
      Accepts(sha, host, password, realm, nonce, ClientRetry(sha, host, p, realm, nonce, rpcMethod, cnonce)) <==>
      Rfc7616Response(sha, "admin", realm, p, "GET", path, nonce, "1", cn, "auth") ==
      Rfc7616Response(sha, "admin", realm, password, "GET", path, nonce, "1", cn, "auth")
  {
    var path, cn := "/rpc/" + rpcMethod, NatToDecimal(cnonce);
    var ch := Challenge("Digest", realm, nonce, "auth", "SHA-256");
    var h := Authorization(sha, "admin", p, ch, path, cnonce);
    var c := Credentials("admin", realm, nonce, ClientResponse(sha, "admin", p, ch, path, cnonce), "auth", "1", cn);
    UrlParts(host, rpcMethod);
    DeviceReadsClientHeader(sha, "admin", p, realm, nonce, path, cnonce);
    ClientResponseIsRfc7616(sha, "admin", p, ch, rpcMethod, cnonce);
    AcceptsCredentials(sha, host, password, realm, nonce, host + "/rpc/" + rpcMethod, path, h, c);
  }

  /** A device accepts the header a client with the same password computes. */
  lemma RightPasswordAccepted(sha: Hash, host: string, password: string, realm: string, nonce: string, rpcMethod: string, cnonce: CNonce)
    requires IsToken(realm) && IsToken(nonce)
    ensures Accepts(sha, host, password, realm, nonce, ClientRetry(sha, host, password, realm, nonce, rpcMethod, cnonce))
  {
    ClientRetryCredentials(sha, host, password, password, realm, nonce, rpcMethod, cnonce);
  }

  /** What acceptance of a client's retry says about the two passwords. */
  lemma AcceptedResponse(sha: Hash, host: string, p: string, password: string, realm: string, nonce: string,
                         rpcMethod: string, cnonce: CNonce)
    requires IsToken(realm) && IsToken(nonce)
    requires Accepts(sha, host, password, realm, nonce, ClientRetry(sha, host, p, realm, nonce, rpcMethod, cnonce))
    ensures var path, cn := "/rpc/" + rpcMethod, NatToDecimal(cnonce);
      Rfc7616Response(sha, "admin", realm, p, "GET", path, nonce, "1", cn, "auth") ==
      Rfc7616Response(sha, "admin", realm, password, "GET", path, nonce, "1", cn, "auth")
  {
    ClientRetryCredentials(sha, host, p, password, realm, nonce, rpcMethod, cnonce);
  }

  /** A device accepts the header of a client with another password only
      through a SHA-256 collision on A1 or on the KD input. */
  lemma AcceptedPasswordMatches(sha: Hash, host: string, p: string, password: string, realm: string, nonce: string,
                                rpcMethod: string, cnonce: CNonce)
    requires IsToken(realm) && IsToken(nonce)
    requires Accepts(sha, host, password, realm, nonce, ClientRetry(sha, host, p, realm, nonce, rpcMethod, cnonce))
    ensures var a1, a2 := A1("admin", realm, p), A1("admin", realm, password);
      var data := KDData(sha, "GET", "/rpc/" + rpcMethod, nonce, "1", NatToDecimal(cnonce), "auth");
      p == password || Collides(sha, a1, a2) || Collides(sha, HexHash(sha, a1) + ":" + data, HexHash(sha, a2) + ":" + data)
  {
    AcceptedResponse(sha, host, p, password, realm, nonce, rpcMethod, cnonce);
    ResponseDeterminesPassword(sha, "admin", realm, p, password, "GET", "/rpc/" + rpcMethod, nonce, "1", NatToDecimal(cnonce), "auth");
  }

  /** With the right password the single retry logs in: two requests, and
      the device's body comes back. */
  lemma DigestLogin(serverIP: string, sha: Hash, password: string, realm: string, nonce: string, body: string,
                    rpcMethod: string, before: seq<Request>, cnonce: CNonce)
    requires password != "" && IsToken(realm) && IsToken(nonce)
    ensures var d := NewDevice(serverIP, password);
      var o := Exchange(d, rpcMethod, DigestDevice(sha, d.server, password, realm, nonce, body), before, sha, cnonce);
      |o.requests| == 2 && o.payload == body
  {
    var d := NewDevice(serverIP, password);
    DigestDeviceExchange(serverIP, password, sha, password, realm, nonce, body, rpcMethod, before, cnonce);
    RightPasswordAccepted(sha, d.server, password, realm, nonce, rpcMethod, cnonce);
  }

  /** With a wrong password the retry is refused, unless SHA-256 collides on
      A1 or on the KD input: the response the device checks pins the
      password down. */
  lemma WrongPasswordRefused(serverIP: string, p: string, sha: Hash, password: string, realm: string, nonce: string, body: string,
                             rpcMethod: string, before: seq<Request>, cnonce: CNonce)
    requires p != "" && IsToken(realm) && IsToken(nonce)
    ensures var d := NewDevice(serverIP, p);
      var o := Exchange(d, rpcMethod, DigestDevice(sha, d.server, password, realm, nonce, body), before, sha, cnonce);
      var a1, a2 := A1("admin", realm, p), A1("admin", realm, password);
      var data := KDData(sha, "GET", "/rpc/" + rpcMethod, nonce, "1", NatToDecimal(cnonce), "auth");
      |o.requests| == 2 &&
      (password != p ==>
         o.payload == StatusPayload(401) ||
         Collides(sha, a1, a2) || Collides(sha, HexHash(sha, a1) + ":" + data, HexHash(sha, a2) + ":" + data))
  {
    var d := NewDevice(serverIP, p);
    DigestDeviceExchange(serverIP, p, sha, password, realm, nonce, body, rpcMethod, before, cnonce);
    if Accepts(sha, d.server, password, realm, nonce, ClientRetry(sha, d.server, p, realm, nonce, rpcMethod, cnonce)) {
      AcceptedPasswordMatches(sha, d.server, p, password, realm, nonce, rpcMethod, cnonce);
    }
  }

  /** A device object made with the default password gets no further than
      the challenge. */
  lemma NoPasswordRefused(serverIP: string, sha: Hash, password: string, realm: string, nonce: string, body: string,
                          rpcMethod: string, before: seq<Request>, cnonce: CNonce)
    ensures var d := NewDevice(serverIP);
      var o := Exchange(d, rpcMethod, DigestDevice(sha, d.server, password, realm, nonce, body), before, sha, cnonce);
      |o.requests| == 1 && o.payload == StatusPayload(401)
  {
    var d := NewDevice(serverIP);
    NoRetry(d, rpcMethod, DigestDevice(sha, d.server, password, realm, nonce, body), before, sha, cnonce);
  }
}
