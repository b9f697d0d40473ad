# Shelly Gen2+ HTTP transport with Digest authentication

This project models the core of an Arduino library for Shelly Gen2+ devices.
The core is the `shellyDevice` object and its RPC transport `GET`.

A `GET(rpcMethod)` call does the following:

- It requests `http://<ip>/rpc/<rpcMethod>` without credentials.
- It retries once, with an HTTP Digest `Authorization` header, when the
  first reply is 401 Unauthorized, carries a `WWW-Authenticate` challenge
  and a password is configured.
- It returns the body on 200, or `{"httpResponse": <code>}` otherwise.

The digest is the SHA-256, `qop=auth` profile of RFC 7616 (section 3.4.1).
The device classes contribute RPC wrappers. Each one calls `GET` with a
method string built from a constant name, an instance id and, for one
wrapper, a position.

The modules follow the program:

- `Wrappers` is the `Option` type.
- `ArduinoString` covers the Arduino `String` operations the code relies on.
  These are `indexOf`, `substring`, `String(int)` (decimal) and
  `String(v, HEX)` (one lowercase hex digit).
- `Challenge` holds `extractParam` and the reading of the `WWW-Authenticate`
  challenge.
- `DigestAuth` holds the `SHA256hash` hex loop, the HA1 → HA2 → response
  chain and the `Authorization` value.
- `ShellyDevice` holds the device record, built by the constructor, and a
  stub `HttpClient` object that logs every request and answers it through a
  responder function. It also holds the `Get` method and `Exchange`, its
  specification as a function of the device and the responder.
- `AuthorizationHeader` and the `DigestDevice` responder in `ShellyDevice`
  are a reference device: they read the client's header back and check the
  response as RFC 7616 defines it. They are not part of the library. They
  make it possible to state the end-to-end property: with the right
  password a call returns the body, and with a wrong one it gets a 401
  unless SHA-256 collides.
- `ShellyEndpoints` holds the wrappers' method strings, a parser for them
  and a method that invokes a wrapper through `Get`.

SHA-256 is a parameter `sha: Hash` (a function from strings to 32 bytes).
The `random(556822323)` client nonce is a parameter `cnonce` of the subset
type `CNonce` (`0 <= cnonce < 556822323`).

Where a reader of the code might expect something else, the model follows what the code does:

- The challenge's scheme and algorithm are never checked.
  `AuthMethod` is computed and never used.
  The text after `algorithm=` is copied into the header as it is.
- `algo` is everything after the first `algorithm=`. When that marker is
  missing, `indexOf` yields -1 and the value starts at index 9 of the
  header.
- The header value starts with a space (`" Digest username=…"`).
- `algorithm`, `qop`, `nc` and `cnonce` are not quoted. No `uri` directive
  is sent.
- HA2 hashes `"GET:" + "/rpc/" + rpcMethod`, with the query string
  included.
- The library does not promise that the password never appears verbatim in
  the header, and if it happens to occur inside another field it does.
  What the model proves is that the password reaches the header only
  through the 64-hex-digit response. Two headers for different passwords
  agree everywhere else.

Arduino's `substring(left, right)` clamps `right` to the length, and treats
`right = -1` (a delimiter `indexOf` did not find) as the length.
`ArduinoString.Substring` states this as the modelling assumption about
the library.

## Model

| member | source | states |
|---|---|---|
| ArduinoString.IndexOf | src/shellyDevice.cpp:9 | `indexOf(m, from)` is -1 exactly when `m` occurs at no index from `from` on; otherwise it is an occurrence after which nothing earlier matches |
| ArduinoString.IndexOfChar | src/shellyDevice.cpp:12 | `indexOf(c, from)` is the first index at or after `from` holding `c`, or -1 when there is none |
| ArduinoString.SubstringFrom | src/shellyDevice.cpp:57 | `substring(left)` is the suffix from `left`, and empty when `left` is past the end |
| ArduinoString.NatToDecimal | src/shellyDevice.cpp:67 | `String(n)` is a non-empty string of digits without a leading zero |
| ArduinoString.NatToDecimalRoundTrip | src/shellyDevice.cpp:67 | reading the decimal text back gives the number |
| ArduinoString.IntToDecimalRoundTrip | src/shellyDevice.cpp:92 | `String(code)` for any status code, negative ones included, parses back to the code |
| ArduinoString.IntToDecimalInjective | src/shellyDevice.cpp:92 | different codes give different texts |
| ArduinoString.HexDigitRoundTrip | src/shellyDevice.cpp:25 | `String(v, HEX)` for a nibble is one lowercase hex digit that determines `v` |
| Challenge.ExtractParamSpec | src/shellyDevice.cpp:7-13 | the result is empty when the marker does not occur and never contains the delimiter |
| Challenge.ExtractParamAfterFirstMarker | src/shellyDevice.cpp:9-12 | when the first occurrence of the marker is at `b`, the result is the text from `b + |param|` up to the next delimiter or the end of the input |
| Challenge.ExtractParamOf | src/shellyDevice.cpp:9-12 | with the first marker after `pre` and a value free of the delimiter, the value is what comes back |
| Challenge.ParseChallenge | src/shellyDevice.cpp:53-57 | realm, nonce and qop never contain a double quote |
| Challenge.MissingDirectivesAreEmpty | src/shellyDevice.cpp:54-56 | a missing `realm="`, `nonce="` or `qop="` gives an empty value |
| Challenge.AlgorithmWithoutDirective | src/shellyDevice.cpp:57 | with no `algorithm=` in the header, `algo` is the header from index 9 on |
| Challenge.ChallengeScheme | src/shellyDevice.cpp:53 | the scheme read from a `Digest …` challenge is `Digest`, the text up to the first space |
| Challenge.ChallengeRealm | src/shellyDevice.cpp:54 | in a `Digest qop="…", realm="…", nonce="…", algorithm=…` challenge whose qop is free of `"` and `=`, any quote-free realm is read back exactly |
| Challenge.ChallengeNonce | src/shellyDevice.cpp:55 | in a `Digest qop="…", realm="…", nonce="…", algorithm=…` challenge whose qop and realm are free of `"` and `=`, any quote-free nonce (`=` padding included) is read back exactly |
| Challenge.ChallengeQop | src/shellyDevice.cpp:56 | in a `Digest qop="…", realm="…", nonce="…", algorithm=…` challenge, any quote-free qop is read back exactly |
| Challenge.ChallengeAlgorithm | src/shellyDevice.cpp:57 | with qop, realm and nonce free of `"` and `=`, the algorithm is everything after `algorithm=` |
| Challenge.ParseChallengeHeader | src/shellyDevice.cpp:53-57 | a challenge `Digest qop="…", realm="…", nonce="…", algorithm=…` whose qop, realm and nonce are free of `"` and `=` parses to exactly those values |
| Challenge.RealmMarkerInQop | src/shellyDevice.cpp:9-12 | `extractParam` takes the first `realm="` anywhere in the header: with the qop `realm=`, the realm is read as `, realm=`, whatever the real realm is |
| DigestAuth.SHA256Hash | src/shellyDevice.cpp:16-28 | the loop, shifting and masking each byte as the signed `char` the buffer holds, yields 64 lowercase hex digits; characters 2i and 2i+1 are the high and low nibble of byte i of the hash |
| DigestAuth.HexOfNibbles | src/shellyDevice.cpp:23-26 | the hex text has two characters per byte, high nibble first |
| DigestAuth.NibblesIgnoreSign | src/shellyDevice.cpp:25 | shifting and masking the signed `char` gives the same nibbles as the unsigned byte; the loop of `SHA256Hash` relies on it for each byte |
| DigestAuth.HexOfIsLowerHex | src/shellyDevice.cpp:22-27 | the hex text is two lowercase hex digits per byte |
| DigestAuth.HexOfRoundTrip | src/shellyDevice.cpp:22-27 | the hex text determines the 32 hash bytes |
| DigestAuth.HexHash | src/shellyDevice.cpp:16-28 | `SHA256hash(s)` is 64 lowercase hex digits that decode to the hash of `s` |
| DigestAuth.ClientResponse | src/shellyDevice.cpp:60-69 | the response directive is 64 lowercase hex digits |
| DigestAuth.BuildAuthorization | src/shellyDevice.cpp:59-80 | the header built step by step through three calls of `SHA256hash` is `Authorization`: the directive layout, with the response computed from HA1 and HA2 |
| DigestAuth.ClientResponseIsRfc7616 | src/shellyDevice.cpp:60-69 | the chain HA1 → HA2 → response is KD(H(A1), nonce:nc:cnonce:qop:H(A2)) of RFC 7616 section 3.4.1, with A1 = user:realm:password, method GET, uri `/rpc/<rpcMethod>` and nc = 1 |
| DigestAuth.PasswordOnlyInResponse | src/shellyDevice.cpp:71-80 | the header is a prefix and a suffix that do not depend on the password with the response digest between them |
| DigestAuth.PasswordsAgreeOutsideResponse | src/shellyDevice.cpp:71-80 | headers for two passwords have the same length and agree outside the 64 response characters |
| DigestAuth.AuthorizationCNonceInjective | src/shellyDevice.cpp:67-80 | different client nonces give different headers |
| DigestAuth.ResponseDeterminesPassword | src/shellyDevice.cpp:60-69 | equal responses for two passwords mean equal passwords or a SHA-256 collision on one of the two hashed inputs |
| AuthorizationHeader.ReadCredentials | src/shellyDevice.cpp:71-80 | the quoted fields read from a header contain no quote, and the unquoted ones no comma |
| AuthorizationHeader.ReadAuthorizationLayout | src/shellyDevice.cpp:71-80 | reading the header back yields username, realm, nonce, response, qop, nc = 1 and cnonce as they were written |
| ShellyDevice.NewDevice | src/shellyDevice.h:25-29 | the constructor sets the server to `http://` + ip, the user to `admin`, the name to the ip, and the password, which defaults to empty |
| ShellyDevice.ServerOfNewDevice | src/shellyDevice.h:31 | `server()` returns `http://` + ip |
| ShellyDevice.HttpClient.Get | src/shellyDevice.cpp:45 | one request is logged with the current URL and header, and its reply is kept |
| ShellyDevice.Get | src/shellyDevice.cpp:30-95 | the requests logged and the string returned are those of `Exchange`, and the connection is released |
| ShellyDevice.Retry | src/shellyDevice.cpp:50-85 | the retry branch logs exactly one request, to the same URL, with the Digest header answering the challenge of the reply at hand, and keeps its reply |
| ShellyDevice.ExchangeRequests | src/shellyDevice.cpp:36-85 | there are one or two requests, all to server + `/rpc/` + rpcMethod; the first has no `Authorization`; there is a second exactly when the first reply is 401 with a challenge and the password is non-empty, and it carries the Digest header for that challenge |
| ShellyDevice.ExchangePayload | src/shellyDevice.cpp:35-92 | the final reply's body on 200, else `{"httpResponse": <code>}` for the final code, which parses back to the code and is never `{}` |
| ShellyDevice.StatusPayloadRoundTrip | src/shellyDevice.cpp:92 | the synthetic payload gives back its code |
| ShellyDevice.NoRetry | src/shellyDevice.cpp:47-48 | without a 401, without a challenge or without a password, exactly one request is sent and its reply is returned |
| ShellyDevice.DefaultPasswordNeverRetries | src/shellyDevice.h:25 | a device built with the default password never sends a second request |
| ShellyDevice.AlgorithmNotChecked | src/shellyDevice.cpp:53-76 | whatever algorithm the challenge names, the retry happens and echoes it in the header |
| ShellyDevice.DeviceReadsClientHeader | src/shellyDevice.cpp:71-80 | a device reading the client's header sees the client's user, realm, nonce, response, qop, nc and cnonce |
| ShellyDevice.DigestDeviceExchange | src/shellyDevice.cpp:45-92 | against a Digest device, a call with a password sends the challenge-free request and then the authenticated one, and returns the body exactly when the device accepts the retry |
| ShellyDevice.ClientRetryCredentials | src/shellyDevice.cpp:60-80 | a device accepts a client's retry exactly when the RFC 7616 response for the client's password equals the one for the device's password |
| ShellyDevice.RightPasswordAccepted | src/shellyDevice.cpp:60-80 | the retry built with the device's password passes the device's RFC 7616 check |
| ShellyDevice.AcceptedPasswordMatches | src/shellyDevice.cpp:60-80 | a retry the device accepts was built with the device's password, or SHA-256 collides |
| ShellyDevice.DigestLogin | src/shellyDevice.cpp:30-95 | with the right password, a call takes two requests and returns the device's body |
| ShellyDevice.WrongPasswordRefused | src/shellyDevice.cpp:30-95 | with a wrong password, a call takes two requests and returns `{"httpResponse": 401}` unless SHA-256 collides |
| ShellyDevice.NoPasswordRefused | src/shellyDevice.cpp:47-92 | a device built without a password gets the challenge, does not retry and returns `{"httpResponse": 401}` |
| ShellyEndpoints.Invoke | src/shellyDevice.h:36-47 | a wrapper is `GET` of its method string: the same requests and payload as `Exchange` for that string |
| ShellyEndpoints.ParsePath | src/shellyDevice.h:76-100 | a method string that is read back as a wrapper call is exactly the string that call builds |
| ShellyEndpoints.PathRoundTrip | src/shellyDevice.h:36-162 | every wrapper call, with every id and position, is read back from its method string |
| ShellyEndpoints.ParsePathExact | src/shellyDevice.h:36-162 | a string is read as a call exactly when that call builds it |
| ShellyEndpoints.PathInjective | src/shellyDevice.h:36-162 | different wrapper calls send different method strings |
| ShellyEndpoints.FixedNameRoundTrip | src/shellyDevice.h:36-65 | the constant names `shelly.*` and `WiFi.*` are distinct and contain no `?` |
| ShellyEndpoints.IdNameRoundTrip | src/shellyDevice.h:76-162 | the component names are distinct, contain no `?`, and differ from `Cover.GoToPosition` |
| ShellyEndpoints.IdArgRoundTrip | src/shellyDevice.h:76-77 | `?id=` + `String(id)` gives back the id |
| ShellyEndpoints.PositionArgsRoundTrip | src/shellyDevice.h:99-100 | `?id=<id>&pos=<pos>` gives back both numbers |
| ShellyEndpoints.InvokeUrl | src/shellyDevice.h:25-26 | a wrapper call on a device built for ip goes to `http://<ip>/rpc/<method string>` |
| ShellyEndpoints.DefaultArguments | src/shellyDevice.h:76-99 | the default id is 0 and the default position 100 |

## Left out

- HTTP and WiFi I/O: `WiFiClient`, `HTTPClient`, `collectHeaders` and `setAuthorizationType`. The client is a stub object. The network and the device are a responder function of the request and the earlier requests. `http.end` is a flag.
- SHA-256 (the `Crypto.h` primitive) is a parameter. The model assumes nothing about it except its 32-byte output. Properties that need it to be collision-free say "or a collision".
- `random(556822323)` is a parameter: any value in range may be chosen.
- `TemperatureDegC`, `ActivePower`, `TotalActivePower` and `WiFiRSSI` are not modelled. They parse floating-point and integer fields with `toFloat`/`toInt`.
- `SwitchSet` is not modelled. Its `+` binds tighter than `?:`, so the method string is `"true"` or `"false"` depending on a `String`'s truthiness. The request it sends therefore depends on C++ operator rules, not on the intent.
- The device classes built by virtual multiple inheritance (`ShellyGen2`, `ShellyPlus1PM`, …) are not modelled beyond the wrapper calls (`ShellyEndpoints.Call`): they only compose components.
- The `name` field can be changed by users; here it is only set by the constructor.
- Strings are sequences of characters with no NUL terminator. A NUL inside a challenge, which the C string API would cut at, is not modelled.
- ParseChallengeHeader: stated only for qop, realm and nonce free of `"` and `=`. The code does not read every quote-free challenge back: `extractParam` takes the first occurrence of a marker, so a value that ends in a later directive's name (a qop of `realm=`, say) hides that directive, as RealmMarkerInQop shows. The single-directive lemmas ChallengeQop, ChallengeRealm and ChallengeNonce ask only that the value read be quote-free.
- PasswordOnlyInResponse: "the password never appears verbatim" is not stated in that form, because the code does not promise it (a realm may contain the password). What is stated is that the password enters the header only through the response digest.
- WrongPasswordRefused: holds modulo SHA-256 collisions, since the hash is a parameter.
- AcceptedPasswordMatches: holds modulo SHA-256 collisions, since the hash is a parameter.
- ResponseDeterminesPassword: holds modulo SHA-256 collisions, since the hash is a parameter.
- ShellyDevice.DigestDevice and AuthorizationHeader.ReadCredentials: a reference device, used to state login properties. They are not code of the library.
