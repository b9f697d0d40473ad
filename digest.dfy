/** The Digest computation of src/shellyDevice.cpp: the hex rendering of a
    SHA-256 digest (`SHA256hash`, lines 16-28) and the HTTP Digest chain and
    `Authorization` value built in `GET` (lines 59-80), the SHA-256, qop=auth
    profile of RFC 7616. The SHA-256 primitive itself is a parameter `sha`:
    any function from strings to 32 bytes. */
module DigestAuth {
  import opened ArduinoString
  import opened Challenge

  /** The 32 bytes `SHA256::doFinal` writes. */
  type Digest = d: seq<Byte> | |d| == 32 witness seq(32, _ => 0)

  /** The hash primitive taken as given: the bytes of a string's digest. */
  type Hash = string -> Digest

  /** Two lower-case hex digits per byte, high nibble first. */
  function HexOf(bytes: seq<Byte>): (r: string)
  {
    if bytes == [] then ""
    else
      var b := bytes[|bytes| - 1];
      HexOf(bytes[..|bytes| - 1]) + [HexDigit(b / 16), HexDigit(b % 16)]
  }

  predicate IsLowerHex(s: string) {
    forall i :: 0 <= i < |s| ==> IsLowerHexDigit(s[i])
  }

  /** Characters 2i and 2i+1 of the rendering are the high and the low nibble
      of byte i. */
  lemma {:induction false} HexOfNibbles(bytes: seq<Byte>)
    ensures |HexOf(bytes)| == 2 * |bytes|
    ensures forall i :: 0 <= i < |bytes| ==>
      HexOf(bytes)[2 * i] == HexDigit(bytes[i] / 16) && HexOf(bytes)[2 * i + 1] == HexDigit(bytes[i] % 16)
  {
    if bytes != [] {
      HexOfNibbles(bytes[..|bytes| - 1]);
    }
  }

  /** The source shifts a possibly signed `char`: `(c >> 4) & 0x0f` and
      `c & 0x0f` give the same nibbles whether the byte was read as 0..255 or,
      sign-extended, as -128..127. (`>>` on a negative value is the floor
      division by 16, `& 0x0f` the non-negative remainder.) */
  lemma NibblesIgnoreSign(b: Byte)
    ensures var c := if b >= 128 then b - 256 else b;
      (c / 16) % 16 == b / 16 && c % 16 == b % 16
  {
  }

  /** The bytes a lower-case hex string of even length stands for. */
  function BytesOfHex(s: string): (r: seq<Byte>)
    requires |s| % 2 == 0 && IsLowerHex(s)
    ensures |r| == |s| / 2
  {
    if s == [] then []
    else BytesOfHex(s[..|s| - 2]) + [HexDigitValue(s[|s| - 2]) * 16 + HexDigitValue(s[|s| - 1])]
  }

  /** The rendering is two lower-case hex digits per byte. */
  lemma {:induction false} HexOfIsLowerHex(bytes: seq<Byte>)
    ensures |HexOf(bytes)| == 2 * |bytes| && IsLowerHex(HexOf(bytes))
  {
    if bytes != [] {
      var init, b := bytes[..|bytes| - 1], bytes[|bytes| - 1];
      HexOfIsLowerHex(init);
      var t, h := HexOf(init), HexOf(bytes);
      assert h == t + [HexDigit(b / 16), HexDigit(b % 16)];
      forall i | 0 <= i < |h| ensures IsLowerHexDigit(h[i]) {
        if i < |t| {
          assert h[i] == t[i];
        }
      }
    }
  }

  lemma SplitLast<T>(s: seq<T>)
    requires |s| > 0
    ensures s == s[..|s| - 1] + [s[|s| - 1]]
  {
  }

  /** Reading two more hex digits appends one byte. */
  lemma BytesOfHexSnoc(t: string, x: char, y: char)
    requires |t| % 2 == 0 && IsLowerHex(t) && IsLowerHexDigit(x) && IsLowerHexDigit(y)
    ensures |t + [x, y]| % 2 == 0 && IsLowerHex(t + [x, y])
    ensures BytesOfHex(t + [x, y]) == BytesOfHex(t) + [HexDigitValue(x) * 16 + HexDigitValue(y)]
  {
    var h := t + [x, y];
    forall i | 0 <= i < |h| ensures IsLowerHexDigit(h[i]) {
      if i < |t| {
        assert h[i] == t[i];
      }
    }
    assert h[..|h| - 2] == t;
  }

  /** The rendering loses nothing: reading it back gives the bytes. */
  lemma {:induction false} HexOfRoundTrip(bytes: seq<Byte>)
    ensures |HexOf(bytes)| % 2 == 0 && IsLowerHex(HexOf(bytes))
    ensures BytesOfHex(HexOf(bytes)) == bytes
  {
    HexOfIsLowerHex(bytes);
    if bytes != [] {
      var init, b := bytes[..|bytes| - 1], bytes[|bytes| - 1];
      var hi, lo := HexDigit(b / 16), HexDigit(b % 16);
      assert HexOf(bytes) == HexOf(init) + [hi, lo];
      HexOfRoundTrip(init);
      BytesOfHexSnoc(HexOf(init), hi, lo);
      HexDigitRoundTrip(b / 16);
      HexDigitRoundTrip(b % 16);
      assert HexDigitValue(hi) * 16 + HexDigitValue(lo) == b;
      SplitLast(bytes);
    }
  }

  /** `SHA256hash`: hash `s`, then append the two hex digits of each of the 32
      bytes in turn. */
  method SHA256Hash(sha: Hash, s: string) returns (hashStr: string)
    ensures |hashStr| == 64 && IsLowerHex(hashStr)
    ensures forall i :: 0 <= i < 32 ==>
      hashStr[2 * i] == HexDigit(sha(s)[i] / 16) && hashStr[2 * i + 1] == HexDigit(sha(s)[i] % 16)
    ensures hashStr == HexOf(sha(s))
  {
    var hash := sha(s);
    hashStr := "";
    for i := 0 to 32
      invariant hashStr == HexOf(hash[..i])
    {
      assert hash[..i + 1][..i] == hash[..i];
      // `hash` is a `char` buffer: the byte as the shift and the mask see it
      var c: int := if hash[i] >= 128 then hash[i] as int - 256 else hash[i] as int;
      NibblesIgnoreSign(hash[i]);
      hashStr := hashStr + [HexDigit((c / 16) % 16), HexDigit(c % 16)];
    }
    assert hash[..32] == hash;
    HexOfNibbles(hash);
    HexOfIsLowerHex(hash);
  }

  /** The value `SHA256hash(s)` returns, for use in specifications. */
  function HexHash(sha: Hash, s: string): (r: string)
    ensures |r| == 64 && IsLowerHex(r)
    ensures BytesOfHex(r) == sha(s)
  {
    HexOfIsLowerHex(sha(s));
    HexOfRoundTrip(sha(s));
    HexOf(sha(s))
  }

  // ---------------------------------------------------------------------
  // The digest chain

  /** The nonce count: constant, sent as the literal "1". */
  const NonceCount: string := "1"

  /** `random(556822323L)` draws the client nonce from [0, 556822323). */
  const CNonceBound: nat := 556822323

  type CNonce = n: nat | n < CNonceBound

  /** HA1 = SHA256(username ":" realm ":" password). */
  function HA1(sha: Hash, user: string, realm: string, password: string): string {
    HexHash(sha, user + ":" + realm + ":" + password)
  }

  /** HA2 = SHA256("GET:" + path), with the method path "/rpc/<name>" that
      is actually requested. */
  function HA2(sha: Hash, path: string): string {
    HexHash(sha, "GET:" + path)
  }

  /** response = SHA256(HA1 ":" nonce ":" nc ":" cnonce ":" qop ":" HA2). */
  function ResponseDigest(sha: Hash, ha1: string, nonce: string, cnonce: string, qop: string, ha2: string): string {
    HexHash(sha, ha1 + ":" + nonce + ":" + NonceCount + ":" + cnonce + ":" + qop + ":" + ha2)
  }

  /** The `Authorization` value as the source writes it: a leading space, no
      `uri` directive, and `algorithm`, `qop`, `nc` and `cnonce` unquoted. */
  function AuthorizationLayout(user: string, realm: string, nonce: string, algorithm: string,
                               response: string, qop: string, cnonce: string): string
  {
    " Digest username=\"" + user + "\", realm=\"" + realm + "\", nonce=\"" + nonce +
    "\", algorithm=" + algorithm + ", response=\"" + response + "\", qop=" + qop +
    ", nc=" + NonceCount + ", cnonce=" + cnonce
  }

  /** The response the client computes for a challenge and a method path. */
  function ClientResponse(sha: Hash, user: string, password: string, ch: Challenge, path: string, cnonce: CNonce): (r: string)
    ensures |r| == 64 && IsLowerHex(r)
  {
    ResponseDigest(sha, HA1(sha, user, ch.realm, password), ch.nonce, NatToDecimal(cnonce), ch.qop, HA2(sha, path))
  }

  /** The `Authorization` value sent on the retry. */
  function Authorization(sha: Hash, user: string, password: string, ch: Challenge, path: string, cnonce: CNonce): string {
    AuthorizationLayout(user, ch.realm, ch.nonce, ch.algorithm,
                        ClientResponse(sha, user, password, ch, path, cnonce), ch.qop, NatToDecimal(cnonce))
  }

  /** Lines 53-80 of `GET`: the digest chain through three calls of
      `SHA256hash`, then the header value built from its pieces. */
  method BuildAuthorization(sha: Hash, user: string, password: string, ch: Challenge, path: string, cnonce: CNonce)
    returns (authString: string)
    ensures authString == Authorization(sha, user, password, ch, path, cnonce)
  {
    var ha1 := SHA256Hash(sha, user + ":" + ch.realm + ":" + password);
    var ha2 := SHA256Hash(sha, "GET:" + path);
    var nc := NonceCount;
    var cnonceText := NatToDecimal(cnonce);
    var authResponse := SHA256Hash(sha, ha1 + ":" + ch.nonce + ":" + nc + ":" + cnonceText + ":" + ch.qop + ":" + ha2);
    authString := AuthorizationLayout(user, ch.realm, ch.nonce, ch.algorithm, authResponse, ch.qop, cnonceText);
    assert authResponse == ClientResponse(sha, user, password, ch, path, cnonce);
  }

  // ---------------------------------------------------------------------
  // Properties

  /** KD(secret, data) = H(concat(secret, ":", data)), section 3.4.1 of RFC 7616. */
  function KD(sha: Hash, secret: string, data: string): string {
    HexHash(sha, secret + ":" + data)
  }

  /** An independent statement of section 3.4.1 of RFC 7616 for qop=auth:
      response = KD(H(A1), nonce ":" nc ":" cnonce ":" qop ":" H(A2)) with
      A1 = username ":" realm ":" passwd and A2 = method ":" request-uri. */
  function Rfc7616Response(sha: Hash, username: string, realm: string, passwd: string, httpMethod: string,
                           uri: string, nonce: string, nc: string, cnonce: string, qop: string): string
  {
    KD(sha, HexHash(sha, A1(username, realm, passwd)), KDData(sha, httpMethod, uri, nonce, nc, cnonce, qop))
  }

  /** A1 = username ":" realm ":" passwd. */
  function A1(username: string, realm: string, passwd: string): string {
    username + ":" + realm + ":" + passwd
  }

  /** The data under KD for qop=auth: nonce ":" nc ":" cnonce ":" qop ":" H(A2),
      with A2 = method ":" request-uri. */
  function KDData(sha: Hash, httpMethod: string, uri: string, nonce: string, nc: string, cnonce: string, qop: string): string {
    nonce + ":" + nc + ":" + cnonce + ":" + qop + ":" + HexHash(sha, httpMethod + ":" + uri)
  }

  /** Six fields joined by ":" are the first field, ":" and the other five joined. */
  lemma JoinRegroup(a: string, b: string, c: string, d: string, e: string, f: string)
    ensures a + ":" + b + ":" + c + ":" + d + ":" + e + ":" + f == a + ":" + (b + ":" + c + ":" + d + ":" + e + ":" + f)
  {
  }

  /** The client's data under KD: HA2 is H(A2) for A2 = "GET" ":" path. */
  lemma ClientKDData(sha: Hash, path: string, nonce: string, c: string, qop: string)
    ensures KDData(sha, "GET", path, nonce, "1", c, qop) == nonce + ":" + NonceCount + ":" + c + ":" + qop + ":" + HA2(sha, path)
  {
    assert "GET:" + path == "GET" + ":" + path;
  }

  /** The client's response is the RFC 7616 response for the method GET, the
      request URI "/rpc/<name>", nonce count 1 and the decimal cnonce. */
  lemma ClientResponseIsRfc7616(sha: Hash, user: string, password: string, ch: Challenge, rpcMethod: string, cnonce: CNonce)
    ensures ClientResponse(sha, user, password, ch, "/rpc/" + rpcMethod, cnonce) ==
      Rfc7616Response(sha, user, ch.realm, password, "GET", "/rpc/" + rpcMethod, ch.nonce, "1", NatToDecimal(cnonce), ch.qop)
  {
    var path, c := "/rpc/" + rpcMethod, NatToDecimal(cnonce);
    var ha1, ha2 := HA1(sha, user, ch.realm, password), HA2(sha, path);
    ClientKDData(sha, path, ch.nonce, c, ch.qop);
    JoinRegroup(ha1, ch.nonce, NonceCount, c, ch.qop, ha2);
  }

  /** The part of the header before the response digest. */
  function AuthorizationPrefix(user: string, ch: Challenge): string {
    " Digest username=\"" + user + "\", realm=\"" + ch.realm + "\", nonce=\"" + ch.nonce +
    "\", algorithm=" + ch.algorithm + ", response=\""
  }

  /** The part of the header after the response digest. */
  function AuthorizationSuffix(ch: Challenge, cnonce: CNonce): string {
    "\", qop=" + ch.qop + ", nc=" + NonceCount + ", cnonce=" + NatToDecimal(cnonce)
  }

  /** The password reaches the header only through the 64 hex characters of
      the response digest: the text around it does not depend on the password. */
  lemma PasswordOnlyInResponse(sha: Hash, user: string, password: string, ch: Challenge, path: string, cnonce: CNonce)
    ensures Authorization(sha, user, password, ch, path, cnonce) ==
      AuthorizationPrefix(user, ch) + ClientResponse(sha, user, password, ch, path, cnonce) + AuthorizationSuffix(ch, cnonce)
  {
  }

  /** Two passwords give headers of the same length that agree everywhere
      outside the response field. */
  lemma PasswordsAgreeOutsideResponse(sha: Hash, user: string, p1: string, p2: string, ch: Challenge, path: string, cnonce: CNonce)
    ensures var h1, h2 := Authorization(sha, user, p1, ch, path, cnonce), Authorization(sha, user, p2, ch, path, cnonce);
      var k := |AuthorizationPrefix(user, ch)|;
      |h1| == |h2| && k + 64 <= |h1| && h1[..k] == h2[..k] && h1[k + 64..] == h2[k + 64..]
  {
    var pre, post := AuthorizationPrefix(user, ch), AuthorizationSuffix(ch, cnonce);
    var r1, r2 := ClientResponse(sha, user, p1, ch, path, cnonce), ClientResponse(sha, user, p2, ch, path, cnonce);
    PasswordOnlyInResponse(sha, user, p1, ch, path, cnonce);
    PasswordOnlyInResponse(sha, user, p2, ch, path, cnonce);
    assert (pre + r1 + post)[..|pre|] == pre == (pre + r2 + post)[..|pre|];
    assert (pre + r1 + post)[|pre| + 64..] == post == (pre + r2 + post)[|pre| + 64..];
  }

  /** The cnonce enters the header in decimal at its end, so distinct
      cnonces give distinct headers. */
  lemma AuthorizationCNonceInjective(sha: Hash, user: string, password: string, ch: Challenge, path: string, n1: CNonce, n2: CNonce)
    requires Authorization(sha, user, password, ch, path, n1) == Authorization(sha, user, password, ch, path, n2)
    ensures n1 == n2
  {
    var h := Authorization(sha, user, password, ch, path, n1);
    var pre := AuthorizationPrefix(user, ch) + ClientResponse(sha, user, password, ch, path, n1) + "\", qop=" + ch.qop + ", nc=" + NonceCount + ", cnonce=";
    var pre2 := AuthorizationPrefix(user, ch) + ClientResponse(sha, user, password, ch, path, n2) + "\", qop=" + ch.qop + ", nc=" + NonceCount + ", cnonce=";
    assert h == pre + NatToDecimal(n1);
    assert h == pre2 + NatToDecimal(n2);
    assert |pre| == |pre2|;
    assert h[|pre|..] == NatToDecimal(n1);
    assert h[|pre2|..] == NatToDecimal(n2);
    IntToDecimalInjective(n1, n2);
  }

  /** Two distinct strings with the same digest. */
  predicate Collides(sha: Hash, a: string, b: string) {
    a != b && sha(a) == sha(b)
  }

  /** Equal hex renderings mean equal digests. */
  lemma HexHashEqual(sha: Hash, a: string, b: string)
    requires HexHash(sha, a) == HexHash(sha, b)
    ensures sha(a) == sha(b)
  {
  }

  /** The secret's digest is the first 64 characters of the KD input. */
  lemma KDInputSplit(h1: string, h2: string, data: string)
    requires |h1| == 64 && |h2| == 64 && h1 + ":" + data == h2 + ":" + data
    ensures h1 == h2
  {
    assert (h1 + ":" + data)[..64] == h1;
    assert (h2 + ":" + data)[..64] == h2;
  }

  /** A1 with the same username and realm determines the password. */
  lemma A1Split(prefix: string, p1: string, p2: string)
    requires prefix + p1 == prefix + p2
    ensures p1 == p2
  {
    assert (prefix + p1)[|prefix|..] == p1;
    assert (prefix + p2)[|prefix|..] == p2;
  }

  /** Two passwords give the same RFC 7616 response only if they are equal
      or SHA-256 collides, on A1 or on the KD input. */
  lemma ResponseDeterminesPassword(sha: Hash, username: string, realm: string, p1: string, p2: string, httpMethod: string,
                                   uri: string, nonce: string, nc: string, cnonce: string, qop: string)
    requires Rfc7616Response(sha, username, realm, p1, httpMethod, uri, nonce, nc, cnonce, qop) ==
             Rfc7616Response(sha, username, realm, p2, httpMethod, uri, nonce, nc, cnonce, qop)
    ensures var a1, a2 := A1(username, realm, p1), A1(username, realm, p2);
      var data := KDData(sha, httpMethod, uri, nonce, nc, cnonce, qop);
      p1 == p2 || Collides(sha, a1, a2) ||
      Collides(sha, HexHash(sha, a1) + ":" + data, HexHash(sha, a2) + ":" + data)
  {
    var a1, a2 := A1(username, realm, p1), A1(username, realm, p2);
    var data := KDData(sha, httpMethod, uri, nonce, nc, cnonce, qop);
    var k1, k2 := HexHash(sha, a1) + ":" + data, HexHash(sha, a2) + ":" + data;
    HexHashEqual(sha, k1, k2);
    if k1 == k2 {
      KDInputSplit(HexHash(sha, a1), HexHash(sha, a2), data);
      HexHashEqual(sha, a1, a2);
      if a1 == a2 {
        A1Split(username + ":" + realm + ":", p1, p2);
      }
    }
  }
}
