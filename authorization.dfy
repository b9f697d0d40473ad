/** The `Authorization` value of src/shellyDevice.cpp:75-80 read from the
    other side: how a device recovers each directive the client sent. The
    reader uses the same `extractParam` searches the client uses on the
    challenge, so that a device model (in the ShellyDevice module) can check
    the response against its own password. */
module AuthorizationHeader {
  import opened ArduinoString
  import opened Challenge
  import opened DigestAuth

  /** The directives a device needs to check a Digest response. */
  datatype Credentials = Credentials(username: string, realm: string, nonce: string, response: string,
                                     qop: string, nc: string, cnonce: string)

  /** Quoted values are read after their `name="` marker up to the closing
      quote; the unquoted `qop`, `nc` and `cnonce` after `name=` up to the
      next comma. */
  function ReadCredentials(h: string): (c: Credentials)
    ensures '"' !in c.username && '"' !in c.realm && '"' !in c.nonce && '"' !in c.response
    ensures ',' !in c.qop && ',' !in c.nc && ',' !in c.cnonce
  {
    Credentials(ExtractParam(h, "username=\"", '"'), ExtractParam(h, "realm=\"", '"'),
                ExtractParam(h, "nonce=\"", '"'), ExtractParam(h, "response=\"", '"'),
                ExtractParam(h, "qop=", ','), ExtractParam(h, "nc=", ','), ExtractParam(h, "cnonce=", ','))
  }

  // ---------------------------------------------------------------------
  // Reading back the header the client writes. Cut at quotes it is
  //   ` Digest username="` U`"` `, realm="` R`"` `, nonce="` N`"`
  //   `, algorithm=`A`, response="` X`"` ...
  // and cut at `=` it is
  //   ` Digest username=` `"`U`", realm=` `"`R`", nonce=` `"`N`", algorithm=`
  //   A`, response=` `"`X`", qop=` Q`, nc=` `1, cnonce=` C.

  // ---------------------------------------------------------------------
  // The searches over the header, one chunk at a time. A chunk either ends
  // with the marker (the search stops there) or holds the delimiter q of
  // the marker only as its last character and does not end with the marker
  // (the search passes over it).

  /** Passing over a token and its closing quote. */
  lemma TokenSkip(v: string, rest: string, m: string)
    requires IsToken(v) && QuotedMarker(m) && IndexOf(rest, m, 0) >= 0
    ensures IndexOf(v + ("\"" + rest), m, 0) >= 0
    ensures ExtractParam(v + ("\"" + rest), m, '"') == ExtractParam(rest, m, '"')
  {
    assert v + ("\"" + rest) == v + "\"" + rest;
    TokenChunk(v, m);
    ExtractParamSkip(v + "\"", rest, m, '"', '"');
  }

  /** Passing over a value free of q followed by a literal closed by q. */
  lemma ValueSkip(v: string, lit: string, rest: string, m: string, q: char, d: char)
    requires q !in v && ClosedBy(lit, q) && !EndsWith(lit, m) && !EndsWith(m, lit)
    requires ClosedBy(m, q) && IndexOf(rest, m, 0) >= 0
    ensures IndexOf(v + (lit + rest), m, 0) >= 0
    ensures ExtractParam(v + (lit + rest), m, d) == ExtractParam(rest, m, d)
  {
    assert v + (lit + rest) == v + lit + rest;
    ClosedByAppend(v, lit, q);
    NotEndsWithAppend(v, lit, m);
    ExtractParamSkip(v + lit, rest, m, q, d);
  }

  /** Passing over `"v` and a literal closed by `=`, for an unquoted marker. */
  lemma QuotedValueSkip(v: string, lit: string, rest: string, m: string)
    requires '=' !in v && ClosedBy(lit, '=') && !EndsWith(lit, m) && !EndsWith(m, lit)
    requires ClosedBy(m, '=') && IndexOf(rest, m, 0) >= 0
    ensures IndexOf("\"" + (v + (lit + rest)), m, 0) >= 0
    ensures ExtractParam("\"" + (v + (lit + rest)), m, ',') == ExtractParam(rest, m, ',')
  {
    assert "\"" + (v + (lit + rest)) == ("\"" + v) + (lit + rest);
    ValueSkip("\"" + v, lit, rest, m, '=', ',');
  }

  /** The value after the chunk that ends with the marker, up to `d`. */
  lemma FoundNested(lead: string, m: string, v: string, d: char, post: string, q: char)
    requires ClosedBy(m, q) && q !in lead && d !in v
    ensures IndexOf(lead + (m + (v + ([d] + post))), m, 0) >= 0
    ensures ExtractParam(lead + (m + (v + ([d] + post))), m, d) == v
  {
    assert lead + (m + (v + ([d] + post))) == lead + m + (v + [d] + post);
    ClosedByAppend(lead, m, q);
    ExtractParamFound(lead, m, v, d, post, q);
  }

  /** The value after the chunk that ends with the marker, to the end. */
  lemma FoundLastNested(lead: string, m: string, v: string, d: char, q: char)
    requires ClosedBy(m, q) && q !in lead && d !in v
    ensures IndexOf(lead + (m + v), m, 0) >= 0
    ensures ExtractParam(lead + (m + v), m, d) == v
  {
    assert lead + (m + v) == lead + m + v;
    ClosedByAppend(lead, m, q);
    ExtractParamFoundLast(lead, m, v, d, q);
  }

  /** A marker of the form `name="` for a name of at least one character. */
  predicate QuotedMarker(m: string) {
    ClosedBy(m, '"') && |m| >= 2 && m[|m| - 2] == '='
  }

  /** None of the chunks before the algorithm's value ends an unquoted marker `m`. */
  predicate ClearOfHead(m: string) {
    ClosedBy(m, '=') &&
    !EndsWith(" Digest username=", m) &&
    !EndsWith("\", realm=", m) && !EndsWith(m, "\", realm=") &&
    !EndsWith("\", nonce=", m) && !EndsWith(m, "\", nonce=") &&
    !EndsWith("\", algorithm=", m) && !EndsWith(m, "\", algorithm=")
  }

  // ---------------------------------------------------------------------
  // The header regrouped. `Nested` is the layout with every concatenation
  // to the right; each search needs some literals split at its delimiter,
  // which the cut lemmas do one literal at a time.

  /** The layout from the algorithm's value on. */
  function AlgorithmTail(algorithm: string, response: string, qop: string, cnonce: string): string {
    algorithm + (", response=\"" + (response + ("\", qop=" + (qop + (", nc=" + (NonceCount + (", cnonce=" + cnonce)))))))
  }

  /** The layout from the realm's value on. */
  function RealmTail(realm: string, nonce: string, algorithm: string, response: string, qop: string, cnonce: string): string {
    realm + ("\", nonce=\"" + (nonce + ("\", algorithm=" + AlgorithmTail(algorithm, response, qop, cnonce))))
  }

  function Nested(user: string, realm: string, nonce: string, algorithm: string, response: string, qop: string, cnonce: string): string {
    " Digest username=\"" + (user + ("\", realm=\"" + RealmTail(realm, nonce, algorithm, response, qop, cnonce)))
  }

  lemma LayoutNested(user: string, realm: string, nonce: string, algorithm: string, response: string, qop: string, cnonce: string)
    ensures AuthorizationLayout(user, realm, nonce, algorithm, response, qop, cnonce) ==
      Nested(user, realm, nonce, algorithm, response, qop, cnonce)
  {
  }

  lemma SplitAt(lit: string, p: string, s: string, x: string)
    requires lit == p + s
    ensures lit + x == p + (s + x)
  {
  }

  /** The layout cut at quotes up to the text `t` after the realm's closing quote. */
  function QuoteHead(user: string, realm: string, t: string): string {
    " Digest username=\"" + (user + ("\"" + (", realm=\"" + (realm + ("\"" + t)))))
  }

  /** The layout cut at `=` up to the algorithm's value `t`. */
  function EqHead(user: string, realm: string, nonce: string, t: string): string {
    " Digest username=" + ("\"" + (user + ("\", realm=" + ("\"" + (realm + ("\", nonce=" + ("\"" + (nonce + ("\", algorithm=" + t)))))))))
  }

  lemma UsernameCut(user: string, realm: string, nonce: string, algorithm: string, response: string, qop: string, cnonce: string)
    ensures Nested(user, realm, nonce, algorithm, response, qop, cnonce) ==
      " Digest " + ("username=\"" + (user + ("\"" + (", realm=\"" + RealmTail(realm, nonce, algorithm, response, qop, cnonce)))))
  {
    var t := RealmTail(realm, nonce, algorithm, response, qop, cnonce);
    SplitAt("\", realm=\"", "\"", ", realm=\"", t);
    SplitAt(" Digest username=\"", " Digest ", "username=\"", user + ("\"" + (", realm=\"" + t)));
  }

  lemma RealmCut(user: string, realm: string, nonce: string, algorithm: string, response: string, qop: string, cnonce: string)
    ensures Nested(user, realm, nonce, algorithm, response, qop, cnonce) ==
      " Digest username=\"" + (user + ("\"" + (", " + ("realm=\"" + (realm + ("\"" +
        (", nonce=\"" + (nonce + ("\", algorithm=" + AlgorithmTail(algorithm, response, qop, cnonce))))))))))
  {
    var t := nonce + ("\", algorithm=" + AlgorithmTail(algorithm, response, qop, cnonce));
    SplitAt("\", nonce=\"", "\"", ", nonce=\"", t);
    var u := realm + ("\"" + (", nonce=\"" + t));
    SplitAt("\", realm=\"", "\"", ", realm=\"", u);
    SplitAt(", realm=\"", ", ", "realm=\"", u);
  }

  lemma NonceCut(user: string, realm: string, nonce: string, algorithm: string, response: string, qop: string, cnonce: string)
    ensures Nested(user, realm, nonce, algorithm, response, qop, cnonce) ==
      QuoteHead(user, realm, ", " + ("nonce=\"" + (nonce + ("\"" + (", algorithm=" + AlgorithmTail(algorithm, response, qop, cnonce))))))
  {
    var a := AlgorithmTail(algorithm, response, qop, cnonce);
    SplitAt("\", algorithm=", "\"", ", algorithm=", a);
    var t := nonce + ("\"" + (", algorithm=" + a));
    SplitAt("\", nonce=\"", "\"", ", nonce=\"", t);
    SplitAt(", nonce=\"", ", ", "nonce=\"", t);
    SplitAt("\", realm=\"", "\"", ", realm=\"", realm + ("\"" + (", " + ("nonce=\"" + t))));
  }

  /** The layout from the response's closing quote on. */
  function ResponsePost(qop: string, cnonce: string): string {
    ", qop=" + (qop + (", nc=" + (NonceCount + (", cnonce=" + cnonce))))
  }

  /** From the nonce directive on, cut for the `response="` search. */
  function ResponseCut(nonce: string, algorithm: string, response: string, qop: string, cnonce: string): string {
    ", nonce=\"" + (nonce + ("\"" + (", algorithm=" + (algorithm + (", " + ("response=\"" + (response + ("\"" + ResponsePost(qop, cnonce)))))))))
  }

  lemma ResponseCutOf(user: string, realm: string, nonce: string, algorithm: string, response: string, qop: string, cnonce: string)
    ensures Nested(user, realm, nonce, algorithm, response, qop, cnonce) ==
      QuoteHead(user, realm, ResponseCut(nonce, algorithm, response, qop, cnonce))
  {
    var post := ResponsePost(qop, cnonce);
    SplitAt("\", qop=", "\"", ", qop=", qop + (", nc=" + (NonceCount + (", cnonce=" + cnonce))));
    var x := response + ("\"" + post);
    SplitAt(", response=\"", ", ", "response=\"", x);
    var a := algorithm + (", " + ("response=\"" + x));
    SplitAt("\", algorithm=", "\"", ", algorithm=", a);
    var n := nonce + ("\"" + (", algorithm=" + a));
    SplitAt("\", nonce=\"", "\"", ", nonce=\"", n);
    SplitAt("\", realm=\"", "\"", ", realm=\"", realm + ("\"" + (", nonce=\"" + n)));
  }

  lemma EqCut(user: string, realm: string, nonce: string, algorithm: string, response: string, qop: string, cnonce: string)
    ensures Nested(user, realm, nonce, algorithm, response, qop, cnonce) ==
      EqHead(user, realm, nonce, AlgorithmTail(algorithm, response, qop, cnonce))
  {
    var a := AlgorithmTail(algorithm, response, qop, cnonce);
    var n := nonce + ("\", algorithm=" + a);
    SplitAt("\", nonce=\"", "\", nonce=", "\"", n);
    var r := realm + ("\", nonce=" + ("\"" + n));
    SplitAt("\", realm=\"", "\", realm=", "\"", r);
    SplitAt(" Digest username=\"", " Digest username=", "\"", user + ("\", realm=" + ("\"" + r)));
  }

  /** From the algorithm's value on, cut for the `qop=` search. */
  function QopCut(algorithm: string, response: string, qop: string, cnonce: string): string {
    algorithm + (", response=" + ("\"" + (response + ("\", " + ("qop=" + (qop + ([','] + (" nc=" + (NonceCount + (", cnonce=" + cnonce))))))))))
  }

  /** From the algorithm's value on, cut for the `nc=` search. */
  function NcCut(algorithm: string, response: string, qop: string, cnonce: string): string {
    algorithm + (", response=" + ("\"" + (response + ("\", qop=" + (qop + (", " + ("nc=" + (NonceCount + ([','] + (" cnonce=" + cnonce))))))))))
  }

  /** From the algorithm's value on, cut for the `cnonce=` search. */
  function CNonceCut(algorithm: string, response: string, qop: string, cnonce: string): string {
    algorithm + (", response=" + ("\"" + (response + ("\", qop=" + (qop + (", nc=" + (NonceCount + (", " + ("cnonce=" + cnonce)))))))))
  }

  lemma TailCuts(algorithm: string, response: string, qop: string, cnonce: string)
    ensures AlgorithmTail(algorithm, response, qop, cnonce) == QopCut(algorithm, response, qop, cnonce)
    ensures AlgorithmTail(algorithm, response, qop, cnonce) == NcCut(algorithm, response, qop, cnonce)
    ensures AlgorithmTail(algorithm, response, qop, cnonce) == CNonceCut(algorithm, response, qop, cnonce)
  {
    var c := NonceCount + (", cnonce=" + cnonce);
    assert AlgorithmTail(algorithm, response, qop, cnonce) == QopCut(algorithm, response, qop, cnonce) by {
      SplitAt(", nc=", ",", " nc=", c);
      var q := qop + ([','] + (" nc=" + c));
      SplitAt("\", qop=", "\", ", "qop=", q);
      SplitAt(", response=\"", ", response=", "\"", response + ("\", " + ("qop=" + q)));
    }
    assert AlgorithmTail(algorithm, response, qop, cnonce) == NcCut(algorithm, response, qop, cnonce) by {
      SplitAt(", cnonce=", ",", " cnonce=", cnonce);
      var n := NonceCount + ([','] + (" cnonce=" + cnonce));
      SplitAt(", nc=", ", ", "nc=", n);
      SplitAt(", response=\"", ", response=", "\"", response + ("\", qop=" + (qop + (", " + ("nc=" + n)))));
    }
    SplitAt(", cnonce=", ", ", "cnonce=", cnonce);
    SplitAt(", response=\"", ", response=", "\"", response + ("\", qop=" + (qop + (", nc=" + (NonceCount + (", " + ("cnonce=" + cnonce)))))));
  }

  // ---------------------------------------------------------------------
  // The facts about the literal parts of the header, proved apart from the
  // searches that use them.

  lemma QuoteLiterals()
    ensures ClosedBy(" Digest username=\"", '"') && ClosedBy(", realm=\"", '"') && ClosedBy(", nonce=\"", '"')
    ensures ClosedBy("username=\"", '"') && QuotedMarker("realm=\"")
    ensures !EndsWith(" Digest username=\"", "realm=\"")
    ensures QuotedMarker("nonce=\"") && !EndsWith(" Digest username=\"", "nonce=\"") && !EndsWith(", realm=\"", "nonce=\"")
    ensures QuotedMarker("response=\"") && !EndsWith(" Digest username=\"", "response=\"") &&
            !EndsWith(", realm=\"", "response=\"") && !EndsWith(", nonce=\"", "response=\"")
  {
  }

  lemma EqLiterals()
    ensures ClosedBy(" Digest username=", '=') && ClosedBy("\", algorithm=", '=') && ClosedBy("\", nonce=", '=')
    ensures ClosedBy("\", realm=", '=') && ClosedBy(", response=", '=') && ClosedBy("\", qop=", '=') && ClosedBy(", nc=", '=')
    ensures ClearOfHead("qop=") && ClearOfHead("nc=") && ClearOfHead("cnonce=")
    ensures !EndsWith(", response=", "qop=") && !EndsWith("qop=", ", response=")
    ensures !EndsWith(", response=", "nc=") && !EndsWith("nc=", ", response=")
    ensures !EndsWith("\", qop=", "nc=") && !EndsWith("nc=", "\", qop=")
    ensures !EndsWith(", response=", "cnonce=") && !EndsWith("cnonce=", ", response=")
    ensures !EndsWith("\", qop=", "cnonce=") && !EndsWith("cnonce=", "\", qop=")
    ensures !EndsWith(", nc=", "cnonce=") && !EndsWith("cnonce=", ", nc=")
  {
  }

  // ---------------------------------------------------------------------
  // Each directive read back

  /** The search for a quoted marker other than `username="` and `realm="`
      passes over the username and realm directives. */
  lemma QuoteHeadSkip(user: string, realm: string, t: string, m: string)
    requires IsToken(user) && IsToken(realm) && IndexOf(t, m, 0) >= 0
    requires QuotedMarker(m) && !EndsWith(" Digest username=\"", m) && !EndsWith(", realm=\"", m)
    ensures ExtractParam(QuoteHead(user, realm, t), m, '"') == ExtractParam(t, m, '"')
  {
    QuoteLiterals();
    var t3 := realm + ("\"" + t);
    var t2 := ", realm=\"" + t3;
    var t1 := user + ("\"" + t2);
    TokenSkip(realm, t, m);
    ExtractParamSkip(", realm=\"", t3, m, '"', '"');
    TokenSkip(user, t2, m);
    ExtractParamSkip(" Digest username=\"", t1, m, '"', '"');
  }

  /** The search for an unquoted marker passes over the head of the header. */
  lemma EqHeadSkip(user: string, realm: string, nonce: string, t: string, m: string)
    requires IsToken(user) && IsToken(realm) && IsToken(nonce)
    requires ClearOfHead(m) && IndexOf(t, m, 0) >= 0
    ensures ExtractParam(EqHead(user, realm, nonce, t), m, ',') == ExtractParam(t, m, ',')
  {
    EqLiterals();
    var t3 := "\"" + (nonce + ("\", algorithm=" + t));
    var t2 := "\"" + (realm + ("\", nonce=" + t3));
    var t1 := "\"" + (user + ("\", realm=" + t2));
    QuotedValueSkip(nonce, "\", algorithm=", t, m);
    QuotedValueSkip(realm, "\", nonce=", t3, m);
    QuotedValueSkip(user, "\", realm=", t2, m);
    ExtractParamSkip(" Digest username=", t1, m, '=', ',');
  }

  lemma ReadUsername(user: string, realm: string, nonce: string, algorithm: string, response: string, qop: string, cnonce: string)
    requires '"' !in user
    ensures ReadCredentials(AuthorizationLayout(user, realm, nonce, algorithm, response, qop, cnonce)).username == user
  {
    QuoteLiterals();
    LayoutNested(user, realm, nonce, algorithm, response, qop, cnonce);
    UsernameCut(user, realm, nonce, algorithm, response, qop, cnonce);
    FoundNested(" Digest ", "username=\"", user, '"',
                ", realm=\"" + RealmTail(realm, nonce, algorithm, response, qop, cnonce), '"');
  }

  lemma ReadRealm(user: string, realm: string, nonce: string, algorithm: string, response: string, qop: string, cnonce: string)
    requires IsToken(user) && '"' !in realm
    ensures ReadCredentials(AuthorizationLayout(user, realm, nonce, algorithm, response, qop, cnonce)).realm == realm
  {
    QuoteLiterals();
    var m := "realm=\"";
    var post := ", nonce=\"" + (nonce + ("\", algorithm=" + AlgorithmTail(algorithm, response, qop, cnonce)));
    var t := ", " + (m + (realm + ("\"" + post)));
    FoundNested(", ", m, realm, '"', post, '"');
    TokenSkip(user, t, m);
    ExtractParamSkip(" Digest username=\"", user + ("\"" + t), m, '"', '"');
    LayoutNested(user, realm, nonce, algorithm, response, qop, cnonce);
    RealmCut(user, realm, nonce, algorithm, response, qop, cnonce);
  }

  lemma ReadNonce(user: string, realm: string, nonce: string, algorithm: string, response: string, qop: string, cnonce: string)
    requires IsToken(user) && IsToken(realm) && '"' !in nonce
    ensures ReadCredentials(AuthorizationLayout(user, realm, nonce, algorithm, response, qop, cnonce)).nonce == nonce
  {
    QuoteLiterals();
    var m := "nonce=\"";
    var post := ", algorithm=" + AlgorithmTail(algorithm, response, qop, cnonce);
    var t := ", " + (m + (nonce + ("\"" + post)));
    FoundNested(", ", m, nonce, '"', post, '"');
    QuoteHeadSkip(user, realm, t, m);
    LayoutNested(user, realm, nonce, algorithm, response, qop, cnonce);
    NonceCut(user, realm, nonce, algorithm, response, qop, cnonce);
  }

  /** The `response="` search from the nonce directive on. */
  lemma ResponseTail(nonce: string, algorithm: string, response: string, qop: string, cnonce: string)
    requires IsToken(nonce) && '"' !in algorithm && '"' !in response
    ensures var t := ResponseCut(nonce, algorithm, response, qop, cnonce);
      IndexOf(t, "response=\"", 0) >= 0 && ExtractParam(t, "response=\"", '"') == response
  {
    QuoteLiterals();
    var m := "response=\"";
    var post := ResponsePost(qop, cnonce);
    var lead := ", algorithm=" + algorithm + ", ";
    var y := m + (response + ("\"" + post));
    assert ", algorithm=" + (algorithm + (", " + y)) == lead + y;
    FoundNested(lead, m, response, '"', post, '"');
    var t6 := "\"" + (", algorithm=" + (algorithm + (", " + y)));
    TokenSkip(nonce, ", algorithm=" + (algorithm + (", " + y)), m);
    ExtractParamSkip(", nonce=\"", nonce + t6, m, '"', '"');
  }

  lemma ReadResponse(user: string, realm: string, nonce: string, algorithm: string, response: string, qop: string, cnonce: string)
    requires IsToken(user) && IsToken(realm) && IsToken(nonce) && '"' !in algorithm && '"' !in response
    ensures ReadCredentials(AuthorizationLayout(user, realm, nonce, algorithm, response, qop, cnonce)).response == response
  {
    QuoteLiterals();
    var m := "response=\"";
    ResponseTail(nonce, algorithm, response, qop, cnonce);
    QuoteHeadSkip(user, realm, ResponseCut(nonce, algorithm, response, qop, cnonce), m);
    LayoutNested(user, realm, nonce, algorithm, response, qop, cnonce);
    ResponseCutOf(user, realm, nonce, algorithm, response, qop, cnonce);
  }

  /** The unquoted searches from the algorithm's value on. */
  lemma QopTail(algorithm: string, response: string, qop: string, cnonce: string)
    requires '=' !in algorithm && '=' !in response && ',' !in qop
    ensures var t := QopCut(algorithm, response, qop, cnonce);
      IndexOf(t, "qop=", 0) >= 0 && ExtractParam(t, "qop=", ',') == qop
  {
    EqLiterals();
    var m := "qop=";
    var post := " nc=" + (NonceCount + (", cnonce=" + cnonce));
    var lead := "\"" + response + "\", ";
    var y := m + (qop + ([','] + post));
    assert "\"" + (response + ("\", " + y)) == lead + y;
    FoundNested(lead, m, qop, ',', post, '=');
    ValueSkip(algorithm, ", response=", lead + y, m, '=', ',');
  }

  lemma NcTail(algorithm: string, response: string, qop: string, cnonce: string)
    requires '=' !in algorithm && '=' !in response && '=' !in qop
    ensures var t := NcCut(algorithm, response, qop, cnonce);
      IndexOf(t, "nc=", 0) >= 0 && ExtractParam(t, "nc=", ',') == NonceCount
  {
    EqLiterals();
    var m := "nc=";
    var post := " cnonce=" + cnonce;
    var y := m + (NonceCount + ([','] + post));
    assert qop + (", " + y) == (qop + ", ") + y;
    FoundNested(qop + ", ", m, NonceCount, ',', post, '=');
    var z := qop + (", " + y);
    QuotedValueSkip(response, "\", qop=", z, m);
    ValueSkip(algorithm, ", response=", "\"" + (response + ("\", qop=" + z)), m, '=', ',');
  }

  lemma CNonceTail(algorithm: string, response: string, qop: string, cnonce: string)
    requires '=' !in algorithm && '=' !in response && '=' !in qop && ',' !in cnonce
    ensures var t := CNonceCut(algorithm, response, qop, cnonce);
      IndexOf(t, "cnonce=", 0) >= 0 && ExtractParam(t, "cnonce=", ',') == cnonce
  {
    EqLiterals();
    var m := "cnonce=";
    var y := m + cnonce;
    assert NonceCount + (", " + y) == (NonceCount + ", ") + y;
    FoundLastNested(NonceCount + ", ", m, cnonce, ',', '=');
    var w := NonceCount + (", " + y);
    ValueSkip(qop, ", nc=", w, m, '=', ',');
    var z := qop + (", nc=" + w);
    QuotedValueSkip(response, "\", qop=", z, m);
    ValueSkip(algorithm, ", response=", "\"" + (response + ("\", qop=" + z)), m, '=', ',');
  }

  /** The requirements on the values for the header to read back. */
  predicate Readable(user: string, realm: string, nonce: string, algorithm: string, response: string, qop: string, cnonce: string) {
    IsToken(user) && IsToken(realm) && IsToken(nonce) && IsToken(algorithm) && IsToken(response) &&
    '=' !in qop && ',' !in qop && ',' !in cnonce
  }

  lemma ReadQop(user: string, realm: string, nonce: string, algorithm: string, response: string, qop: string, cnonce: string)
    requires Readable(user, realm, nonce, algorithm, response, qop, cnonce)
    ensures ReadCredentials(AuthorizationLayout(user, realm, nonce, algorithm, response, qop, cnonce)).qop == qop
  {
    EqLiterals();
    QopTail(algorithm, response, qop, cnonce);
    TailCuts(algorithm, response, qop, cnonce);
    EqHeadSkip(user, realm, nonce, AlgorithmTail(algorithm, response, qop, cnonce), "qop=");
    LayoutNested(user, realm, nonce, algorithm, response, qop, cnonce);
    EqCut(user, realm, nonce, algorithm, response, qop, cnonce);
  }

  lemma ReadNc(user: string, realm: string, nonce: string, algorithm: string, response: string, qop: string, cnonce: string)
    requires Readable(user, realm, nonce, algorithm, response, qop, cnonce)
    ensures ReadCredentials(AuthorizationLayout(user, realm, nonce, algorithm, response, qop, cnonce)).nc == NonceCount
  {
    EqLiterals();
    NcTail(algorithm, response, qop, cnonce);
    TailCuts(algorithm, response, qop, cnonce);
    EqHeadSkip(user, realm, nonce, AlgorithmTail(algorithm, response, qop, cnonce), "nc=");
    LayoutNested(user, realm, nonce, algorithm, response, qop, cnonce);
    EqCut(user, realm, nonce, algorithm, response, qop, cnonce);
  }

  lemma ReadCNonce(user: string, realm: string, nonce: string, algorithm: string, response: string, qop: string, cnonce: string)
    requires Readable(user, realm, nonce, algorithm, response, qop, cnonce)
    ensures ReadCredentials(AuthorizationLayout(user, realm, nonce, algorithm, response, qop, cnonce)).cnonce == cnonce
  {
    EqLiterals();
    CNonceTail(algorithm, response, qop, cnonce);
    TailCuts(algorithm, response, qop, cnonce);
    EqHeadSkip(user, realm, nonce, AlgorithmTail(algorithm, response, qop, cnonce), "cnonce=");
    LayoutNested(user, realm, nonce, algorithm, response, qop, cnonce);
    EqCut(user, realm, nonce, algorithm, response, qop, cnonce);
  }

  /** A device reading the header the client writes recovers every directive
      the client put in it, with the nonce count "1". */
  lemma ReadAuthorizationLayout(user: string, realm: string, nonce: string, algorithm: string, response: string, qop: string, cnonce: string)
    requires Readable(user, realm, nonce, algorithm, response, qop, cnonce)
    ensures ReadCredentials(AuthorizationLayout(user, realm, nonce, algorithm, response, qop, cnonce)) ==
      Credentials(user, realm, nonce, response, qop, "1", cnonce)
  {
    ReadUsername(user, realm, nonce, algorithm, response, qop, cnonce);
    ReadRealm(user, realm, nonce, algorithm, response, qop, cnonce);
    ReadNonce(user, realm, nonce, algorithm, response, qop, cnonce);
    ReadResponse(user, realm, nonce, algorithm, response, qop, cnonce);
    ReadQop(user, realm, nonce, algorithm, response, qop, cnonce);
    ReadNc(user, realm, nonce, algorithm, response, qop, cnonce);
    ReadCNonce(user, realm, nonce, algorithm, response, qop, cnonce);
  }
}
