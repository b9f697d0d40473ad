/** Pulling values out of header and response text: `extractParam`
    (src/shellyDevice.cpp:7-13) and the reading of a `WWW-Authenticate`
    challenge into its directives (src/shellyDevice.cpp:53-57). */
module Challenge {
  import opened ArduinoString

  /** The text that starts right after the FIRST occurrence of `param` in `s`
      and ends just before the next `delimiter` (or at the end of `s`); the
      empty string when `param` does not occur. */
  function ExtractParam(s: string, param: string, delimiter: char): string
  {
    var begin := IndexOf(s, param, 0);
    if begin == -1 then ""
    else
      ValueAt(s, begin + |param|, delimiter)
  }

  /** The text from `start` up to the next `delimiter`, or to the end. */
  function ValueAt(s: string, start: nat, delimiter: char): string
  {
    Substring(s, start, IndexOfChar(s, delimiter, start))
  }

  /** The value stops before the first delimiter after `start`. */
  lemma ValueAtHasNoDelimiter(s: string, start: nat, delimiter: char)
    ensures delimiter !in ValueAt(s, start, delimiter)
  {
  }

  /** Without the marker the value is empty; in any case it holds no delimiter. */
  lemma ExtractParamSpec(s: string, param: string, delimiter: char)
    ensures (forall i :: 0 <= i < |s| ==> !OccursAt(s, param, i)) ==> ExtractParam(s, param, delimiter) == ""
    ensures delimiter !in ExtractParam(s, param, delimiter)
  {
    var begin := IndexOf(s, param, 0);
    if begin != -1 {
      ValueAtHasNoDelimiter(s, begin + |param|, delimiter);
    }
  }

  /** Where the marker occurs first, the value is exactly the text after it up
      to the next delimiter or the end of the string. */
  lemma ExtractParamAfterFirstMarker(s: string, param: string, delimiter: char, b: nat)
    requires OccursAt(s, param, b)
    requires forall i :: 0 <= i < b ==> !OccursAt(s, param, i)
    ensures var k, r := b + |param|, ExtractParam(s, param, delimiter);
      k + |r| <= |s| && r == s[k..k + |r|] && delimiter !in r &&
      (k + |r| == |s| || s[k + |r|] == delimiter)
  {
    var k, r := b + |param|, ExtractParam(s, param, delimiter);
    if b < |s| {
      assert IndexOf(s, param, 0) == b;
      var e := IndexOfChar(s, delimiter, k);
      if e < 0 {
        assert r == SubstringFrom(s, k);
      } else {
        assert r == Range(s, k, e);
        assert r == s[k..e];
      }
    } else {
      assert r == "";
    }
  }

  /** The value of a directive that is followed by its delimiter. */
  lemma ExtractParamOf(pre: string, param: string, v: string, d: char, post: string)
    requires IndexOf(pre + param + v + [d] + post, param, 0) == |pre|
    requires d !in v
    ensures ExtractParam(pre + param + v + [d] + post, param, d) == v
  {
    var s := pre + param + v + [d] + post;
    var k := |pre| + |param|;
    assert s[k..k + |v|] == v;
    assert s[k + |v|] == d;
    var e := IndexOfChar(s, d, k);
    assert forall i :: k <= i < k + |v| ==> s[i] == v[i - k];
    assert e == k + |v|;
  }

  // ---------------------------------------------------------------------
  // Finding the first occurrence of a marker in a list of directives.
  // A header such as `Digest qop="auth", realm="r"` is cut into chunks that
  // each end with one quote character q and hold no other; a marker whose
  // only q is its last character can only occur at the end of a chunk.

  predicate EndsWith(c: string, m: string) {
    |m| <= |c| && c[|c| - |m|..] == m
  }

  /** `c` holds the character `q` exactly once, as its last character. */
  predicate ClosedBy(c: string, q: char) {
    |c| >= 1 && c[|c| - 1] == q && q !in c[..|c| - 1]
  }

  lemma IndexOfNoneBetween(s: string, m: string, from: nat, to: nat)
    requires from <= to <= |s|
    requires forall i :: from <= i < to ==> !OccursAt(s, m, i)
    ensures IndexOf(s, m, from) == IndexOf(s, m, to)
    decreases |s| - from
  {
    if from < to {
      IndexOfNoneBetween(s, m, from + 1, to);
    }
  }

  lemma {:induction false} IndexOfShift(x: string, y: string, m: string, k: nat)
    ensures IndexOf(x + y, m, |x| + k) ==
      (var j := IndexOf(y, m, k); if j < 0 then -1 else |x| + j)
    decreases |y| - k
  {
    if k < |y| {
      if k + |m| <= |y| {
        assert (x + y)[|x| + k..|x| + k + |m|] == y[k..k + |m|];
      }
      if !OccursAt(y, m, k) {
        IndexOfShift(x, y, m, k + 1);
      }
    }
  }

  /** No occurrence of the marker `m` starts inside a chunk `c` it does not end. */
  lemma NotInChunk(c: string, rest: string, m: string, q: char, i: nat)
    requires ClosedBy(m, q) && ClosedBy(c, q)
    requires i < |c| && i + |m| != |c|
    ensures !OccursAt(c + rest, m, i)
  {
    var s := c + rest;
    if i + |m| <= |s| {
      var w := s[i..i + |m|];
      if i + |m| < |c| {
        var j := i + |m| - 1;
        assert c[j] in c[..|c| - 1];
        assert w[|m| - 1] == c[j] != m[|m| - 1];
      } else {
        var o := |c| - 1 - i;
        assert m[o] in m[..|m| - 1];
        assert w[o] == c[|c| - 1] != m[o];
      }
    }
  }

  /** A chunk that does not end with the marker is skipped by the search. */
  lemma SkipChunk(c: string, rest: string, m: string, q: char)
    requires ClosedBy(m, q) && ClosedBy(c, q) && !EndsWith(c, m)
    ensures IndexOf(c + rest, m, 0) ==
      (var j := IndexOf(rest, m, 0); if j < 0 then -1 else |c| + j)
  {
    forall i | 0 <= i < |c| ensures !OccursAt(c + rest, m, i) {
      if i + |m| == |c| {
        assert (c + rest)[i..i + |m|] == c[|c| - |m|..];
      } else {
        NotInChunk(c, rest, m, q, i);
      }
    }
    IndexOfNoneBetween(c + rest, m, 0, |c|);
    IndexOfShift(c, rest, m, 0);
  }

  /** The first chunk that ends with the marker is where the search stops. */
  lemma FoundChunk(c: string, rest: string, m: string, q: char)
    requires ClosedBy(m, q) && ClosedBy(c, q) && EndsWith(c, m)
    ensures IndexOf(c + rest, m, 0) == |c| - |m|
  {
    var s, b := c + rest, |c| - |m|;
    forall i | 0 <= i < b ensures !OccursAt(s, m, i) {
      NotInChunk(c, rest, m, q, i);
    }
    assert s[b..b + |m|] == c[b..];
    assert OccursAt(s, m, b);
    IndexOfNoneBetween(s, m, 0, b);
  }

  // ---------------------------------------------------------------------
  // The challenge

  /** The directives read from a `WWW-Authenticate` header. */
  datatype Challenge = Challenge(scheme: string, realm: string, nonce: string, qop: string, algorithm: string)

  /** The scheme is the text up to the first space; `realm`, `nonce` and `qop`
      are the quoted values after `realm="`, `nonce="` and `qop="`; the
      algorithm is everything after the first `algorithm=`. When `algorithm=`
      is missing, `indexOf` gives -1 and the algorithm is the text from index 9. */
  function ParseChallenge(header: string): (ch: Challenge)
    ensures '"' !in ch.realm && '"' !in ch.nonce && '"' !in ch.qop
  {
    ExtractParamSpec(header, "realm=\"", '"');
    ExtractParamSpec(header, "nonce=\"", '"');
    ExtractParamSpec(header, "qop=\"", '"');
    Challenge(
      Substring(header, 0, IndexOfChar(header, ' ', 0)),
      ExtractParam(header, "realm=\"", '"'),
      ExtractParam(header, "nonce=\"", '"'),
      ExtractParam(header, "qop=\"", '"'),
      SubstringFrom(header, IndexOf(header, "algorithm=", 0) + 10))
  }

  /** A header without the `algorithm=` directive: the algorithm read from it
      is the header from index 9 on. */
  lemma AlgorithmWithoutDirective(header: string)
    requires forall i :: 0 <= i < |header| ==> !OccursAt(header, "algorithm=", i)
    ensures ParseChallenge(header).algorithm == if |header| <= 9 then "" else header[9..]
  {
  }

  /** A header in which a marker is missing yields the empty string for that
      directive. */
  lemma MissingDirectivesAreEmpty(header: string)
    ensures (forall i :: 0 <= i < |header| ==> !OccursAt(header, "realm=\"", i)) ==>
      ParseChallenge(header).realm == ""
    ensures (forall i :: 0 <= i < |header| ==> !OccursAt(header, "nonce=\"", i)) ==>
      ParseChallenge(header).nonce == ""
    ensures (forall i :: 0 <= i < |header| ==> !OccursAt(header, "qop=\"", i)) ==>
      ParseChallenge(header).qop == ""
  {
  }

  /** A value that can stand in a directive: no quote and no `=`. */
  predicate IsToken(v: string) {
    '"' !in v && '=' !in v
  }

  /** The challenge a device sends, in the order it sends the directives. */
  function ChallengeHeader(qop: string, realm: string, nonce: string, algorithm: string): string {
    "Digest qop=\"" + qop + "\", realm=\"" + realm + "\", nonce=\"" + nonce + "\", algorithm=" + algorithm
  }

  lemma ClosedByAppend(a: string, t: string, q: char)
    requires q !in a && ClosedBy(t, q)
    ensures ClosedBy(a + t, q)
  {
    assert (a + t)[..|a + t| - 1] == a + t[..|t| - 1];
  }

  lemma NotEndsWithAppend(a: string, t: string, m: string)
    requires !EndsWith(t, m) && !EndsWith(m, t)
    ensures !EndsWith(a + t, m)
  {
    var c := a + t;
    if |m| <= |t| {
      if |m| <= |c| {
        assert c[|c| - |m|..] == t[|t| - |m|..];
      }
    } else if |m| <= |c| {
      assert c[|c| - |m|..][|m| - |t|..] == t;
    }
  }

  /** A token followed by a closing quote is a chunk that ends no `name="` marker. */
  lemma TokenChunk(v: string, m: string)
    requires IsToken(v) && ClosedBy(m, '"') && |m| >= 2 && m[|m| - 2] == '='
    ensures ClosedBy(v + "\"", '"') && !EndsWith(v + "\"", m)
  {
    ClosedByAppend(v, "\"", '"');
    var c := v + "\"";
    if |m| <= |c| {
      assert v[|v| - 1] in v;
      assert c[|c| - |m|..][|m| - 2] == v[|v| - 1] != m[|m| - 2];
    }
  }

  lemma QopSplit(qop: string, realm: string, nonce: string, algorithm: string)
    ensures ChallengeHeader(qop, realm, nonce, algorithm) ==
      "Digest " + "qop=\"" + (qop + ['"'] + (", realm=\"" + realm + "\", nonce=\"" + nonce + "\", algorithm=" + algorithm))
  {
  }

  lemma ChallengeQop(qop: string, realm: string, nonce: string, algorithm: string)
    requires '"' !in qop
    ensures ParseChallenge(ChallengeHeader(qop, realm, nonce, algorithm)).qop == qop
  {
    var post := ", realm=\"" + realm + "\", nonce=\"" + nonce + "\", algorithm=" + algorithm;
    QopSplit(qop, realm, nonce, algorithm);
    ChallengeQuoteLiterals();
    ExtractParamFound("Digest ", "qop=\"", qop, '"', post, '"');
  }

  /** The value once the first marker is known to be at `b`. */
  lemma ExtractParamAt(s: string, m: string, d: char, b: nat, k: nat)
    requires IndexOf(s, m, 0) == b && k == b + |m|
    ensures ExtractParam(s, m, d) == ValueAt(s, k, d)
  {
  }

  /** A prefix `x` moves every delimiter found in `y` by `|x|`. */
  lemma IndexOfCharShift(x: string, y: string, d: char, k: nat)
    ensures IndexOfChar(x + y, d, |x| + k) == (var e := IndexOfChar(y, d, k); if e < 0 then -1 else |x| + e)
  {
    IndexOfShift(x, y, [d], k);
  }

  /** A prefix `x` does not change the value read from inside `y`. */
  lemma ValueAtShift(x: string, y: string, start: nat, d: char)
    ensures ValueAt(x + y, |x| + start, d) == ValueAt(y, start, d)
  {
    IndexOfCharShift(x, y, d, start);
    SubstringShift(x, y, start, IndexOfChar(y, d, start));
  }

  /** When the first marker lies in `y`, a prefix `x` does not change the value. */
  lemma ExtractParamShift(x: string, y: string, m: string, d: char)
    requires IndexOf(y, m, 0) >= 0 && IndexOf(x + y, m, 0) == |x| + IndexOf(y, m, 0)
    ensures ExtractParam(x + y, m, d) == ExtractParam(y, m, d)
  {
    var b := IndexOf(y, m, 0);
    var k := b + |m|;
    calc {
      ExtractParam(x + y, m, d);
    == { ExtractParamAt(x + y, m, d, |x| + b, |x| + k); }
      ValueAt(x + y, |x| + k, d);
    == { ValueAtShift(x, y, k, d); }
      ValueAt(y, k, d);
    == { ExtractParamAt(y, m, d, b, k); }
      ExtractParam(y, m, d);
    }
  }

  lemma SubstringShift(x: string, y: string, start: nat, e: int)
    requires e < 0 || start <= e < |y|
    ensures Substring(x + y, |x| + start, if e < 0 then -1 else |x| + e) == Substring(y, start, e)
  {
    if e < 0 {
      if start < |y| {
        assert (x + y)[|x| + start..] == y[start..];
      }
    } else {
      assert (x + y)[|x| + start..|x| + e] == y[start..e];
    }
  }

  /** Skipping a chunk that does not end with the marker. */
  lemma ExtractParamSkip(c: string, rest: string, m: string, q: char, d: char)
    requires ClosedBy(m, q) && ClosedBy(c, q) && !EndsWith(c, m) && IndexOf(rest, m, 0) >= 0
    ensures IndexOf(c + rest, m, 0) >= 0
    ensures ExtractParam(c + rest, m, d) == ExtractParam(rest, m, d)
  {
    SkipChunk(c, rest, m, q);
    ExtractParamShift(c, rest, m, d);
  }

  /** The value right after a chunk `lead + m` that ends with the marker,
      up to the delimiter `d`. */
  lemma ExtractParamFound(lead: string, m: string, v: string, d: char, post: string, q: char)
    requires ClosedBy(m, q) && ClosedBy(lead + m, q) && d !in v
    ensures IndexOf(lead + m + (v + [d] + post), m, 0) >= 0
    ensures ExtractParam(lead + m + (v + [d] + post), m, d) == v
  {
    var c := lead + m;
    assert EndsWith(c, m) by {
      assert c[|c| - |m|..] == m;
    }
    FoundChunk(c, v + [d] + post, m, q);
    assert c + (v + [d] + post) == lead + m + v + [d] + post;
    ExtractParamOf(lead, m, v, d, post);
  }

  /** The value right after a chunk `lead + m` that ends with the marker,
      running to the end of the string. */
  lemma ExtractParamFoundLast(lead: string, m: string, v: string, d: char, q: char)
    requires ClosedBy(m, q) && ClosedBy(lead + m, q) && d !in v
    ensures IndexOf(lead + m + v, m, 0) >= 0
    ensures ExtractParam(lead + m + v, m, d) == v
  {
    var c := lead + m;
    assert EndsWith(c, m) by {
      assert c[|c| - |m|..] == m;
    }
    FoundChunk(c, v, m, q);
    var s := c + v;
    var k := |c|;
    assert s[k..] == v;
    var e := IndexOfChar(s, d, k);
    assert forall i :: k <= i < |s| ==> s[i] == v[i - k];
    assert e == -1;
  }

  /** The facts about the quoted literal parts of a challenge that the
      searches for `realm="` and `nonce="` use. */
  lemma ChallengeQuoteLiterals()
    ensures ClosedBy("realm=\"", '"') && ClosedBy("nonce=\"", '"') && ClosedBy("qop=\"", '"')
    ensures ClosedBy("Digest " + "qop=\"", '"')
    ensures ClosedBy("Digest qop=\"", '"') && ClosedBy(", realm=\"", '"') && ClosedBy(", nonce=\"", '"')
    ensures !EndsWith("Digest qop=\"", "realm=\"") && !EndsWith("Digest qop=\"", "nonce=\"")
    ensures !EndsWith(", realm=\"", "nonce=\"")
  {
  }

  /** The facts about the literal parts of a challenge that the search for
      `algorithm=` uses. */
  lemma ChallengeEqLiterals()
    ensures ClosedBy("algorithm=", '=') && ClosedBy("Digest qop=", '=') && !EndsWith("Digest qop=", "algorithm=")
    ensures ClosedBy("\", realm=", '=') && !EndsWith("\", realm=", "algorithm=") && !EndsWith("algorithm=", "\", realm=")
    ensures ClosedBy("\", nonce=", '=') && !EndsWith("\", nonce=", "algorithm=") && !EndsWith("algorithm=", "\", nonce=")
    ensures ClosedBy("\", algorithm=", '=')
  {
  }

  lemma RealmSplit(qop: string, realm: string, nonce: string, algorithm: string)
    ensures ChallengeHeader(qop, realm, nonce, algorithm) ==
      "Digest qop=\"" + (qop + "\"" + (", " + "realm=\"" + (realm + "\"" + (", nonce=\"" + nonce + "\", algorithm=" + algorithm))))
  {
  }

  lemma ChallengeRealm(qop: string, realm: string, nonce: string, algorithm: string)
    requires IsToken(qop) && '"' !in realm
    ensures ParseChallenge(ChallengeHeader(qop, realm, nonce, algorithm)).realm == realm
  {
    var c1, c2, m := "Digest qop=\"", qop + "\"", "realm=\"";
    var post := ", nonce=\"" + nonce + "\", algorithm=" + algorithm;
    var t2 := ", " + m + (realm + "\"" + post);
    RealmSplit(qop, realm, nonce, algorithm);
    ChallengeQuoteLiterals();
    ExtractParamFound(", ", m, realm, '"', post, '"');
    TokenChunk(qop, m);
    ExtractParamSkip(c2, t2, m, '"', '"');
    ExtractParamSkip(c1, c2 + t2, m, '"', '"');
  }

  lemma NonceSplit(qop: string, realm: string, nonce: string, algorithm: string)
    ensures ChallengeHeader(qop, realm, nonce, algorithm) ==
      "Digest qop=\"" + (qop + "\"" + (", realm=\"" + (realm + "\"" +
        (", " + "nonce=\"" + (nonce + "\"" + (", algorithm=" + algorithm))))))
  {
  }

  /** The `nonce="` search over the chunks after the `qop` directive. */
  lemma NonceAfterRealm(realm: string, nonce: string, algorithm: string)
    requires IsToken(realm) && '"' !in nonce
    ensures var m := "nonce=\"";
      var t := ", realm=\"" + (realm + "\"" + (", " + m + (nonce + "\"" + (", algorithm=" + algorithm))));
      IndexOf(t, m, 0) >= 0 && ExtractParam(t, m, '"') == nonce
  {
    var c3, c4, m := ", realm=\"", realm + "\"", "nonce=\"";
    var post := ", algorithm=" + algorithm;
    var t4 := ", " + m + (nonce + "\"" + post);
    ChallengeQuoteLiterals();
    ExtractParamFound(", ", m, nonce, '"', post, '"');
    TokenChunk(realm, m);
    ExtractParamSkip(c4, t4, m, '"', '"');
    ExtractParamSkip(c3, c4 + t4, m, '"', '"');
  }

  lemma ChallengeNonce(qop: string, realm: string, nonce: string, algorithm: string)
    requires IsToken(qop) && IsToken(realm) && '"' !in nonce
    ensures ParseChallenge(ChallengeHeader(qop, realm, nonce, algorithm)).nonce == nonce
  {
    var c1, c2, m := "Digest qop=\"", qop + "\"", "nonce=\"";
    var t3 := ", realm=\"" + (realm + "\"" + (", " + m + (nonce + "\"" + (", algorithm=" + algorithm))));
    NonceSplit(qop, realm, nonce, algorithm);
    ChallengeQuoteLiterals();
    NonceAfterRealm(realm, nonce, algorithm);
    TokenChunk(qop, m);
    ExtractParamSkip(c2, t3, m, '"', '"');
    ExtractParamSkip(c1, c2 + t3, m, '"', '"');
  }

  lemma RealmMarkerInQopSplit(realm: string, nonce: string, algorithm: string)
    ensures ChallengeHeader("realm=", realm, nonce, algorithm) ==
      "Digest qop=\"" + ("" + "realm=\"" + (", realm=" + ['"'] + (realm + "\", nonce=\"" + nonce + "\", algorithm=" + algorithm)))
  {
  }

  /** The search for `realm="` takes the first occurrence, wherever it is: a
      qop value ending in `realm=` hides the realm, which then reads as the
      text between that qop and the real realm. */
  lemma RealmMarkerInQop(realm: string, nonce: string, algorithm: string)
    ensures ParseChallenge(ChallengeHeader("realm=", realm, nonce, algorithm)).realm == ", realm="
  {
    var m := "realm=\"";
    var post := realm + "\", nonce=\"" + nonce + "\", algorithm=" + algorithm;
    RealmMarkerInQopSplit(realm, nonce, algorithm);
    ChallengeQuoteLiterals();
    assert "" + m == m;
    ExtractParamFound("", m, ", realm=", '"', post, '"');
    ExtractParamSkip("Digest qop=\"", "" + m + (", realm=" + ['"'] + post), m, '"', '"');
  }

  /** A chunk `"v", name=` for a token v, cut at `=`, does not end the
      `algorithm=` marker unless name is `algorithm`. */
  lemma QuotedTokenChunk(v: string, tail: string)
    requires IsToken(v) && ClosedBy(tail, '=') && !EndsWith(tail, "algorithm=") && !EndsWith("algorithm=", tail)
    ensures ClosedBy("\"" + v + tail, '=') && !EndsWith("\"" + v + tail, "algorithm=")
  {
    ClosedByAppend("\"" + v, tail, '=');
    NotEndsWithAppend("\"" + v, tail, "algorithm=");
  }

  /** The `algorithm=` marker closing the `nonce` chunk. */
  lemma AlgorithmFound(nonce: string, algorithm: string)
    requires IsToken(nonce)
    ensures var c4 := "\"" + nonce + "\", algorithm=";
      IndexOf(c4 + algorithm, "algorithm=", 0) == |c4| - 10
  {
    var m, c4 := "algorithm=", "\"" + nonce + "\", algorithm=";
    ChallengeEqLiterals();
    ClosedByAppend("\"" + nonce, "\", algorithm=", '=');
    assert c4[|c4| - |m|..] == m;
    FoundChunk(c4, algorithm, m, '=');
  }

  /** The `algorithm=` search over the chunks after the `qop` directive. */
  lemma AlgorithmMarkerTail(realm: string, nonce: string, algorithm: string)
    requires IsToken(realm) && IsToken(nonce)
    ensures var t := "\"" + realm + "\", nonce=" + ("\"" + nonce + "\", algorithm=" + algorithm);
      IndexOf(t, "algorithm=", 0) + 10 == |t| - |algorithm|
  {
    var m := "algorithm=";
    var c3, c4 := "\"" + realm + "\", nonce=", "\"" + nonce + "\", algorithm=";
    ChallengeEqLiterals();
    AlgorithmFound(nonce, algorithm);
    QuotedTokenChunk(realm, "\", nonce=");
    SkipChunk(c3, c4 + algorithm, m, '=');
  }

  lemma AlgorithmSplit(qop: string, realm: string, nonce: string, algorithm: string)
    ensures ChallengeHeader(qop, realm, nonce, algorithm) ==
      "Digest qop=" + ("\"" + qop + "\", realm=" + ("\"" + realm + "\", nonce=" + ("\"" + nonce + "\", algorithm=" + algorithm)))
  {
  }

  lemma AlgorithmMarker(qop: string, realm: string, nonce: string, algorithm: string)
    requires IsToken(qop) && IsToken(realm) && IsToken(nonce)
    ensures var h := ChallengeHeader(qop, realm, nonce, algorithm);
      IndexOf(h, "algorithm=", 0) + 10 == |h| - |algorithm|
  {
    var m := "algorithm=";
    var c1, c2 := "Digest qop=", "\"" + qop + "\", realm=";
    var t3 := "\"" + realm + "\", nonce=" + ("\"" + nonce + "\", algorithm=" + algorithm);
    AlgorithmSplit(qop, realm, nonce, algorithm);
    ChallengeEqLiterals();
    AlgorithmMarkerTail(realm, nonce, algorithm);
    QuotedTokenChunk(qop, "\", realm=");
    SkipChunk(c2, t3, m, '=');
    SkipChunk(c1, c2 + t3, m, '=');
  }

  lemma ChallengeAlgorithm(qop: string, realm: string, nonce: string, algorithm: string)
    requires IsToken(qop) && IsToken(realm) && IsToken(nonce)
    ensures ParseChallenge(ChallengeHeader(qop, realm, nonce, algorithm)).algorithm == algorithm
  {
    var h := ChallengeHeader(qop, realm, nonce, algorithm);
    AlgorithmMarker(qop, realm, nonce, algorithm);
    assert h[|h| - |algorithm|..] == algorithm;
  }

  /** The scheme read from any text that starts with `Digest `. */
  lemma SchemeOf(rest: string)
    ensures var s := "Digest " + rest;
      Substring(s, 0, IndexOfChar(s, ' ', 0)) == "Digest"
  {
    var s := "Digest " + rest;
    FoundChunk("Digest ", rest, " ", ' ');
    assert IndexOfChar(s, ' ', 0) == 6;
    assert s[..6] == "Digest";
  }

  lemma SchemeSplit(qop: string, realm: string, nonce: string, algorithm: string)
    ensures ChallengeHeader(qop, realm, nonce, algorithm) ==
      "Digest " + ("qop=\"" + qop + "\", realm=\"" + realm + "\", nonce=\"" + nonce + "\", algorithm=" + algorithm)
  {
  }

  lemma ChallengeScheme(qop: string, realm: string, nonce: string, algorithm: string)
    ensures ParseChallenge(ChallengeHeader(qop, realm, nonce, algorithm)).scheme == "Digest"
  {
    SchemeSplit(qop, realm, nonce, algorithm);
    SchemeOf("qop=\"" + qop + "\", realm=\"" + realm + "\", nonce=\"" + nonce + "\", algorithm=" + algorithm);
  }

  /** Reading back a challenge in the form the device sends recovers every
      directive, provided the quoted values hold neither a quote nor `=`. */
  lemma ParseChallengeHeader(qop: string, realm: string, nonce: string, algorithm: string)
    requires IsToken(qop) && IsToken(realm) && IsToken(nonce)
    ensures ParseChallenge(ChallengeHeader(qop, realm, nonce, algorithm)) ==
      Challenge("Digest", realm, nonce, qop, algorithm)
  {
    ChallengeScheme(qop, realm, nonce, algorithm);
    ChallengeRealm(qop, realm, nonce, algorithm);
    ChallengeNonce(qop, realm, nonce, algorithm);
    ChallengeQop(qop, realm, nonce, algorithm);
    ChallengeAlgorithm(qop, realm, nonce, algorithm);
  }
}
