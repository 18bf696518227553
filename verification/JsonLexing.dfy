/** How the jsonxx scanners run over text whose next characters are known. */
module JsonLexing {
  import opened Text
  import opened JsonStream
  import opened JsonGrammar
  import opened JsonPrinter

  /** After blanks from p comes the visible character at q. */
  predicate Visible(t: string, p: nat, q: nat) {
    p <= q < |t| && SkipWs(Ready(t, p)) == Ready(t, q) && !IsSpace(t[q])
  }

  lemma {:induction false} SkipBlanks(t: string, p: nat, q: nat)
    requires p <= q < |t| && !IsSpace(t[q])
    requires forall i :: p <= i < q ==> IsSpace(t[i])
    ensures Visible(t, p, q)
    decreases q - p
  {
    if p < q { SkipBlanks(t, p + 1, q); }
  }

  /** A pattern that is there is consumed and nothing else. */
  lemma MatchHit(pattern: string, t: string, p: nat, q: nat)
    requires pattern != "" && Visible(t, p, q) && At(t, q, pattern)
    ensures Match(pattern, Ready(t, p)) == Matched(true, Ready(t, q + |pattern|))
  {
    MatchRest(pattern, 0, '\0', t, q);
  }

  lemma {:induction false} MatchRest(pattern: string, cur: nat, ch: char, t: string, q: nat)
    requires cur <= |pattern| && At(t, q, pattern)
    ensures MatchFrom(pattern, cur, ch, Ready(t, q + cur)) == Matched(true, Ready(t, q + |pattern|))
    decreases |pattern| - cur
  {
    hide ParseComment, PutbackAll, Putback, At;
    if cur < |pattern| {
      AtChar(t, q, pattern, cur);
      MatchRest(pattern, cur + 1, pattern[cur], t, q);
    }
  }

  /** A pattern whose first character is not there leaves the stream at the visible character. */
  lemma MatchMiss(pattern: string, t: string, p: nat, q: nat)
    requires pattern != "" && Visible(t, p, q) && t[q] != pattern[0] && t[q] != '/'
    ensures Match(pattern, Ready(t, p)) == Matched(false, Ready(t, q))
  {
    assert Putback(t[q], Ready(t, q + 1)) == Ready(t, q);
  }

  // ---------- a pattern that fails ----------

  /** Skip the comments a match skips before its first character. */
  function Leading(s: Stream): (r: Stream)
    ensures After(s, r)
    decreases Left(s)
  {
    var comment := ParseComment(s);
    if comment.ok then Leading(comment.rest) else s
  }

  lemma {:induction false} PutbackRestores(w: string, t: string, p: nat)
    requires At(t, p, w)
    ensures PutbackAll(w, Ready(t, p + |w|)) == Ready(t, p)
  {
    if w != "" {
      AtChar(t, p, w, |w| - 1);
      AtSplit(t, p, w[..|w| - 1], [w[|w| - 1]]);
      assert w == w[..|w| - 1] + [w[|w| - 1]];
      PutbackRestores(w[..|w| - 1], t, p);
    }
  }

  /** At p the text carries exactly the first m characters of the pattern, with no comment after them. */
  predicate Deviates(pattern: string, t: string, p: nat, m: nat) {
    && m < |pattern| && p + m < |t|
    && At(t, p, pattern[..m]) && t[p + m] != pattern[m]
    && !(m > 0 && At(t, p + m, "//"))
  }

  lemma CommentMiss(t: string, p: nat)
    requires p < |t| && !At(t, p, "//")
    ensures ParseComment(Ready(t, p)) == Matched(false, Ready(t, p))
  {
    if p + 2 <= |t| {
      assert t[p..p + 2] == [t[p], t[p + 1]];
    }
  }

  lemma MatchDeviates(pattern: string, ch: char, t: string, p: nat, m: nat)
    requires Deviates(pattern, t, p, m) && !At(t, p + m, "//")
    ensures MatchFrom(pattern, m, ch, Ready(t, p + m)) == Matched(false, Ready(t, p))
  {
    assert Putback(t[p + m], Ready(t, p + m + 1)) == Ready(t, p + m);
    CommentMiss(t, p + m);
    PutbackRestores(pattern[..m], t, p);
  }

  lemma {:induction false} MatchStops(pattern: string, cur: nat, ch: char, t: string, p: nat, m: nat)
    requires cur <= m && Deviates(pattern, t, p, m) && !At(t, p + m, "//")
    ensures MatchFrom(pattern, cur, ch, Ready(t, p + cur)) == Matched(false, Ready(t, p))
    decreases m - cur
  {
    if cur < m {
      AtChar(t, p, pattern[..m], cur);
      MatchStops(pattern, cur + 1, t[p + cur], t, p, m);
    } else {
      MatchDeviates(pattern, ch, t, p, m);
    }
  }

  /** A failed match is undone: unless the text ends inside the pattern or a comment starts inside
      it, the stream is back at the first character after the leading blanks and comments. */
  lemma MatchFailsInPlace(pattern: string, s: Stream, m: nat)
    requires pattern != "" && pattern[0] != '/'
    requires var l := Leading(SkipWs(s)); l.Good() && Deviates(pattern, l.text, l.pos, m)
    ensures Match(pattern, s) == Matched(false, Leading(SkipWs(s)))
  {
    MatchFromLeading(pattern, '\0', SkipWs(s), m);
  }

  lemma {:induction false} MatchFromLeading(pattern: string, ch: char, s: Stream, m: nat)
    requires pattern != "" && pattern[0] != '/'
    requires s.Good() ==> s.pos < |s.text|
    requires var l := Leading(s); l.Good() && Deviates(pattern, l.text, l.pos, m)
    ensures MatchFrom(pattern, 0, ch, s) == Matched(false, Leading(s))
    decreases Left(s)
  {
    var comment := ParseComment(s);
    if comment.ok {
      CommentSlash(s);
      assert Putback('/', Ready(s.text, s.pos + 1)) == s;
      MatchFromLeading(pattern, '/', comment.rest, m);
    } else {
      if At(s.text, s.pos + m, "//") {
        assert m == 0;
        CommentSlashes(s.text, s.pos);
      }
      MatchStops(pattern, 0, ch, s.text, s.pos, m);
    }
  }

  lemma CommentSlash(s: Stream)
    requires ParseComment(s).ok
    ensures s.Good() && s.pos < |s.text| && s.text[s.pos] == '/'
  {}

  lemma CommentSlashes(t: string, p: nat)
    requires At(t, p, "//")
    ensures ParseComment(Ready(t, p)).ok
  {
    AtChar(t, p, "//", 0);
    AtChar(t, p, "//", 1);
  }

  // ---------- strings ----------

  lemma HexInverse(d: nat)
    requires d < 32
    ensures HexInt("00" + [LowHex(d / 16), LowHex(d % 16)]) == Some(d)
  {
    var a, b := LowHex(d / 16), LowHex(d % 16);
    var w := "00" + [a, b];
    assert w[1..] == "0" + [a, b] && w[1..][1..] == [a, b] && [a, b][1..] == [b] && [b][1..] == "";
    assert HexDigits([b], d / 16) == HexDigits("", d);
    assert HexDigits(w, 0) == HexDigits(w[1..], 0) == HexDigits([a, b], 0) == HexDigits([b], d / 16);
  }

  lemma {:induction false} ReadCodeHit(ch: char, t: string, p: nat, code: string)
    requires code != "" && At(t, p, code)
    ensures ReadCode(|code|, ch, Ready(t, p)) == (code, code[|code| - 1], Ready(t, p + |code|))
    decreases |code|
  {
    AtChar(t, p, code, 0);
    assert code == [code[0]] + code[1..];
    if |code| > 1 {
      AtSplit(t, p, [code[0]], code[1..]);
      ReadCodeHit(code[0], t, p + 1, code[1..]);
    } else {
      assert ReadCode(0, code[0], Ready(t, p + 1)) == ("", code[0], Ready(t, p + 1));
    }
  }

  lemma PlainStep(ch: char, value: string, t: string, p: nat)
    requires p < |t| && t[p] != '"' && t[p] != '\\'
    ensures StringBody(Ready(t, p), ch, '"', value)
         == StringBody(Ready(t, p + 1), t[p], '"', value + [t[p]])
  {}

  lemma EscapeStep(ch: char, value: string, t: string, p: nat)
    requires p < |t| && t[p] == '\\'
    ensures var (piece, last, s) := Unescape('\\', '"', Ready(t, p + 1));
            StringBody(Ready(t, p), ch, '"', value) == StringBody(s, last, '"', value + piece)
  {}

  lemma ShortEscape(c: char, t: string, p: nat)
    requires |EscapeChar(c)| == 2 && At(t, p, EscapeChar(c))
    ensures t[p] == '\\'
    ensures Unescape('\\', '"', Ready(t, p + 1)) == ([c], t[p + 1], Ready(t, p + 2))
  {
    AtChar(t, p, EscapeChar(c), 0);
    AtChar(t, p, EscapeChar(c), 1);
  }

  lemma LongEscape(c: char, t: string, p: nat)
    requires |EscapeChar(c)| > 2 && At(t, p, EscapeChar(c))
    ensures t[p] == '\\'
    ensures Unescape('\\', '"', Ready(t, p + 1)) == ([c], t[p + 5], Ready(t, p + 6))
  {
    hide HexInt, HexDigits, ReadCode, At;
    var code := "00" + [LowHex(c as int / 16), LowHex(c as int % 16)];
    assert EscapeChar(c) == "\\u" + code;
    AtSplit(t, p, "\\u", code);
    AtChar(t, p, "\\u", 0);
    AtChar(t, p, "\\u", 1);
    AtChar(t, p + 2, code, 3);
    ReadCodeHit('u', t, p + 2, code);
    HexInverse(c as int);
  }

  /** One escaped character is read back as itself. */
  lemma EscapeCharReads(c: char, ch: char, value: string, t: string, p: nat) returns (last: char)
    requires At(t, p, EscapeChar(c))
    ensures StringBody(Ready(t, p), ch, '"', value)
         == StringBody(Ready(t, p + |EscapeChar(c)|), last, '"', value + [c])
  {
    hide StringBody, Unescape;
    if |EscapeChar(c)| == 1 {
      AtChar(t, p, EscapeChar(c), 0);
      PlainStep(ch, value, t, p);
      last := t[p];
    } else if |EscapeChar(c)| == 2 {
      ShortEscape(c, t, p);
      EscapeStep(ch, value, t, p);
      last := t[p + 1];
    } else {
      LongEscape(c, t, p);
      EscapeStep(ch, value, t, p);
      last := t[p + 5];
    }
  }

  lemma EscapeSplit(s: string, t: string, p: nat)
    requires s != "" && At(t, p, Escape(s) + "\"")
    ensures At(t, p, EscapeChar(s[0]))
    ensures At(t, p + |EscapeChar(s[0])|, Escape(s[1..]) + "\"")
    ensures |Escape(s)| == |EscapeChar(s[0])| + |Escape(s[1..])|
  {
    var w, rest := EscapeChar(s[0]), Escape(s[1..]) + "\"";
    assert Escape(s) + "\"" == w + rest;
    AtSplit(t, p, w, rest);
  }

  lemma {:induction false} BodyReads(s: string, ch: char, value: string, t: string, p: nat)
    requires At(t, p, Escape(s) + "\"")
    ensures StringBody(Ready(t, p), ch, '"', value)
         == Scanned(true, value + s, Ready(t, p + |Escape(s)| + 1))
    decreases |s|
  {
    hide *;
    if s == "" {
      EmptyBodyReads(ch, value, t, p);
      assert value + s == value;
    } else {
      EscapeSplit(s, t, p);
      var last := EscapeCharReads(s[0], ch, value, t, p);
      BodyReads(s[1..], last, value + [s[0]], t, p + |EscapeChar(s[0])|);
      assert (value + [s[0]]) + s[1..] == value + s;
    }
  }

  lemma EmptyBodyReads(ch: char, value: string, t: string, p: nat)
    requires At(t, p, Escape("") + "\"")
    ensures StringBody(Ready(t, p), ch, '"', value) == Scanned(true, value, Ready(t, p + |Escape("")| + 1))
  {
    AtChar(t, p, "\"", 0);
  }

  lemma QuotedSplit(s: string, t: string, q: nat)
    requires At(t, q, Quoted(s))
    ensures At(t, q, "\"") && At(t, q + 1, Escape(s) + "\"") && |Quoted(s)| == |Escape(s)| + 2
  {
    assert Quoted(s) == "\"" + (Escape(s) + "\"");
    AtSplit(t, q, "\"", Escape(s) + "\"");
  }

  lemma OpenString(s: Stream)
    ensures var quote := Match("\"", s); quote.ok ==> ParseString(s) == StringBody(quote.rest, '\0', '"', "")
  {}

  /** parse_string reads a printed string back, whatever comes after the closing quote. */
  lemma QuotedReads(s: string, t: string, p: nat, q: nat)
    requires Visible(t, p, q) && At(t, q, Quoted(s))
    ensures ParseString(Ready(t, p)) == Scanned(true, s, Ready(t, q + |Quoted(s)|))
  {
    hide StringBody, ParseString, Match, Quoted, Escape, At;
    QuotedSplit(s, t, q);
    MatchHit("\"", t, p, q);
    OpenString(Ready(t, p));
    BodyReads(s, '\0', "", t, q + 1);
    assert "" + s == s;
  }

  lemma StringMiss(t: string, p: nat, q: nat)
    requires Visible(t, p, q) && t[q] != '"' && t[q] != '\'' && t[q] != '/'
    ensures ParseString(Ready(t, p)) == Scanned(false, "", Ready(t, q))
  {
    MatchMiss("\"", t, p, q);
  }

  // ---------- numbers ----------

  lemma {:induction false} DigitsRead(n: nat)
    ensures Digits(n) != "" && forall c :: c in Digits(n) ==> IsDigit(c)
    ensures DigitsValue(Digits(n)) == n
  {
    if n >= 10 {
      DigitsRead(n / 10);
      var w := Digits(n);
      assert w[..|w| - 1] == Digits(n / 10) && w[|w| - 1] == LowHex(n % 10);
    } else {
      assert [LowHex(n)][..0] == "";
    }
  }

  lemma {:induction false} NumeralEnds(t: string, p: nat, q: nat, mantissa: bool)
    requires p <= q < |t| && forall i :: p <= i < q ==> IsDigit(t[i])
    requires t[q] == ',' || t[q] == ' '
    ensures NumeralEnd(t, p, mantissa, false, false) == q
    decreases q - p
  {
    if p < q { NumeralEnds(t, p + 1, q, true); }
  }

  lemma ConvertInverse(n: int)
    ensures Convert(IntText(n)) == Some(Integer(n))
  {
    var m := if n < 0 then -n else n;
    DigitsRead(m);
    assert Digits(m)[0] in Digits(m);
    assert IntText(n)[SkipSign(IntText(n), 0)..] == Digits(m);
  }

  lemma IntTextVisible(n: int)
    ensures IntText(n) != "" && (IntText(n)[0] == '-' || IsDigit(IntText(n)[0]))
  {
    DigitsRead(if n < 0 then -n else n);
    assert Digits(if n < 0 then -n else n)[0] in Digits(if n < 0 then -n else n);
  }

  lemma IntTextEnds(n: int, t: string, q: nat)
    requires At(t, q, IntText(n))
    requires var e := q + |IntText(n)|; e < |t| && (t[e] == ',' || t[e] == ' ')
    ensures NumeralEnd(t, SkipSign(t, q), false, false, false) == q + |IntText(n)|
  {
    var w, m := IntText(n), if n < 0 then -n else n;
    IntTextVisible(n);
    AtChar(t, q, w, 0);
    var d := SkipSign(t, q);
    forall i | d <= i < q + |w| ensures IsDigit(t[i]) {
      AtChar(t, q, w, i - q);
      DigitsRead(m);
      assert w[i - q] in Digits(m);
    }
    NumeralEnds(t, d, q + |w|, false);
  }

  /** A printed integer is read back, when a comma or a blank ends it. */
  lemma IntTextReads(n: int, t: string, p: nat, q: nat)
    requires Visible(t, p, q) && At(t, q, IntText(n))
    requires var e := q + |IntText(n)|; e < |t| && (t[e] == ',' || t[e] == ' ')
    ensures ParseNumber(Ready(t, p)) == (Some(Integer(n)), Ready(t, q + |IntText(n)|))
  {
    hide NumeralEnd, Convert, IntText, DigitsValue;
    IntTextEnds(n, t, q);
    ConvertInverse(n);
  }

  lemma NumberMiss(t: string, q: nat)
    requires q < |t| && !IsSpace(t[q]) && !IsDigit(t[q])
    requires t[q] != '+' && t[q] != '-' && t[q] != '.'
    ensures ParseNumber(Ready(t, q)) == (None, Ready(t, q))
  {
    assert t[q..q] == "";
  }

  // ---------- when a match succeeds ----------

  /** The text ends inside the pattern: from q on it is a proper prefix of it. */
  predicate EndsInside(pattern: string, t: string, q: nat) {
    q <= |t| < q + |pattern| && At(t, q, pattern[..|t| - q])
  }

  /** Only the last character is missing, and it is the one before it again. */
  predicate LastRepeats(pattern: string, t: string, q: nat) {
    q + 1 < q + |pattern| == |t| + 1 && pattern[|pattern| - 1] == pattern[|pattern| - 2]
  }

  /** At the end of the text the failed read leaves the last character in place. */
  lemma MatchEnds(pattern: string, cur: nat, ch: char, t: string)
    requires 0 < cur < |pattern| && cur <= |t|
    ensures var r := MatchFrom(pattern, cur, ch, Ready(t, |t|));
            r.rest.fail && (r.ok <==> cur + 1 == |pattern| && ch == pattern[cur])
  {
    var s := Ready(t, |t|).(eof := true, fail := true);
    if ch == pattern[cur] {
      assert MatchFrom(pattern, cur + 1, ch, s) == Matched(cur + 1 == |pattern|, s);
    } else {
      FailedPutback(pattern[..cur], Putback(ch, s));
    }
  }

  lemma {:induction false} FailedPutback(w: string, s: Stream)
    requires s.fail
    ensures PutbackAll(w, s).fail
  {
    if w != "" { FailedPutback(w[..|w| - 1], Putback(w[|w| - 1], s)); }
  }

  lemma {:induction false} MatchInside(pattern: string, cur: nat, ch: char, t: string, q: nat)
    requires q < |t| && EndsInside(pattern, t, q) && q + cur <= |t|
    requires cur > 0 ==> ch == pattern[cur - 1]
    ensures var r := MatchFrom(pattern, cur, ch, Ready(t, q + cur));
            r.rest.fail && (r.ok <==> LastRepeats(pattern, t, q))
    decreases |t| - cur
  {
    hide ParseComment, PutbackAll, Putback;
    if q + cur == |t| {
      MatchEnds(pattern, cur, ch, t);
    } else {
      AtChar(t, q, pattern[..|t| - q], cur);
      MatchInside(pattern, cur + 1, pattern[cur], t, q);
    }
  }

  /** The first character at which text and pattern differ, if there is one. */
  lemma {:induction false} FirstDifference(pattern: string, t: string, q: nat, m: nat) returns (k: nat)
    requires m <= |pattern| && q + m <= |t| && At(t, q, pattern[..m])
    requires !At(t, q, pattern) && !EndsInside(pattern, t, q)
    ensures k < |pattern| && q + k < |t| && At(t, q, pattern[..k]) && t[q + k] != pattern[k]
    decreases |pattern| - m
  {
    assert pattern[..|pattern|] == pattern;
    if t[q + m] != pattern[m] {
      k := m;
    } else {
      assert pattern[..m + 1] == pattern[..m] + [pattern[m]];
      AtSplit(t, q, pattern[..m], [pattern[m]]);
      k := FirstDifference(pattern, t, q, m + 1);
    }
  }

  predicate NoComment(t: string, q: nat) {
    forall i :: q <= i < |t| ==> !At(t, i, "//")
  }

  /** What a match does on text without comments: it takes the pattern that is there; when the text
      ends inside the pattern the stream fails, and the match succeeds all the same if only the last
      character is missing and repeats the one before it; otherwise nothing is taken. */
  lemma MatchExact(pattern: string, t: string, p: nat, q: nat)
    requires pattern != "" && Visible(t, p, q) && NoComment(t, q)
    ensures var r := Match(pattern, Ready(t, p));
            if At(t, q, pattern) then r == Matched(true, Ready(t, q + |pattern|))
            else if EndsInside(pattern, t, q) then r.rest.fail && (r.ok <==> LastRepeats(pattern, t, q))
            else r == Matched(false, Ready(t, q))
  {
    hide MatchFrom, LastRepeats;
    if At(t, q, pattern) {
      MatchHit(pattern, t, p, q);
    } else if EndsInside(pattern, t, q) {
      MatchInside(pattern, 0, '\0', t, q);
    } else {
      assert pattern[..0] == "" == t[q..q];
      var k := FirstDifference(pattern, t, q, 0);
      MatchStops(pattern, 0, '\0', t, q, k);
    }
  }

  /** So a match succeeds exactly when the pattern is there, or the text ends just before its last
      character and that repeats the one before. */
  lemma MatchIff(pattern: string, t: string, p: nat, q: nat)
    requires pattern != "" && Visible(t, p, q) && NoComment(t, q)
    ensures Match(pattern, Ready(t, p)).ok <==>
              At(t, q, pattern) || (EndsInside(pattern, t, q) && LastRepeats(pattern, t, q))
  {
    hide Match, At;
    MatchExact(pattern, t, p, q);
  }

  /** A null is read exactly where the text says null, where a comma is next, and where the text
      ends in "nul". */
  lemma NullIff(t: string, p: nat, q: nat)
    requires Visible(t, p, q) && NoComment(t, q)
    ensures ParseNull(Ready(t, p)).ok <==> At(t, q, "null") || t[q] == ',' || t[q..] == "nul"
  {
    hide Match, MatchFrom;
    MatchExact("null", t, p, q);
    NulEnds(t, q);
  }

  lemma NulEnds(t: string, q: nat)
    requires q < |t|
    ensures EndsInside("null", t, q) && LastRepeats("null", t, q) <==> t[q..] == "nul"
    ensures At(t, q, "null") ==> t[q] != ','
    ensures EndsInside("null", t, q) ==> t[q] != ','
  {
    assert "null"[..3] == "nul";
    if |t| == q + 3 { assert t[q..q + 3] == t[q..]; }
    if EndsInside("null", t, q) { AtChar(t, q, "null"[..|t| - q], 0); }
  }
}
