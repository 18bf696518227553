/** The parser reads every JSON text, however it is laid out and spelled, as what it stands for. */
module JsonReading {
  import opened Text
  import opened JsonStream
  import opened JsonGrammar
  import opened JsonDocuments
  import opened JsonLexing
  import P = JsonPrinter
  import R = JsonRoundTrip

  // ---------- gaps ----------

  /** From p a gap leads to the visible character at q. */
  predicate Skips(t: string, p: nat, q: nat) {
    p <= q < |t| && Gap(t[p..q]) && !IsSpace(t[q]) && t[q] != '/'
  }

  lemma AtSlice(t: string, p: nat, w: string)
    requires At(t, p, w)
    ensures p + |w| <= |t| && t[p..p + |w|] == w
    ensures w != "" ==> p < |t| && t[p] == w[0]
  {
    if w != "" { AtChar(t, p, w, 0); }
  }

  lemma GapAt(t: string, p: nat, g: string, rest: string)
    requires At(t, p, g + rest) && Gap(g)
    requires rest != "" && !IsSpace(rest[0]) && rest[0] != '/'
    ensures Skips(t, p, p + |g|) && At(t, p + |g|, rest) && t[p + |g|] == rest[0]
  {
    hide Gap, IsSpace, At;
    AtSplit(t, p, g, rest);
    AtSlice(t, p, g);
    AtSlice(t, p + |g|, rest);
  }

  lemma LineEnds(t: string, p: nat, q: nat) returns (e: nat)
    requires p <= q <= |t| && Comment(t[p..q])
    ensures p <= e < q && Gap(t[e..q])
    ensures SkipLine(Ready(t, p)) == Ready(t, e)
    decreases q - p
  {
    if t[p] == '\n' || t[p] == '\r' {
      e := p;
    } else {
      assert t[p..q][1..] == t[p + 1..q];
      e := LineEnds(t, p + 1, q);
    }
  }

  lemma {:induction false} GapLeads(t: string, p: nat, q: nat)
    requires Skips(t, p, q)
    ensures Leading(SkipWs(Ready(t, p))) == Ready(t, q)
    decreases q - p
  {
    hide SkipLine;
    if p == q {
      assert !ParseComment(Ready(t, q)).ok;
    } else if IsSpace(t[p]) {
      assert t[p..q][1..] == t[p + 1..q];
      GapLeads(t, p + 1, q);
    } else {
      assert t[p..q][2..] == t[p + 2..q];
      var e := LineEnds(t, p + 2, q);
      GapLeads(t, e, q);
      assert ParseComment(Ready(t, p)) == Matched(true, SkipWs(Ready(t, e)));
    }
  }

  /** Before its first character a match skips what Leading skips. */
  lemma {:induction false} MatchLeads(pattern: string, ch: char, s: Stream)
    requires pattern != "" && pattern[0] != '/'
    requires s.Good() ==> s.pos < |s.text|
    requires Leading(s).Good() && Leading(s).pos < |s.text|
    ensures MatchFrom(pattern, 0, ch, s) == MatchFrom(pattern, 0, '\0', Leading(s))
    decreases Left(s)
  {
    hide SkipLine, PutbackAll;
    var comment := ParseComment(s);
    if comment.ok {
      CommentSlash(s);
      assert Putback('/', Ready(s.text, s.pos + 1)) == s;
      MatchLeads(pattern, '/', comment.rest);
    }
  }

  /** A match from before a gap does what it does from after it. */
  lemma GapMatch(pattern: string, t: string, p: nat, q: nat)
    requires pattern != "" && pattern[0] != '/' && Skips(t, p, q)
    ensures Match(pattern, Ready(t, p)) == Match(pattern, Ready(t, q))
    ensures Visible(t, q, q)
  {
    hide MatchFrom, Leading, ParseComment;
    GapLeads(t, p, q);
    AfterGap(t, p, q);
    MatchLeads(pattern, '\0', SkipWs(Ready(t, p)));
    assert SkipWs(Ready(t, q)) == Ready(t, q);
    NoGap(t, q);
    MatchLeads(pattern, '\0', Ready(t, q));
  }

  lemma AfterGap(t: string, p: nat, q: nat)
    requires p <= |t| && q <= |t| && Leading(SkipWs(Ready(t, p))) == Ready(t, q)
    ensures SkipWs(Ready(t, p)).Good()
  {}

  lemma NoGap(t: string, q: nat)
    requires q < |t| && t[q] != '/'
    ensures Leading(Ready(t, q)) == Ready(t, q)
  {}

  lemma GapHit(c: char, t: string, p: nat, q: nat)
    requires Skips(t, p, q) && t[q] == c
    ensures Match([c], Ready(t, p)) == Matched(true, Ready(t, q + 1))
  {
    hide Match;
    GapMatch([c], t, p, q);
    MatchHit([c], t, q, q);
  }

  lemma GapMiss(c: char, t: string, p: nat, q: nat)
    requires c != '/' && Skips(t, p, q) && t[q] != c
    ensures Match([c], Ready(t, p)) == Matched(false, Ready(t, q))
  {
    hide Match;
    GapMatch([c], t, p, q);
    MatchMiss([c], t, q, q);
  }

  lemma GapString(t: string, p: nat, q: nat)
    requires Skips(t, p, q)
    ensures ParseString(Ready(t, p)) == ParseString(Ready(t, q))
  {
    hide Match, StringBody;
    GapMatch("\"", t, p, q);
  }

  lemma GapValue(t: string, p: nat, q: nat)
    requires Skips(t, p, q)
    ensures ParseValue(Ready(t, p)) == ParseValue(Ready(t, q))
  {
    hide ParseString, ParseNumber, ParseBool, ParseNull, ParseArray, ObjectValue;
    GapString(t, p, q);
  }

  // ---------- strings ----------

  lemma {:induction false} HexReads(a: string, b: string, acc: nat)
    requires forall d :: d in a ==> IsHex(d)
    requires forall d :: d in b ==> IsHex(d)
    requires acc == HexValue(a)
    ensures HexDigits(b, acc) == HexValue(a + b)
    decreases |b|
  {
    if b == "" {
      assert a + b == a;
    } else {
      assert b[0] in b;
      assert (a + [b[0]])[..|a|] == a;
      HexReads(a + [b[0]], b[1..], acc * 16 + HexDigit(b[0]));
      assert (a + [b[0]]) + b[1..] == a + b;
    }
  }

  lemma CodeReads(digits: string, t: string, p: nat, quote: char)
    requires ProperPiece(Code(digits), quote) && At(t, p, PieceText(Code(digits)))
    ensures t[p] == '\\'
    ensures Unescape('\\', quote, Ready(t, p + 1))
         == ([PieceMeaning(Code(digits), quote)], digits[3], Ready(t, p + 6))
  {
    hide ReadCode, At, HexDigits, HexValue;
    AtSplit(t, p, "\\u", digits);
    AtChar(t, p, "\\u", 0);
    AtChar(t, p, "\\u", 1);
    ReadCodeHit('u', t, p + 2, digits);
    CodeInt(digits);
  }

  lemma CodeInt(digits: string)
    requires |digits| == 4 && forall d :: d in digits ==> IsHex(d)
    ensures HexInt(digits) == Some(HexValue(digits))
  {
    hide HexInt, HexDigits, HexValue;
    HexPlain(digits);
    assert "" + digits == digits;
    EmptyHex();
    HexReads("", digits, 0);
  }

  lemma EmptyHex()
    ensures HexValue("") == 0
  {}

  lemma HexPlain(digits: string)
    requires |digits| == 4 && forall d :: d in digits ==> IsHex(d)
    ensures HexInt(digits) == Some(HexDigits(digits, 0))
  {
    hide HexDigits, HexValue;
    assert digits[0] in digits && digits[1] in digits;
    assert IsHex(digits[0]) && IsHex(digits[1]);
    assert DropSpaces(digits) == digits;
  }

  lemma PlainReads(c: char, quote: char, ch: char, value: string, t: string, p: nat)
    requires p < |t| && t[p] == c && c != quote && c != '\\'
    ensures StringBody(Ready(t, p), ch, quote, value) == StringBody(Ready(t, p + 1), c, quote, value + [c])
  {}

  lemma EscapeReads(quote: char, ch: char, value: string, t: string, p: nat)
    requires quote != '\\' && p < |t| && t[p] == '\\'
    ensures var (piece, last, s) := Unescape('\\', quote, Ready(t, p + 1));
            StringBody(Ready(t, p), ch, quote, value) == StringBody(s, last, quote, value + piece)
  {}

  lemma LetterReads(letter: char, quote: char, t: string, p: nat)
    requires quote == '"' || quote == '\''
    requires ProperPiece(Escaped(letter), quote) && p < |t| && t[p] == letter
    ensures Unescape('\\', quote, Ready(t, p)) == ([PieceMeaning(Escaped(letter), quote)], letter, Ready(t, p + 1))
  {
    hide ReadCode, HexInt;
  }

  lemma PieceReads(piece: Piece, quote: char, ch: char, value: string, t: string, p: nat) returns (last: char)
    requires quote == '"' || quote == '\''
    requires ProperPiece(piece, quote) && At(t, p, PieceText(piece))
    ensures StringBody(Ready(t, p), ch, quote, value)
         == StringBody(Ready(t, p + |PieceText(piece)|), last, quote, value + [PieceMeaning(piece, quote)])
  {
    hide StringBody, Unescape, HexValue;
    match piece {
      case Plain(c) =>
        AtChar(t, p, [c], 0);
        PlainReads(c, quote, ch, value, t, p);
        last := c;
      case Escaped(letter) =>
        AtChar(t, p, PieceText(piece), 0);
        AtChar(t, p, PieceText(piece), 1);
        EscapeReads(quote, ch, value, t, p);
        LetterReads(letter, quote, t, p + 1);
        last := letter;
      case Code(digits) =>
        CodeReads(digits, t, p, quote);
        EscapeReads(quote, ch, value, t, p);
        last := digits[3];
    }
  }

  function PiecesMeaning(ps: seq<Piece>, quote: char): string
    requires forall i :: 0 <= i < |ps| ==> ProperPiece(ps[i], quote)
  {
    seq(|ps|, i requires 0 <= i < |ps| => PieceMeaning(ps[i], quote))
  }

  lemma {:induction false} PiecesRead(ps: seq<Piece>, quote: char, ch: char, value: string, t: string, p: nat)
    requires quote == '"' || quote == '\''
    requires forall i :: 0 <= i < |ps| ==> ProperPiece(ps[i], quote)
    requires At(t, p, PiecesText(ps) + [quote])
    ensures StringBody(Ready(t, p), ch, quote, value)
         == Scanned(true, value + PiecesMeaning(ps, quote), Ready(t, p + |PiecesText(ps)| + 1))
    decreases |ps|
  {
    hide StringBody, ProperPiece, PieceMeaning, PieceText, At;
    if ps == [] {
      assert PiecesText(ps) + [quote] == [quote];
      assert [quote] + "" == [quote];
      AtHead(t, p, quote, "");
      BodyEnds(quote, ch, value, t, p);
      assert value + PiecesMeaning(ps, quote) == value;
    } else {
      var rest := PiecesText(ps[1..]) + [quote];
      assert PiecesText(ps) + [quote] == PieceText(ps[0]) + rest;
      AtSplit(t, p, PieceText(ps[0]), rest);
      var last := PieceReads(ps[0], quote, ch, value, t, p);
      PiecesRead(ps[1..], quote, last, value + [PieceMeaning(ps[0], quote)], t, p + |PieceText(ps[0])|);
      assert (value + [PieceMeaning(ps[0], quote)]) + PiecesMeaning(ps[1..], quote) == value + PiecesMeaning(ps, quote);
    }
  }

  lemma BodyEnds(quote: char, ch: char, value: string, t: string, p: nat)
    requires p < |t| && t[p] == quote
    ensures StringBody(Ready(t, p), ch, quote, value) == Scanned(true, value, Ready(t, p + 1))
  {}

  /** parse_string reads any spelling of a string, in either quotes. */
  lemma SpellingReads(s: Spelling, t: string, q: nat)
    requires ProperSpelling(s) && At(t, q, SpellingText(s))
    ensures q < |t| && t[q] == s.quote && Skips(t, q, q)
    ensures ParseString(Ready(t, q)) == Scanned(true, SpellingMeaning(s), Ready(t, q + |SpellingText(s)|))
  {
    hide StringBody, Match, ProperPiece, PieceMeaning, PiecesText, At;
    var body := PiecesText(s.pieces) + [s.quote];
    AtHead(t, q, s.quote, body);
    assert t[q..q] == "";
    PiecesRead(s.pieces, s.quote, if s.quote == '"' then '\0' else '\'', "", t, q + 1);
    assert "" + PiecesMeaning(s.pieces, s.quote) == SpellingMeaning(s);
    if s.quote == '"' {
      GapHit('"', t, q, q);
    } else {
      GapMiss('"', t, q, q);
    }
  }

  /** A string that the end of the text cuts off is not read. */
  lemma {:induction false} CutStringFails(ps: seq<Piece>, quote: char, ch: char, value: string, t: string, p: nat)
    requires quote == '"' || quote == '\''
    requires forall i :: 0 <= i < |ps| ==> ProperPiece(ps[i], quote)
    requires At(t, p, PiecesText(ps)) && p + |PiecesText(ps)| == |t|
    ensures !StringBody(Ready(t, p), ch, quote, value).ok
    decreases |ps|
  {
    hide StringBody, ProperPiece, PieceMeaning, PieceText, At;
    if ps == [] {
      EndFails(ch, quote, value, t);
    } else {
      AtSplit(t, p, PieceText(ps[0]), PiecesText(ps[1..]));
      var last := PieceReads(ps[0], quote, ch, value, t, p);
      CutStringFails(ps[1..], quote, last, value + [PieceMeaning(ps[0], quote)], t, p + |PieceText(ps[0])|);
    }
  }

  lemma EndFails(ch: char, quote: char, value: string, t: string)
    ensures !StringBody(Ready(t, |t|), ch, quote, value).ok
  {
    hide HexInt;
    var s := Ready(t, |t|).(eof := true, fail := true);
    assert Get(ch, Ready(t, |t|)) == (ch, s);
    if ch == '\\' && ch != quote {
      var (piece, last, s2) := Unescape(ch, quote, s);
      assert s2.fail;
    }
  }

  // ---------- numbers ----------

  /** No character that could continue a numeral, or the end of the text. */
  predicate Stops(t: string, e: nat) {
    e == |t| || (e < |t| && !IsDigit(t[e]) && t[e] != '.' && t[e] != 'e' && t[e] != 'E')
  }

  lemma {:induction false} DigitsRun(w: string, t: string, p: nat, mantissa: bool, point: bool, exponent: bool)
    requires AllDigits(w) && At(t, p, w)
    ensures NumeralEnd(t, p, mantissa, point, exponent) == NumeralEnd(t, p + |w|, true, point, exponent)
    decreases |w|
  {
    hide At;
    assert w[0] in w && w == [w[0]] + w[1..];
    AtHead(t, p, w[0], w[1..]);
    if |w| > 1 {
      DigitsRun(w[1..], t, p + 1, true, point, exponent);
    }
  }

  lemma FirstDigit(w: string, t: string, p: nat)
    requires AllDigits(w) && At(t, p, w)
    ensures p < |t| && IsDigit(t[p]) && SkipSign(t, p) == p
  {
    assert w[0] in w;
    AtChar(t, p, w, 0);
  }

  lemma FractionRun(n: Numeral, t: string, p: nat) returns (e: nat)
    requires ProperNumeral(n)
    requires At(t, p, (if n.fraction.Some? then "." + n.fraction.value else "") + ExponentText(n.exponent))
    ensures p <= e <= |t| && At(t, e, ExponentText(n.exponent))
    ensures e == p + if n.fraction.Some? then 1 + |n.fraction.value| else 0
    ensures NumeralEnd(t, p, true, false, false) == NumeralEnd(t, e, true, n.fraction.Some?, false)
  {
    hide At, AllDigits, ExponentText;
    var rest := ExponentText(n.exponent);
    if n.fraction.Some? {
      var w := n.fraction.value;
      assert ("." + w) + rest == ['.'] + (w + rest);
      AtHead(t, p, '.', w + rest);
      AtSplit(t, p + 1, w, rest);
      DigitsRun(w, t, p + 1, true, true, false);
      e := p + 1 + |w|;
      AtSlice(t, e, rest);
    } else {
      assert "" + rest == rest;
      e := p;
      AtSlice(t, e, rest);
    }
  }

  lemma ExponentRun(exponent: Option<Exponent>, t: string, p: nat, point: bool)
    requires exponent.Some? ==> ProperExponent(exponent.value)
    requires p <= |t| && At(t, p, ExponentText(exponent)) && Stops(t, p + |ExponentText(exponent)|)
    ensures NumeralEnd(t, p, true, point, false) == p + |ExponentText(exponent)|
  {
    hide At;
    if exponent.Some? {
      var x := exponent.value;
      AtHead(t, p, x.mark, x.sign + x.digits);
      AtSplit(t, p + 1, x.sign, x.digits);
      var d := p + 1 + |x.sign|;
      FirstDigit(x.digits, t, d);
      if x.sign != "" {
        assert x.sign == [x.sign[0]] + "";
        AtHead(t, p + 1, x.sign[0], "");
      }
      assert SkipSign(t, p + 1) == d;
      DigitsRun(x.digits, t, d, true, point, true);
    }
  }

  lemma NumeralEnds(n: Numeral, t: string, q: nat)
    requires ProperNumeral(n) && At(t, q, NumeralText(n)) && Stops(t, q + |NumeralText(n)|)
    ensures q < |t| && (t[q] == '-' || IsDigit(t[q]))
    ensures NumeralEnd(t, SkipSign(t, q), false, false, false) == q + |NumeralText(n)|
  {
    hide At, ExponentText, AllDigits, Unsigned, NumeralEnd, Stops;
    var u := Unsigned(n);
    if n.negative {
      assert NumeralText(n) == ['-'] + u;
      AtHead(t, q, '-', u);
      UnsignedEnds(n, t, q + 1);
    } else {
      assert NumeralText(n) == u;
      UnsignedEnds(n, t, q);
    }
  }

  lemma UnsignedEnds(n: Numeral, t: string, s: nat)
    requires ProperNumeral(n) && At(t, s, Unsigned(n)) && Stops(t, s + |Unsigned(n)|)
    ensures s < |t| && IsDigit(t[s]) && SkipSign(t, s) == s
    ensures NumeralEnd(t, s, false, false, false) == s + |Unsigned(n)|
  {
    hide At, ExponentText, AllDigits, NumeralEnd, Stops;
    var rest := (if n.fraction.Some? then "." + n.fraction.value else "") + ExponentText(n.exponent);
    AtSplit(t, s, n.whole, rest);
    FirstDigit(n.whole, t, s);
    DigitsRun(n.whole, t, s, false, false, false);
    var e := FractionRun(n, t, s + |n.whole|);
    ExponentRun(n.exponent, t, e, n.fraction.Some?);
  }

  lemma NumeralConverts(n: Numeral)
    requires ProperNumeral(n)
    ensures Convert(NumeralText(n)) == Some(NumeralMeaning(n))
  {
    hide DigitsValue, Unsigned, ExponentText, Convert;
    UnsignedStarts(n);
    if n.fraction.Some? || n.exponent.Some? {
      NumeralMarks(n);
      ConvertsFraction(n.negative, Unsigned(n));
    } else {
      ConvertsInteger(n.negative, n.whole);
    }
  }

  function Signed(negative: bool, w: string): string {
    (if negative then "-" else "") + w
  }

  lemma SignSkipped(negative: bool, w: string)
    requires w != "" && IsDigit(w[0])
    ensures var text := Signed(negative, w); text[SkipSign(text, 0)..] == w && (text[0] == '-' <==> negative)
  {
    if !negative { assert Signed(negative, w) == w; }
  }

  lemma ConvertsInteger(negative: bool, w: string)
    requires AllDigits(w)
    ensures Convert(Signed(negative, w)) == Some(Integer(if negative then -(DigitsValue(w) as int) else DigitsValue(w)))
  {
    hide DigitsValue, SkipSign;
    assert w[0] in w;
    SignSkipped(negative, w);
  }

  lemma ConvertsFraction(negative: bool, w: string)
    requires w != "" && IsDigit(w[0]) && IsDigit(w[|w| - 1]) && exists c :: c in w && !IsDigit(c)
    ensures Convert(Signed(negative, w)) == Some(Fraction(Signed(negative, w)))
  {
    hide DigitsValue, SkipSign, IsDigit, Signed;
    assert w[0] in w;
    SignSkipped(negative, w);
    var c :| c in w && !IsDigit(c);
    assert !(forall d :: d in w ==> IsDigit(d));
    assert exists d :: d in w && IsDigit(d);
  }

  lemma UnsignedStarts(n: Numeral)
    requires ProperNumeral(n)
    ensures Unsigned(n) != "" && IsDigit(Unsigned(n)[0])
    ensures n.fraction.None? && n.exponent.None? ==> Unsigned(n) == n.whole
  {
    assert n.whole[0] in n.whole && Unsigned(n)[0] == n.whole[0];
  }

  /** A fraction or an exponent has a character that is no digit, and ends in one. */
  lemma NumeralMarks(n: Numeral)
    requires ProperNumeral(n) && (n.fraction.Some? || n.exponent.Some?)
    ensures var u := Unsigned(n); IsDigit(u[|u| - 1]) && exists c :: c in u && !IsDigit(c)
  {
    var u := Unsigned(n);
    var k := |n.whole|;
    assert !IsDigit(u[k]) && u[k] in u;
    if n.exponent.Some? {
      var w := n.exponent.value.digits;
      assert w[|w| - 1] in w && u[|u| - 1] == w[|w| - 1];
    } else {
      var w := n.fraction.value;
      assert w[|w| - 1] in w && u[|u| - 1] == w[|w| - 1];
    }
  }

  /** A numeral is taken before every character that cannot continue it, and at the end of the text. */
  lemma NumeralReads(n: Numeral, t: string, q: nat)
    requires ProperNumeral(n) && At(t, q, NumeralText(n)) && Stops(t, q + |NumeralText(n)|)
    ensures var e := q + |NumeralText(n)|;
            && q < e <= |t| && (t[q] == '-' || IsDigit(t[q]))
            && ParseNumber(Ready(t, q)) == (Some(NumeralMeaning(n)), Stream(t, e, e == |t|, false))
  {
    hide NumeralEnd, Convert, NumeralText, NumeralMeaning, SkipSign;
    NumeralEnds(n, t, q);
    NumeralConverts(n);
    assert SkipWs(Ready(t, q)) == Ready(t, q);
    assert t[q..q + |NumeralText(n)|] == NumeralText(n);
    NumeralSome(n);
  }

  lemma NumeralSome(n: Numeral)
    requires ProperNumeral(n)
    ensures NumeralText(n) != ""
  {}

  // ---------- documents ----------

  /** What can follow a value inside a container. */
  predicate Follower(c: char) {
    IsSpace(c) || c == '/' || c == ',' || c == ']' || c == '}'
  }

  /** What can come after a value and the gap behind it. */
  predicate Ender(w: string) {
    w != "" && (w[0] == ',' || w[0] == ']' || w[0] == '}')
  }

  /** What a document can start with. */
  predicate Start(c: char) {
    R.Starter(c) || c == '\''
  }

  lemma WriteStarts(d: Doc)
    requires Proper(d)
    ensures Write(d) != "" && Start(Write(d)[0])
  {
    match d {
      case NumberDoc(n) =>
        assert n.whole[0] in n.whole;
        assert Unsigned(n)[0] == n.whole[0];
        if n.negative { assert NumeralText(n)[0] == '-'; } else { assert NumeralText(n) == Unsigned(n); }
      case _ => hide ItemsText, MembersText, PiecesText;
    }
  }

  lemma GapFollows(g: string, rest: string)
    requires Gap(g) && rest != "" && Follower(rest[0])
    ensures g + rest != "" && Follower((g + rest)[0])
  {
    GapStarts(g);
    if g != "" { assert (g + rest)[0] == g[0]; }
  }

  lemma NumberDocReads(n: Numeral, t: string, q: nat)
    requires ProperNumeral(n) && At(t, q, NumeralText(n))
    requires var e := q + |NumeralText(n)|; e < |t| && Follower(t[e])
    ensures ParseValue(Ready(t, q)) == Parsed(Some(JNumber(NumeralMeaning(n))), Ready(t, q + |NumeralText(n)|))
  {
    hide ParseString, ParseNumber, NumeralText, NumeralMeaning;
    NumeralReads(n, t, q);
    assert Skips(t, q, q) by { assert t[q..q] == ""; }
    StringMiss(t, q, q);
  }

  lemma StringDocReads(s: Spelling, t: string, q: nat)
    requires ProperSpelling(s) && At(t, q, SpellingText(s))
    ensures ParseValue(Ready(t, q)) == Parsed(Some(JString(SpellingMeaning(s))), Ready(t, q + |SpellingText(s)|))
  {
    hide ParseString, SpellingText, SpellingMeaning;
    SpellingReads(s, t, q);
  }

  lemma BracketHere(c: char, rest: string, t: string, q: nat)
    requires (c == '[' || c == '{') && At(t, q, [c] + rest)
    ensures q < |t| && t[q] == c && Visible(t, q, q) && At(t, q + 1, rest)
    ensures Match([c], Ready(t, q)) == Matched(true, Ready(t, q + 1))
  {
    hide Match;
    AtHead(t, q, c, rest);
    assert t[q..q] == "";
    GapHit(c, t, q, q);
  }

  /** Wherever a document stands before a follower of values, parse_value returns what it stands for
      and stops right after it. */
  lemma {:induction false} DocReads(d: Doc, t: string, q: nat)
    requires Proper(d) && At(t, q, Write(d))
    requires var e := q + |Write(d)|; e < |t| && Follower(t[e])
    ensures ParseValue(Ready(t, q)) == Parsed(Some(Meaning(d)), Ready(t, q + |Write(d)|))
    decreases d, 3
  {
    hide ParseValue, ParseArray, ParseObject, NumeralText, SpellingText, NumeralMeaning, SpellingMeaning, ItemsText,
         MembersText, Match;
    match d {
      case NullDoc => WordDocReads(JNull, t, q);
      case BoolDoc(b) => WordDocReads(JBool(b), t, q);
      case NumberDoc(n) => NumberDocReads(n, t, q);
      case StringDoc(s) => StringDocReads(s, t, q);
      case ArrayDoc(inner, items, trailing) =>
        BracketHere('[', Write(d)[1..], t, q);
        R.OpensArray(t, q, q);
        ArrayDocReads(d, t, q);
      case ObjectDoc(inner, members, trailing) =>
        BracketHere('{', Write(d)[1..], t, q);
        R.OpensObject(t, q, q);
        ObjectDocReads(d, t, q);
    }
  }

  lemma WordDocReads(v: Value, t: string, q: nat)
    requires v.JNull? || v.JBool?
    requires At(t, q, R.Body(0, v))
    ensures ParseValue(Ready(t, q)) == Parsed(Some(v), Ready(t, q + |R.Body(0, v)|))
  {
    hide ParseValue, Match;
    AtChar(t, q, R.Body(0, v), 0);
    SkipBlanks(t, q, q);
    R.WordReads(0, v, t, q, q);
  }

  lemma {:induction false} ArrayDocReads(d: Doc, t: string, q: nat)
    requires d.ArrayDoc? && Proper(d) && At(t, q, Write(d))
    ensures ParseArray(Ready(t, q)) == ParsedArray(true, ItemsMeaning(d.items), Ready(t, q + |Write(d)|))
    decreases d, 2
  {
    hide Match, Items, ItemsText, At, Gap;
    var close := Closing(d.trailing, ']');
    if d.items == [] {
      BracketHere('[', d.inner + "]", t, q);
      GapAt(t, q + 1, d.inner, "]");
      GapHit(']', t, q + 1, q + 1 + |d.inner|);
    } else {
      var before, text := d.items[0].before, ItemsText(d.items, close);
      assert ProperItem(d.items[0]);
      BracketHere('[', before + text, t, q);
      ItemsTextStarts(d.items, close);
      GapAt(t, q + 1, before, text);
      var q1 := q + 1 + |before|;
      GapMiss(']', t, q + 1, q1);
      SkipsHere(t, q + 1, q1);
      ItemsDocRead([], d.items, d.trailing, t, q1, q1);
      assert Extended([], d.items) == [] + ItemsMeaning(d.items);
      assert [] + ItemsMeaning(d.items) == ItemsMeaning(d.items);
    }
  }

  lemma SkipsHere(t: string, p: nat, q: nat)
    requires Skips(t, p, q)
    ensures Skips(t, q, q)
  {
    assert t[q..q] == "";
  }

  lemma ItemsTextStarts(items: seq<Item>, close: string)
    requires items != [] && ProperItem(items[0])
    ensures ItemsText(items, close) != "" && Start(ItemsText(items, close)[0])
  {
    hide Write, ItemsRest;
    WriteStarts(items[0].doc);
  }

  lemma ItemsRestStarts(items: seq<Item>, close: string)
    requires items != [] && Ender(close)
    ensures Ender(ItemsRest(items, close))
  {
    hide ItemsText;
  }

  /** The value at q and what follows it. */
  lemma ItemSplits(item: Item, rest: string, t: string, q: nat) returns (e: nat, c: nat)
    requires ProperItem(item) && At(t, q, ItemText(item, rest))
    requires Ender(rest)
    ensures e == q + |Write(item.doc)| && c == e + |item.after|
    ensures At(t, q, Write(item.doc)) && e < |t| && Follower(t[e])
    ensures Skips(t, e, c) && t[c] == rest[0] && At(t, c, rest) && c + |rest| == q + |ItemText(item, rest)|
  {
    hide Write, Gap, At;
    e := q + |Write(item.doc)|;
    AtSplit(t, q, Write(item.doc), item.after + rest);
    GapFollows(item.after, rest);
    AtSlice(t, e, item.after + rest);
    GapAt(t, e, item.after, rest);
    c := e + |item.after|;
  }

  lemma GapStarts(g: string)
    requires Gap(g)
    ensures g != "" ==> IsSpace(g[0]) || g[0] == '/'
  {}

  /** The closing bracket right after the last value. */
  lemma ArrayCloses(values: seq<Value>, t: string, e: nat, c: nat)
    requires Skips(t, e, c) && t[c] == ']'
    ensures Match(",", Ready(t, e)) == Matched(false, Ready(t, c))
    ensures CloseArray(Ready(t, c), values) == ParsedArray(true, values, Ready(t, c + 1))
  {
    hide Match, Gap;
    GapMiss(',', t, e, c);
    SkipsHere(t, e, c);
    GapHit(']', t, c, c);
  }

  /** The closing bracket after a comma. */
  lemma ArrayClosesLate(values: seq<Value>, t: string, e: nat, z: nat)
    requires Skips(t, e, z) && t[z] == ']'
    ensures Items(Ready(t, e), values) == ParsedArray(true, values, Ready(t, z + 1))
  {
    hide Match, Items, Gap;
    NothingReads(t, e, z);
    R.ItemsStep(Ready(t, e), values);
    SkipsHere(t, e, z);
    GapHit(']', t, z, z);
  }

  /** The closing bracket after the last value, with or without a comma before it. */
  lemma ArrayEnds(values: seq<Value>, trailing: Option<string>, t: string, e: nat, c: nat)
    requires trailing.Some? ==> Gap(trailing.value)
    requires Skips(t, e, c) && At(t, c, Closing(trailing, ']'))
    ensures var comma := Match(",", Ready(t, e));
            (if comma.ok then Items(comma.rest, values) else CloseArray(comma.rest, values))
              == ParsedArray(true, values, Ready(t, c + |Closing(trailing, ']')|))
  {
    hide Match, Items, CloseArray, At, Gap, Skips;
    if trailing.Some? {
      AtHead(t, c, ',', trailing.value + [']']);
      GapHit(',', t, e, c);
      GapAt(t, c + 1, trailing.value, [']']);
      ArrayClosesLate(values, t, c + 1, c + 1 + |trailing.value|);
    } else {
      AtSlice(t, c, [']']);
      ArrayCloses(values, t, e, c);
    }
  }

  /** No value starts with a closing bracket. */
  lemma NothingReads(t: string, p: nat, q: nat)
    requires Skips(t, p, q) && t[q] == ']'
    ensures ParseValue(Ready(t, p)) == Parsed(None, Ready(t, q))
  {
    hide Match, ParseString, ParseNumber, SkipWs, ParseValue;
    GapValue(t, p, q);
    SkipsHere(t, p, q);
    GapMiss('"', t, q, q);
    NothingHere(t, q);
  }

  lemma NothingHere(t: string, q: nat)
    requires Skips(t, q, q) && t[q] == ']'
    ensures ParseValue(Ready(t, q)) == Parsed(None, Ready(t, q))
  {
    hide Match, ParseString, ParseNumber, ParseArray, SkipWs;
    GapMatch("{", t, q, q);
    StringMiss(t, q, q);
    NumberMiss(t, q);
    MatchMiss("true", t, q, q);
    MatchMiss("false", t, q, q);
    MatchMiss("null", t, q, q);
    MatchMiss("{", t, q, q);
    assert ParseBool(Ready(t, q)) == (None, Ready(t, q));
    assert ParseNull(Ready(t, q)) == Matched(false, Ready(t, q));
    assert ParseObject(Ready(t, q)).rest == Ready(t, q) && !ParseObject(Ready(t, q)).ok;
    assert ObjectValue(Ready(t, q)) == Parsed(None, Ready(t, q));
  }

  /** One item, up to what follows. */
  lemma {:induction false} ItemReads(done: seq<Value>, item: Item, rest: string, t: string, p: nat, q: nat)
    returns (e: nat, c: nat)
    requires ProperItem(item) && Skips(t, p, q) && Ender(rest) && At(t, q, ItemText(item, rest))
    ensures Proper(item.doc) && e <= |t| && Skips(t, e, c) && At(t, c, rest)
    ensures c + |rest| == q + |ItemText(item, rest)|
    ensures var values := With(done, item);
            var comma := Match(",", Ready(t, e));
            Items(Ready(t, p), done) == if comma.ok then Items(comma.rest, values) else CloseArray(comma.rest, values)
    decreases item, 0
  {
    hide Match, Items, ParseValue, At, Gap, Write, CloseArray, Skips, Meaning, Ender, ItemText, ProperItem;
    ItemProper(item);
    e, c := ItemSplits(item, rest, t, q);
    DocReads(item.doc, t, q);
    GapValue(t, p, q);
    R.ItemsStep(Ready(t, p), done);
  }

  lemma {:induction false} ItemsDocRead(done: seq<Value>, items: seq<Item>, trailing: Option<string>,
                                        t: string, p: nat, q: nat)
    requires items != [] && forall i :: 0 <= i < |items| ==> ProperItem(items[i])
    requires trailing.Some? ==> Gap(trailing.value)
    requires Skips(t, p, q) && At(t, q, ItemsText(items, Closing(trailing, ']')))
    ensures Items(Ready(t, p), done)
         == ParsedArray(true, Extended(done, items), Ready(t, q + |ItemsText(items, Closing(trailing, ']'))|))
    decreases items, 1
  {
    hide Match, Items, At, Gap, ProperItem, Write, ItemsText, ItemsRest, CloseArray, Closing, Skips, Meaning,
         Extended, With, Proper, Ender, ItemText, IsSpace;
    var close := Closing(trailing, ']');
    ClosingStarts(trailing, ']');
    ItemsTextUnfold(items, close);
    ExtendedUnfold(done, items);
    ItemsRestStarts(items, close);
    var e, c := ItemReads(done, items[0], ItemsRest(items, close), t, p, q);
    var values := With(done, items[0]);
    if |items| == 1 {
      ArrayEnds(values, trailing, t, e, c);
    } else {
      var q1 := NextItem(items, close, t, e, c);
      ItemsDocRead(values, items[1..], trailing, t, c + 1, q1);
    }
  }

  /** The comma and the gap before the next item. */
  lemma NextItem(items: seq<Item>, close: string, t: string, e: nat, c: nat) returns (q: nat)
    requires |items| > 1 && ProperItem(items[1])
    requires Skips(t, e, c) && At(t, c, ItemsRest(items, close))
    ensures Match(",", Ready(t, e)) == Matched(true, Ready(t, c + 1))
    ensures Skips(t, c + 1, q) && At(t, q, ItemsText(items[1..], close))
    ensures q + |ItemsText(items[1..], close)| == c + |ItemsRest(items, close)|
  {
    hide Match, At, Gap, ProperItem, Write, ItemsText, ItemsRest, Skips, Proper, ItemText, IsSpace;
    var rest := ItemsText(items[1..], close);
    ItemsTextUnfold(items, close);
    AtHead(t, c, ',', items[1].before + rest);
    GapHit(',', t, e, c);
    ItemProper(items[1]);
    assert items[1..][0] == items[1];
    ItemsTextStarts(items[1..], close);
    StartVisible(rest[0]);
    GapAt(t, c + 1, items[1].before, rest);
    q := c + 1 + |items[1].before|;
  }

  lemma StartVisible(c: char)
    requires Start(c)
    ensures !IsSpace(c) && c != '/'
  {}

  function With(done: seq<Value>, item: Item): seq<Value>
    requires ProperItem(item)
  {
    ItemProper(item);
    done + [Meaning(item.doc)]
  }

  function Extended(done: seq<Value>, items: seq<Item>): seq<Value>
    requires forall i :: 0 <= i < |items| ==> ProperItem(items[i])
  {
    done + ItemsMeaning(items)
  }

  lemma ExtendedUnfold(done: seq<Value>, items: seq<Item>)
    requires items != [] && forall i :: 0 <= i < |items| ==> ProperItem(items[i])
    ensures var values := With(done, items[0]);
            Extended(done, items) == if |items| == 1 then values else Extended(values, items[1..])
  {
    hide Meaning, ItemsMeaning, Proper, ProperItem;
    ItemsMeaningUnfold(items);
    var values, rest := With(done, items[0]), ItemsMeaning(items[1..]);
    assert done + ItemsMeaning(items) == values + rest;
    if |items| == 1 { assert values + rest == values; }
  }

  lemma ItemProper(i: Item)
    requires ProperItem(i)
    ensures Gap(i.before) && Proper(i.doc) && Gap(i.after)
  {}

  lemma ItemsTextUnfold(items: seq<Item>, close: string)
    requires items != []
    ensures ItemsText(items, close) == ItemText(items[0], ItemsRest(items, close))
    ensures ItemsRest(items, close) == (if |items| == 1 then close
                                        else [','] + (items[1].before + ItemsText(items[1..], close)))
  {
    hide Write;
  }

  lemma ClosingStarts(trailing: Option<string>, close: char)
    requires close == ']' || close == '}'
    ensures Ender(Closing(trailing, close))
  {}

  lemma ItemsMeaningUnfold(items: seq<Item>)
    requires items != [] && forall i :: 0 <= i < |items| ==> ProperItem(items[i])
    ensures Proper(items[0].doc) && ItemsMeaning(items) == [Meaning(items[0].doc)] + ItemsMeaning(items[1..])
    ensures |items| == 1 ==> ItemsMeaning(items[1..]) == []
  {
    hide Meaning, Gap;
    assert ProperItem(items[0]);
  }

  // ---------- the same for objects ----------

  lemma {:induction false} ObjectDocReads(d: Doc, t: string, q: nat)
    requires d.ObjectDoc? && Proper(d) && At(t, q, Write(d))
    ensures ParseObject(Ready(t, q)) == ParsedObject(true, MembersMeaning([], d.members), Ready(t, q + |Write(d)|))
    decreases d, 2
  {
    hide Match, Members, MembersText, At, Gap, MembersMeaning;
    var close := Closing(d.trailing, '}');
    if d.members == [] {
      NoMembers();
      BracketHere('{', d.inner + "}", t, q);
      GapAt(t, q + 1, d.inner, "}");
      GapHit('}', t, q + 1, q + 1 + |d.inner|);
    } else {
      var before, text := d.members[0].before, MembersText(d.members, close);
      assert ProperMember(d.members[0]);
      BracketHere('{', before + text, t, q);
      MembersTextStarts(d.members, close);
      GapAt(t, q + 1, before, text);
      var q1 := q + 1 + |before|;
      GapMiss('}', t, q + 1, q1);
      SkipsHere(t, q + 1, q1);
      MembersDocRead([], d.members, d.trailing, t, q1, q1);
    }
  }

  lemma NoMembers()
    ensures MembersMeaning([], []) == []
  {}

  lemma MembersTextStarts(members: seq<Member>, close: string)
    requires members != [] && ProperMember(members[0])
    ensures MembersText(members, close) != ""
    ensures MembersText(members, close)[0] == '"' || MembersText(members, close)[0] == '\''
  {
    hide Write, MembersRest;
  }

  lemma MembersRestStarts(members: seq<Member>, close: string)
    requires members != [] && Ender(close)
    ensures Ender(MembersRest(members, close))
  {
    hide MembersText;
  }

  /** The key at q, the colon and the gaps: where the key ends, and where the colon and the value are. */
  lemma MemberSplits(m: Member, text: string, t: string, q: nat) returns (k: nat, c: nat, v: nat)
    requires ProperMember(m) && At(t, q, SpellingText(m.key) + (m.colon + (":" + (m.item.before + text))))
    requires text != "" && Start(text[0])
    ensures At(t, q, SpellingText(m.key)) && k == q + |SpellingText(m.key)|
    ensures Skips(t, k, c) && t[c] == ':' && Skips(t, c + 1, v) && At(t, v, text)
    ensures v + |text| == q + |SpellingText(m.key) + (m.colon + (":" + (m.item.before + text)))|
  {
    hide At, Gap, SpellingText, ProperSpelling, ProperItem;
    ItemProper(m.item);
    var value := m.item.before + text;
    k := q + |SpellingText(m.key)|;
    AtSplit(t, q, SpellingText(m.key), m.colon + (":" + value));
    assert ":" + value == [':'] + value;
    GapAt(t, k, m.colon, ":" + value);
    c := k + |m.colon|;
    AtHead(t, c, ':', value);
    GapAt(t, c + 1, m.item.before, text);
    v := c + 1 + |m.item.before|;
  }

  /** One member: its key, the colon and its value, up to what follows. */
  lemma {:induction false} MemberReads(done: seq<Pair<Value>>, m: Member, rest: string, t: string, p: nat, q: nat)
    returns (e: nat, z: nat)
    requires ProperMember(m) && Skips(t, p, q)
    requires Ender(rest) && At(t, q, MemberText(m, rest))
    ensures ProperSpelling(m.key) && Proper(m.item.doc)
    ensures e <= |t| && Skips(t, e, z) && At(t, z, rest)
    ensures z + |rest| == q + |MemberText(m, rest)|
    ensures var more := Put(done, SpellingMeaning(m.key), Meaning(m.item.doc));
            var comma := Match(",", Ready(t, e));
            Members(Ready(t, p), done) == if comma.ok then Members(comma.rest, more) else CloseObject(comma.rest, more)
    decreases m, 0
  {
    hide Match, Members, ParseValue, ParseString, At, Gap, ProperItem, Write, CloseObject, Skips, Meaning, Put,
         SpellingText, SpellingMeaning, ProperSpelling, IsSpace, Start, Ender;
    var text := Write(m.item.doc) + (m.item.after + rest);
    ItemProper(m.item);
    ValueStarts(m.item.doc, m.item.after + rest);
    var k, c, v := MemberSplits(m, text, t, q);
    GapString(t, p, q);
    SpellingReads(m.key, t, q);
    GapHit(':', t, k, c);
    e, z := ItemSplits(m.item, rest, t, v);
    DocReads(m.item.doc, t, v);
    GapValue(t, c + 1, v);
    R.MembersStep(Ready(t, p), done);
  }

  lemma {:induction false} MembersDocRead(done: seq<Pair<Value>>, members: seq<Member>, trailing: Option<string>,
                                          t: string, p: nat, q: nat)
    requires members != [] && forall i :: 0 <= i < |members| ==> ProperMember(members[i])
    requires trailing.Some? ==> Gap(trailing.value)
    requires Skips(t, p, q) && At(t, q, MembersText(members, Closing(trailing, '}')))
    ensures Members(Ready(t, p), done)
         == ParsedObject(true, MembersMeaning(done, members),
                         Ready(t, q + |MembersText(members, Closing(trailing, '}'))|))
    decreases members, 1
  {
    hide Match, Members, At, Gap, ProperMember, Write, MembersText, MembersRest, CloseObject, Closing, Skips, Meaning,
         Put, SpellingText, SpellingMeaning, ProperSpelling, MembersMeaning, Proper, MemberText, Ender, IsSpace;
    var close, m := Closing(trailing, '}'), members[0];
    MembersUnfold(done, members, trailing);
    ClosingStarts(trailing, '}');
    MembersRestStarts(members, close);
    var e, z := MemberReads(done, m, MembersRest(members, close), t, p, q);
    var more := Put(done, SpellingMeaning(m.key), Meaning(m.item.doc));
    if |members| == 1 {
      ObjectEnds(more, trailing, t, e, z);
    } else {
      var q1 := NextMember(members, close, t, e, z);
      MembersDocRead(more, members[1..], trailing, t, z + 1, q1);
    }
  }

  /** The comma and the gap before the next member. */
  lemma NextMember(members: seq<Member>, close: string, t: string, e: nat, c: nat) returns (q: nat)
    requires |members| > 1 && ProperMember(members[1])
    requires Skips(t, e, c) && At(t, c, MembersRest(members, close))
    ensures Match(",", Ready(t, e)) == Matched(true, Ready(t, c + 1))
    ensures Skips(t, c + 1, q) && At(t, q, MembersText(members[1..], close))
    ensures q + |MembersText(members[1..], close)| == c + |MembersRest(members, close)|
  {
    hide Match, At, Gap, ProperMember, Write, MembersText, Skips, MemberText, IsSpace;
    var rest := MembersText(members[1..], close);
    assert MembersRest(members, close) == [','] + (members[1].before + rest);
    AtHead(t, c, ',', members[1].before + rest);
    GapHit(',', t, e, c);
    MemberProper(members[1]);
    assert members[1..][0] == members[1];
    MembersTextStarts(members[1..], close);
    QuoteVisible(rest[0]);
    GapAt(t, c + 1, members[1].before, rest);
    q := c + 1 + |members[1].before|;
  }

  lemma QuoteVisible(c: char)
    requires c == '"' || c == '\''
    ensures !IsSpace(c) && c != '/'
  {}

  lemma MemberProper(m: Member)
    requires ProperMember(m)
    ensures Gap(m.before)
  {}

  lemma ValueStarts(d: Doc, rest: string)
    requires Proper(d)
    ensures Write(d) + rest != "" && Start((Write(d) + rest)[0])
  {
    hide Write;
    WriteStarts(d);
  }

  lemma MembersUnfold(done: seq<Pair<Value>>, members: seq<Member>, trailing: Option<string>)
    requires members != [] && forall i :: 0 <= i < |members| ==> ProperMember(members[i])
    ensures var m, close := members[0], Closing(trailing, '}');
            && Proper(m.item.doc) && ProperItem(m.item) && ProperSpelling(m.key)
            && MembersText(members, close) == MemberText(m, MembersRest(members, close))
            && MembersRest(members, close) ==
                 (if |members| == 1 then close else [','] + (members[1].before + MembersText(members[1..], close)))
            && var more := Put(done, SpellingMeaning(m.key), Meaning(m.item.doc));
               MembersMeaning(done, members) == (if |members| == 1 then more else MembersMeaning(more, members[1..]))
  {
    hide Write, Meaning, Gap, Put, SpellingText, SpellingMeaning, ProperSpelling;
    assert ProperMember(members[0]);
    assert ProperItem(members[0].item);
  }

  lemma ObjectCloses(members: seq<Pair<Value>>, t: string, e: nat, c: nat)
    requires Skips(t, e, c) && t[c] == '}'
    ensures Match(",", Ready(t, e)) == Matched(false, Ready(t, c))
    ensures CloseObject(Ready(t, c), members) == ParsedObject(true, members, Ready(t, c + 1))
  {
    hide Match, Gap;
    GapMiss(',', t, e, c);
    SkipsHere(t, e, c);
    GapHit('}', t, c, c);
  }

  lemma ObjectClosesLate(members: seq<Pair<Value>>, t: string, e: nat, z: nat)
    requires Skips(t, e, z) && t[z] == '}'
    ensures Members(Ready(t, e), members) == ParsedObject(true, members, Ready(t, z + 1))
  {
    hide Match, Members, Gap;
    NoKey(t, e, z, members);
    SkipsHere(t, e, z);
    GapHit('}', t, z, z);
  }

  lemma ObjectEnds(members: seq<Pair<Value>>, trailing: Option<string>, t: string, e: nat, c: nat)
    requires trailing.Some? ==> Gap(trailing.value)
    requires Skips(t, e, c) && At(t, c, Closing(trailing, '}'))
    ensures var comma := Match(",", Ready(t, e));
            (if comma.ok then Members(comma.rest, members) else CloseObject(comma.rest, members))
              == ParsedObject(true, members, Ready(t, c + |Closing(trailing, '}')|))
  {
    hide Match, Members, CloseObject, At, Gap, Skips;
    if trailing.Some? {
      AtHead(t, c, ',', trailing.value + ['}']);
      GapHit(',', t, e, c);
      GapAt(t, c + 1, trailing.value, ['}']);
      ObjectClosesLate(members, t, c + 1, c + 1 + |trailing.value|);
    } else {
      AtSlice(t, c, ['}']);
      ObjectCloses(members, t, e, c);
    }
  }

  lemma NoKey(t: string, p: nat, q: nat, members: seq<Pair<Value>>)
    requires Skips(t, p, q) && t[q] == '}'
    ensures Members(Ready(t, p), members) == CloseObject(Ready(t, q), members)
  {
    hide Match;
    GapMiss('"', t, p, q);
  }

  // ---------- whole texts ----------

  /** Object::parse on any text of an object, whatever stands before in blanks and comments and
      whatever follows it. */
  lemma ObjectTextReads(before: string, d: Doc, after: string)
    requires Gap(before) && d.ObjectDoc? && Proper(d)
    ensures ParseObjectText(before + (Write(d) + after)) == Some(MembersMeaning([], d.members))
  {
    hide ParseObject, Write, Gap;
    var t := before + (Write(d) + after);
    var q := |before|;
    DocAt(before, d, after);
    ObjectDocReads(d, t, q);
    ObjectFromGap(t, 0, q);
  }

  /** The same for Array::parse. */
  lemma ArrayTextReads(before: string, d: Doc, after: string)
    requires Gap(before) && d.ArrayDoc? && Proper(d)
    ensures ParseArrayText(before + (Write(d) + after)) == Some(ItemsMeaning(d.items))
  {
    hide ParseArray, Write, Gap;
    var t := before + (Write(d) + after);
    var q := |before|;
    DocAt(before, d, after);
    ArrayDocReads(d, t, q);
    ArrayFromGap(t, 0, q);
  }

  lemma DocAt(before: string, d: Doc, after: string)
    requires Gap(before) && Proper(d)
    ensures var t := before + (Write(d) + after);
            At(t, |before|, Write(d)) && Skips(t, 0, |before|)
  {
    hide Write, Gap;
    var t := before + (Write(d) + after);
    ValueStarts(d, after);
    assert t[0..|t|] == t && t[0..|before|] == before;
    AtSplit(t, 0, before, Write(d) + after);
    AtSplit(t, |before|, Write(d), after);
    GapAt(t, 0, before, Write(d) + after);
  }

  lemma ObjectFromGap(t: string, p: nat, q: nat)
    requires Skips(t, p, q)
    ensures ParseObject(Ready(t, p)) == ParseObject(Ready(t, q))
  {
    hide Match, Members;
    GapMatch("{", t, p, q);
  }

  lemma ArrayFromGap(t: string, p: nat, q: nat)
    requires Skips(t, p, q)
    ensures ParseArray(Ready(t, p)) == ParseArray(Ready(t, q))
  {
    hide Match, Items;
    GapMatch("[", t, p, q);
  }

  // ---------- every tree has a text ----------

  predicate Integral(v: Value) {
    match v
    case JNumber(number) => number.Integer?
    case JArray(vs) => forall i :: 0 <= i < |vs| ==> Integral(vs[i])
    case JObject(ms) => forall i :: 0 <= i < |ms| ==> Integral(ms[i].value)
    case _ => true
  }

  function Spelled(s: string): (r: Spelling)
    ensures ProperSpelling(r) && SpellingMeaning(r) == s
  {
    Spelling('"', seq(|s|, i requires 0 <= i < |s| =>
                        if s[i] == '"' || s[i] == '\\' then Escaped(s[i]) else Plain(s[i])))
  }

  function NumeralOf(n: int): Numeral {
    Numeral(n < 0, P.Digits(if n < 0 then -n else n), None, None)
  }

  lemma NumeralOfMeans(n: int)
    ensures ProperNumeral(NumeralOf(n)) && NumeralMeaning(NumeralOf(n)) == Integer(n)
  {
    DigitsRead(if n < 0 then -n else n);
  }

  /** The shortest layout: no gaps. */
  function Compact(v: Value): Doc
    requires Integral(v)
    decreases v, 1
  {
    match v
    case JNull => NullDoc
    case JBool(b) => BoolDoc(b)
    case JNumber(number) => NumberDoc(NumeralOf(number.n))
    case JString(s) => StringDoc(Spelled(s))
    case JArray(vs) => ArrayDoc("", CompactItems(vs), None)
    case JObject(ms) => ObjectDoc("", CompactMembers(ms), None)
  }

  function CompactItems(vs: seq<Value>): seq<Item>
    requires forall i :: 0 <= i < |vs| ==> Integral(vs[i])
    decreases vs, 0
  {
    if vs == [] then [] else [Item("", Compact(vs[0]), "")] + CompactItems(vs[1..])
  }

  function CompactMembers(ms: seq<Pair<Value>>): seq<Member>
    requires forall i :: 0 <= i < |ms| ==> Integral(ms[i].value)
    decreases ms, 0
  {
    if ms == [] then []
    else [Member("", Spelled(ms[0].key), "", Item("", Compact(ms[0].value), ""))] + CompactMembers(ms[1..])
  }

  /** Every tree of std::maps, empty keys included, is what some text stands for. */
  lemma {:induction false} CompactMeans(v: Value)
    requires Integral(v) && R.Ordered(v)
    ensures Proper(Compact(v)) && Meaning(Compact(v)) == v
    decreases v, 1
  {
    hide NumeralOf, ProperNumeral, NumeralMeaning, Spelled, ProperSpelling, SpellingMeaning, MembersMeaning;
    match v {
      case JNumber(number) => NumeralOfMeans(number.n);
      case JArray(vs) => ItemsCompact(vs);
      case JObject(ms) => MembersCompact([], ms);
      case _ =>
    }
  }

  lemma {:induction false} ItemsCompact(vs: seq<Value>)
    requires forall i :: 0 <= i < |vs| ==> Integral(vs[i]) && R.Ordered(vs[i])
    ensures var items := CompactItems(vs);
            (forall i :: 0 <= i < |items| ==> ProperItem(items[i])) && ItemsMeaning(items) == vs
    decreases vs, 0
  {
    hide Compact, R.Ordered, Integral;
    if vs != [] {
      CompactMeans(vs[0]);
      ItemsCompact(vs[1..]);
      var items := CompactItems(vs);
      assert items[1..] == CompactItems(vs[1..]);
      assert ProperItem(items[0]);
      assert vs == [vs[0]] + vs[1..];
    }
  }

  lemma {:induction false} MembersCompact(done: seq<Pair<Value>>, ms: seq<Pair<Value>>)
    requires forall i :: 0 <= i < |ms| ==> Integral(ms[i].value) && R.Ordered(ms[i].value)
    requires Sorted(done + ms)
    ensures var members := CompactMembers(ms);
            (forall i :: 0 <= i < |members| ==> ProperMember(members[i])) && MembersMeaning(done, members) == done + ms
    decreases ms, 0
  {
    hide Compact, R.Ordered, Integral, Put, Less, Spelled;
    if ms == [] {
      assert done + ms == done;
    } else {
      CompactMeans(ms[0].value);
      R.StoreNext(done, ms);
      MembersCompact(done + [ms[0]], ms[1..]);
      var members := CompactMembers(ms);
      assert members[1..] == CompactMembers(ms[1..]);
      assert ProperItem(members[0].item) && ProperMember(members[0]);
    }
  }
}
