/** What the jsonxx parser computes, as functions on stream states. JsonParser holds the loops;
    JsonRoundTrip proves what these functions do on printed text. */
module JsonGrammar {
  import opened Text
  import opened JsonStream

  /** A number as >> reads it: an integer, or a numeral with a fraction or an exponent, kept as text. */
  datatype Number = Integer(n: int) | Fraction(numeral: string)

  datatype Value =
    | JNull
    | JBool(b: bool)
    | JNumber(number: Number)
    | JString(s: string)
    | JArray(values: seq<Value>)
    | JObject(members: seq<Pair<Value>>)

  datatype Matched = Matched(ok: bool, rest: Stream)
  datatype Scanned = Scanned(ok: bool, value: string, rest: Stream)
  datatype Parsed = Parsed(value: Option<Value>, rest: Stream)
  datatype ParsedArray = ParsedArray(ok: bool, values: seq<Value>, rest: Stream)
  datatype ParsedObject = ParsedObject(ok: bool, members: seq<Pair<Value>>, rest: Stream)

  // ---------- comments and patterns ----------

  /** The loop that drops the rest of a line. It would not end on a stream that failed before
      its end, which never happens: both slashes have just been read. */
  function SkipLine(s: Stream): (r: Stream)
    requires s.fail ==> s.eof
    ensures r.text == s.text && s.pos <= r.pos
    ensures r.fail ==> r.eof
    decreases |s.text| - s.pos, !s.eof
  {
    if s.eof then s
    else
      var (c, s1) := Peek(s);
      if c == Some('\r') then s1
      else
        var (d, s2) := Peek(s1);
        if d == Some('\n') then s2
        else SkipLine(Get('\0', s2).1)
  }

  function ParseComment(s: Stream): (r: Matched)
    ensures r.ok ==> s.Good() && r.rest.text == s.text && s.pos + 2 <= r.rest.pos
    ensures !r.ok && s.Good() && s.pos < |s.text| ==> r.rest == s
    ensures !r.ok && !s.Good() && s.fail ==> r.rest == s
    ensures After(s, r.rest)
  {
    if s.eof then Matched(false, s)
    else
      var (c, s1) := Peek(s);
      if c != Some('/') then Matched(false, s1)
      else
        var (c0, s2) := Get('\0', s1);
        if s2.eof then Matched(false, Clear(Unget(s2)))
        else
          var (c1, s3) := Get('\0', s2);
          if c0 == '/' && c1 == '/' then
            var s4 := SkipLine(s3);
            Matched(true, if s4.eof then s4 else SkipWs(s4))
          else Matched(false, Clear(Unget(Clear(Unget(s3)))))
  }

  /** Put back matched characters, last one first. */
  function PutbackAll(p: string, s: Stream): (r: Stream)
    ensures r.text == s.text && (s.fail ==> r.fail) && s.pos <= r.pos + |p|
  {
    if p == "" then s else PutbackAll(p[..|p| - 1], Putback(p[|p| - 1], s))
  }

  function Match(p: string, s: Stream): (r: Matched)
    requires p != ""
    ensures After(s, r.rest)
    ensures r.ok ==> Left(r.rest) < Left(s)
  {
    MatchFrom(p, 0, '\0', SkipWs(s))
  }

  /** The loop of match: cur characters of the pattern are matched, ch is the last one read. */
  function MatchFrom(p: string, cur: nat, ch: char, s: Stream): (r: Matched)
    requires cur <= |p|
    requires s.fail || cur <= s.pos
    ensures r.rest.text == s.text && (s.fail ==> r.rest.fail)
    ensures r.rest.fail || s.pos <= r.rest.pos + cur
    ensures r.ok && cur < |p| ==> !s.fail && (r.rest.fail || s.pos < r.rest.pos)
    decreases Left(s)
  {
    if s.fail || s.eof || cur == |p| then Matched(cur == |p|, s)
    else
      var (c, s1) := Get(ch, s);
      if c == p[cur] then MatchFrom(p, cur + 1, c, s1)
      else
        var comment := ParseComment(Putback(c, s1));
        if comment.ok then MatchFrom(p, cur, c, comment.rest)
        else Matched(false, PutbackAll(p[..cur], comment.rest))
  }

  // ---------- strings ----------

  predicate IsHex(c: char) {
    '0' <= c <= '9' || 'a' <= c <= 'f' || 'A' <= c <= 'F'
  }

  function HexDigit(c: char): nat
    requires IsHex(c)
  {
    if c <= '9' then c as int - '0' as int
    else if c <= 'F' then c as int - 'A' as int + 10
    else c as int - 'a' as int + 10
  }

  function HexDigits(t: string, acc: nat): (r: nat) {
    if t == "" || !IsHex(t[0]) then acc else HexDigits(t[1..], acc * 16 + HexDigit(t[0]))
  }

  function DropSpaces(t: string): string {
    if t != "" && IsSpace(t[0]) then DropSpaces(t[1..]) else t
  }

  /** ss >> std::hex >> i on the collected characters: blanks, a sign, 0x, then hex digits. */
  function HexInt(t: string): Option<int> {
    var t1 := DropSpaces(t);
    var signed := t1 != "" && (t1[0] == '-' || t1[0] == '+');
    var t2 := if signed then t1[1..] else t1;
    var t3 := if |t2| >= 2 && t2[0] == '0' && (t2[1] == 'x' || t2[1] == 'X') then t2[2..] else t2;
    if t3 == "" || !IsHex(t3[0]) then None
    else if signed && t1[0] == '-' then Some(-(HexDigits(t3, 0) as int))
    else Some(HexDigits(t3, 0))
  }

  /** The up to n characters read after \u, with the last character read. */
  function ReadCode(n: nat, ch: char, s: Stream): (r: (string, char, Stream))
    ensures After(s, r.2)
    decreases n
  {
    if n == 0 || !s.Good() then ("", ch, s)
    else
      var (c, s1) := Get(ch, s);
      var (code, last, s2) := ReadCode(n - 1, c, s1);
      ([c] + code, last, s2)
  }

  /** push_back of an int into a std::string keeps its low byte. */
  function LowByte(i: int): char {
    (i % 256) as char
  }

  /** The character after a backslash: what is appended to the value, and where the stream is. */
  function Unescape(ch: char, delimiter: char, s: Stream): (r: (string, char, Stream))
    ensures After(s, r.2)
  {
    var (c, s1) := Get(ch, s);
    if c == '\\' || c == '/' then ([c], c, s1)
    else if c == 'b' then ([8 as char], c, s1)
    else if c == 'f' then ([12 as char], c, s1)
    else if c == 'n' then ("\n", c, s1)
    else if c == 'r' then ("\r", c, s1)
    else if c == 't' then ("\t", c, s1)
    else if c == 'u' then
      var (code, last, s2) := ReadCode(4, c, s1);
      if s2.Good() && HexInt(code).Some? then ([LowByte(HexInt(code).value)], last, s2)
      else ("", last, s2)
    else if c == delimiter then ([c], c, s1)
    else (['\\', c], c, s1)
  }

  /** The loop of parse_string after the opening delimiter. */
  function StringBody(s: Stream, ch: char, delimiter: char, value: string): (r: Scanned)
    ensures After(s, r.rest)
    decreases Left(s)
  {
    if !s.Good() then Scanned(!s.fail && ch == delimiter, value, s)
    else
      var (c, s1) := Get(ch, s);
      if c == delimiter then Scanned(!s1.fail, value, s1)
      else if c == '\\' then
        var (piece, last, s2) := Unescape(c, delimiter, s1);
        StringBody(s2, last, delimiter, value + piece)
      else StringBody(s1, c, delimiter, value + [c])
  }

  function ParseString(s: Stream): (r: Scanned)
    ensures After(s, r.rest)
    ensures r.ok ==> !s.fail && Left(r.rest) < Left(s)
  {
    var quote := Match("\"", s);
    if quote.ok then StringBody(quote.rest, '\0', '"', "")
    else
      var (c, s1) := Peek(quote.rest);
      if c != Some('\'') then Scanned(false, "", s1)
      else
        var (c1, s2) := Get('\0', s1);
        StringBody(s2, c1, '\'', "")
  }

  // ---------- numbers ----------

  predicate IsDigit(c: char) {
    '0' <= c <= '9'
  }

  function SkipSign(t: string, p: nat): (r: nat)
    requires p <= |t|
    ensures p <= r <= |t|
  {
    if p < |t| && (t[p] == '+' || t[p] == '-') then p + 1 else p
  }

  /** Where the characters >> collects for a floating-point number end. */
  function NumeralEnd(t: string, p: nat, mantissa: bool, point: bool, exponent: bool): (r: nat)
    requires p <= |t|
    ensures p <= r <= |t|
    decreases |t| - p
  {
    if p == |t| then p
    else if IsDigit(t[p]) then NumeralEnd(t, p + 1, true, point, exponent)
    else if t[p] == '.' && !point && !exponent then NumeralEnd(t, p + 1, mantissa, true, exponent)
    else if (t[p] == 'e' || t[p] == 'E') && !exponent && mantissa then
      NumeralEnd(t, SkipSign(t, p + 1), mantissa, point, true)
    else p
  }

  function Digit(c: char): nat
    requires IsDigit(c)
  {
    c as int - '0' as int
  }

  function DigitsValue(t: string): (r: nat)
    requires forall c :: c in t ==> IsDigit(c)
  {
    if t == "" then 0
    else
      assert t[|t| - 1] in t;
      DigitsValue(t[..|t| - 1]) * 10 + Digit(t[|t| - 1])
  }

  /** strtold on the collected characters, all of which it must use. */
  function Convert(numeral: string): (r: Option<Number>) {
    var body := numeral[SkipSign(numeral, 0)..];
    if body == "" then None
    else if forall c :: c in body ==> IsDigit(c) then
      Some(Integer(if numeral[0] == '-' then -(DigitsValue(body) as int) else DigitsValue(body)))
    else if (exists c :: c in body && IsDigit(c)) &&
            ('e' in body || 'E' in body ==> IsDigit(body[|body| - 1])) then
      Some(Fraction(numeral))
    else None
  }

  /** input >> value for a long double. */
  function ExtractNumber(s: Stream): (r: (Option<Number>, Stream))
    ensures After(s, r.1)
    ensures r.0.Some? <==> !r.1.fail
  {
    var s1 := SkipWs(s);
    if !s1.Good() then (None, s1.(fail := true))
    else
      var end := NumeralEnd(s1.text, SkipSign(s1.text, s1.pos), false, false, false);
      var number := Convert(s1.text[s1.pos..end]);
      (number, s1.(pos := end, eof := end == |s1.text|, fail := number.None?))
  }

  function ParseNumber(s: Stream): (r: (Option<Number>, Stream))
    ensures After(s, r.1)
  {
    var s1 := SkipWs(s);
    var (rollback, s2) := Tellg(s1);
    var (number, s3) := ExtractNumber(s2);
    if s3.fail then (None, Seekg(rollback, Clear(s3))) else (number, s3)
  }

  // ---------- the other values ----------

  function ParseBool(s: Stream): (r: (Option<bool>, Stream))
    ensures After(s, r.1)
  {
    var yes := Match("true", s);
    if yes.ok then (Some(true), yes.rest)
    else
      var no := Match("false", yes.rest);
      if no.ok then (Some(false), no.rest) else (None, no.rest)
  }

  function ParseNull(s: Stream): (r: Matched)
    ensures After(s, r.rest)
  {
    var word := Match("null", s);
    if word.ok then word
    else
      var (c, s1) := Peek(word.rest);
      Matched(c == Some(','), s1)
  }

  function ParseArray(s: Stream): (r: ParsedArray)
    ensures After(s, r.rest)
    decreases Left(s), 0
  {
    var open := Match("[", s);
    if !open.ok then ParsedArray(false, [], open.rest)
    else
      var close := Match("]", open.rest);
      if close.ok then ParsedArray(true, [], close.rest) else Items(close.rest, [])
  }

  /** The do-while loop of Array::parse and the closing bracket. */
  function Items(s: Stream, values: seq<Value>): (r: ParsedArray)
    ensures After(s, r.rest)
    decreases Left(s), 2
  {
    var item := ParseValue(s);
    if item.value.None? then CloseArray(item.rest, values)
    else
      var comma := Match(",", item.rest);
      if comma.ok then Items(comma.rest, values + [item.value.value])
      else CloseArray(comma.rest, values + [item.value.value])
  }

  function CloseArray(s: Stream, values: seq<Value>): (r: ParsedArray)
    ensures After(s, r.rest)
  {
    var close := Match("]", s);
    ParsedArray(close.ok, values, close.rest)
  }

  function ParseObject(s: Stream): (r: ParsedObject)
    ensures After(s, r.rest)
    decreases Left(s), 0
  {
    var open := Match("{", s);
    if !open.ok then ParsedObject(false, [], open.rest)
    else
      var close := Match("}", open.rest);
      if close.ok then ParsedObject(true, [], close.rest) else Members(close.rest, [])
  }

  /** The do-while loop of Object::parse and the closing brace. */
  function Members(s: Stream, members: seq<Pair<Value>>): (r: ParsedObject)
    ensures After(s, r.rest)
    decreases Left(s), 2
  {
    var key := ParseString(s);
    if !key.ok then
      var (c, s1) := Peek(key.rest);
      if c == Some('}') then CloseObject(s1, members) else ParsedObject(false, members, s1)
    else
      var colon := Match(":", key.rest);
      if !colon.ok then ParsedObject(false, members, colon.rest)
      else
        var item := ParseValue(colon.rest);
        if item.value.None? then CloseObject(item.rest, members)
        else
          var comma := Match(",", item.rest);
          var more := Put(members, key.value, item.value.value);
          if comma.ok then Members(comma.rest, more) else CloseObject(comma.rest, more)
  }

  function CloseObject(s: Stream, members: seq<Pair<Value>>): (r: ParsedObject)
    ensures After(s, r.rest)
  {
    var close := Match("}", s);
    ParsedObject(close.ok, members, close.rest)
  }

  function ParseValue(s: Stream): (r: Parsed)
    ensures After(s, r.rest)
    decreases Left(s), 1
  {
    var str := ParseString(s);
    if str.ok then Parsed(Some(JString(str.value)), str.rest)
    else
      var (number, s1) := ParseNumber(str.rest);
      if number.Some? then Parsed(Some(JNumber(number.value)), s1)
      else
        var (b, s2) := ParseBool(s1);
        if b.Some? then Parsed(Some(JBool(b.value)), s2)
        else
          var nothing := ParseNull(s2);
          if nothing.ok then Parsed(Some(JNull), nothing.rest)
          else
            var (c, s3) := Peek(nothing.rest);
            if c == Some('[') then
              var arr := ParseArray(s3);
              if arr.ok then Parsed(Some(JArray(arr.values)), arr.rest) else ObjectValue(arr.rest)
            else ObjectValue(s3)
  }

  function ObjectValue(s: Stream): (r: Parsed)
    ensures After(s, r.rest)
    decreases Left(s), 1, 0
  {
    var obj := ParseObject(s);
    Parsed(if obj.ok then Some(JObject(obj.members)) else None, obj.rest)
  }

  // ---------- whole texts ----------

  /** Object::parse(const std::string&) */
  function ParseObjectText(text: string): (r: Option<seq<Pair<Value>>>) {
    var obj := ParseObject(Ready(text, 0));
    if obj.ok then Some(obj.members) else None
  }

  /** Array::parse(const std::string&) */
  function ParseArrayText(text: string): (r: Option<seq<Value>>) {
    var arr := ParseArray(Ready(text, 0));
    if arr.ok then Some(arr.values) else None
  }
}
