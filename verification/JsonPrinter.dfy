/** The JSON printer of jsonxx: escape_string, json::tag, remove_last_comma, Object::json and
    Array::json. */
module JsonPrinter {
  import opened Text
  import opened JsonGrammar

  /** What the printer writes exactly: with the precision it sets, integers of up to 19 digits. */
  const NUMBER_LIMIT := 10_000_000_000_000_000_000

  predicate Exact(number: Number) {
    number.Integer? && -NUMBER_LIMIT < number.n < NUMBER_LIMIT
  }

  predicate Printable(v: Value) {
    match v
    case JNumber(number) => Exact(number)
    case JArray(vs) => forall i :: 0 <= i < |vs| ==> Printable(vs[i])
    case JObject(ms) => forall i :: 0 <= i < |ms| ==> Printable(ms[i].value)
    case _ => true
  }

  function LowHex(d: nat): (c: char)
    requires d < 16
  {
    if d < 10 then ('0' as int + d) as char else ('a' as int + d - 10) as char
  }

  /** The escape table. */
  function EscapeChar(c: char): string {
    if c == '"' then "\\\""
    else if c == '\\' then "\\\\"
    else if c == '/' then "\\/"
    else if c == 8 as char then "\\b"
    else if c == 12 as char then "\\f"
    else if c == '\n' then "\\n"
    else if c == '\r' then "\\r"
    else if c == '\t' then "\\t"
    else if c < ' ' then "\\u00" + [LowHex(c as int / 16), LowHex(c as int % 16)]
    else [c]
  }

  function Escape(s: string): string {
    if s == "" then "" else EscapeChar(s[0]) + Escape(s[1..])
  }

  function Quoted(s: string): string {
    "\"" + Escape(s) + "\""
  }

  /** Escaped text has no control characters, and a backslash before every quote and slash. */
  lemma {:induction false} EscapeClean(s: string, i: nat)
    requires i < |Escape(s)|
    ensures Escape(s)[i] >= ' '
    ensures Escape(s)[i] == '"' || Escape(s)[i] == '/' ==> i > 0 && Escape(s)[i - 1] == '\\'
    decreases |s|
  {
    var w := EscapeChar(s[0]);
    if i >= |w| {
      EscapeClean(s[1..], i - |w|);
    }
  }

  function Digits(n: nat): string {
    if n < 10 then [LowHex(n)] else Digits(n / 10) + [LowHex(n % 10)]
  }

  function IntText(n: int): string {
    if n < 0 then "-" + Digits(-n) else Digits(n)
  }

  function Tabs(depth: nat): string {
    if depth == 0 then "" else "\t" + Tabs(depth - 1)
  }

  function RemoveLastComma(s: string): (r: string) {
    if |s| > 2 && s[|s| - 2] == ',' then s[|s| - 2 := ' '] else s
  }

  function Head(depth: nat, name: string): string {
    if name != "" then Tabs(depth) + Quoted(name) + ": " else Tabs(depth)
  }

  /** json::tag */
  function Tag(depth: nat, name: string, v: Value): string
    requires Printable(v)
    decreases v, 1
  {
    var head := Head(depth, name);
    match v
    case JNull => head + "null" + ",\n"
    case JBool(b) => head + (if b then "true" else "false") + ",\n"
    case JNumber(number) => head + IntText(number.n) + ",\n"
    case JString(s) => head + Quoted(s) + ",\n"
    case JArray(vs) => RemoveLastComma(head + "[\n" + TagValues(depth + 1, vs)) + Tabs(depth) + "]" + ",\n"
    case JObject(ms) => RemoveLastComma(head + "{\n" + TagMembers(depth + 1, ms)) + Tabs(depth) + "}" + ",\n"
  }

  function TagValues(depth: nat, vs: seq<Value>): string
    requires forall i :: 0 <= i < |vs| ==> Printable(vs[i])
    decreases vs, 0
  {
    if vs == [] then ""
    else Tag(depth, "", vs[0]) + TagValues(depth, vs[1..])
  }

  function TagMembers(depth: nat, ms: seq<Pair<Value>>): string
    requires forall i :: 0 <= i < |ms| ==> Printable(ms[i].value)
    decreases ms, 0
  {
    if ms == [] then ""
    else Tag(depth, ms[0].key, ms[0].value) + TagMembers(depth, ms[1..])
  }

  /** Object::json */
  function ObjectJson(ms: seq<Pair<Value>>): string
    requires Printable(JObject(ms))
  {
    RemoveLastComma(Tag(0, "", JObject(ms)))
  }

  /** Array::json */
  function ArrayJson(vs: seq<Value>): string
    requires Printable(JArray(vs))
  {
    RemoveLastComma(Tag(0, "", JArray(vs)))
  }

  method EscapeString(input: string, quote: bool) returns (output: string)
    ensures output == if quote then Quoted(input) else Escape(input)
  {
    output := if quote then "\"" else "";
    ghost var open := output;
    for i := 0 to |input|
      invariant output + Escape(input[i..]) == open + Escape(input)
    {
      assert input[i..][1..] == input[i + 1..];
      assert output + (EscapeChar(input[i]) + Escape(input[i + 1..]))
          == (output + EscapeChar(input[i])) + Escape(input[i + 1..]);
      output := output + EscapeChar(input[i]);
    }
    assert input[|input|..] == "";
    assert output + "" == output;
    if quote {
      output := output + "\"";
    }
  }

  method PrintTag(depth: nat, name: string, v: Value) returns (r: string)
    requires Printable(v)
    ensures r == Tag(depth, name, v)
    decreases v, 1
  {
    var tab := Tabs(depth);
    var ss := tab;
    if name != "" {
      var escaped := EscapeString(name, true);
      ss := tab + escaped + ": ";
    }
    match v {
      case JNull => r := ss + "null" + ",\n";
      case JBool(b) => r := ss + (if b then "true" else "false") + ",\n";
      case JNumber(number) => r := ss + IntText(number.n) + ",\n";
      case JString(s) =>
        var escaped := EscapeString(s, true);
        r := ss + escaped + ",\n";
      case JArray(vs) =>
        var items := PrintValues(depth + 1, vs);
        r := RemoveLastComma(ss + "[\n" + items) + tab + "]" + ",\n";
      case JObject(ms) =>
        var items := PrintMembers(depth + 1, ms);
        r := RemoveLastComma(ss + "{\n" + items) + tab + "}" + ",\n";
    }
  }

  /** The loop of tag over an array. */
  method PrintValues(depth: nat, vs: seq<Value>) returns (ss: string)
    requires forall i :: 0 <= i < |vs| ==> Printable(vs[i])
    ensures ss == TagValues(depth, vs)
    decreases vs, 0
  {
    hide Tag;
    ss := "";
    for i := 0 to |vs|
      invariant ss + TagValues(depth, vs[i..]) == TagValues(depth, vs)
    {
      var item := PrintTag(depth, "", vs[i]);
      assert vs[i..][1..] == vs[i + 1..];
      assert ss + (item + TagValues(depth, vs[i + 1..])) == (ss + item) + TagValues(depth, vs[i + 1..]);
      ss := ss + item;
    }
    assert vs[|vs|..] == [] && ss + "" == ss;
  }

  /** The loop of tag over an object. */
  method PrintMembers(depth: nat, ms: seq<Pair<Value>>) returns (ss: string)
    requires forall i :: 0 <= i < |ms| ==> Printable(ms[i].value)
    ensures ss == TagMembers(depth, ms)
    decreases ms, 0
  {
    hide Tag;
    ss := "";
    for i := 0 to |ms|
      invariant ss + TagMembers(depth, ms[i..]) == TagMembers(depth, ms)
    {
      var item := PrintTag(depth, ms[i].key, ms[i].value);
      assert ms[i..][1..] == ms[i + 1..];
      assert ss + (item + TagMembers(depth, ms[i + 1..])) == (ss + item) + TagMembers(depth, ms[i + 1..]);
      ss := ss + item;
    }
    assert ms[|ms|..] == [] && ss + "" == ss;
  }
}
