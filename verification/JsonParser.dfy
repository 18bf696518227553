/** The parser loops of jsonxx on the mutable stream, each proved to compute its JsonGrammar
    function. Every loop and every recursion is shown to end on every input. */
module JsonParser {
  import opened Text
  import S = JsonStream
  import opened JsonInput
  import G = JsonGrammar

  method SkipLine(input: InputStream)
    requires input.Valid() && (input.fail ==> input.eof)
    modifies input
    ensures input.Valid() && input.State() == G.SkipLine(old(input.State()))
  {
    while !input.eof
      invariant input.Valid() && (input.fail ==> input.eof)
      invariant G.SkipLine(input.State()) == G.SkipLine(old(input.State()))
      decreases |input.text| - input.pos, !input.eof
    {
      var c := input.Peek();
      if c == Some('\r') {
        return;
      }
      c := input.Peek();
      if c == Some('\n') {
        return;
      }
      var _ := input.Get('\0');
    }
  }

  method ParseComment(input: InputStream) returns (ok: bool)
    requires input.Valid()
    modifies input
    ensures input.Valid() && G.Matched(ok, input.State()) == G.ParseComment(old(input.State()))
  {
    ok := false;
    if !input.eof {
      var c := input.Peek();
      if c == Some('/') {
        var c0 := input.Get('\0');
        if !input.eof {
          var c1 := input.Get('\0');
          if c0 == '/' && c1 == '/' {
            SkipLine(input);
            if !input.eof {
              input.SkipWs();
            }
            return true;
          }
          input.Unget();
          input.Clear();
        }
        input.Unget();
        input.Clear();
      }
    }
  }

  method Match(pattern: string, input: InputStream) returns (ok: bool)
    requires pattern != "" && input.Valid()
    modifies input
    ensures input.Valid() && G.Matched(ok, input.State()) == G.Match(pattern, old(input.State()))
  {
    input.SkipWs();
    var cur := 0;
    var ch := '\0';
    while !input.fail && !input.eof && cur < |pattern|
      invariant input.Valid() && cur <= |pattern| && (input.fail || cur <= input.pos)
      invariant G.MatchFrom(pattern, cur, ch, input.State()) == G.Match(pattern, old(input.State()))
      decreases S.Left(input.State())
    {
      ch := input.Get(ch);
      if ch != pattern[cur] {
        input.Putback(ch);
        var comment := ParseComment(input);
        if !comment {
          ghost var all := G.PutbackAll(pattern[..cur], input.State());
          while cur > 0
            invariant input.Valid() && cur <= |pattern|
            invariant G.PutbackAll(pattern[..cur], input.State()) == all
          {
            cur := cur - 1;
            assert pattern[..cur + 1][..cur] == pattern[..cur];
            input.Putback(pattern[cur]);
          }
          return false;
        }
      } else {
        cur := cur + 1;
      }
    }
    ok := cur == |pattern|;
  }

  /** The for loop that collects the four characters of \u. */
  method ReadCode(ch: char, input: InputStream) returns (code: string, last: char)
    requires input.Valid()
    modifies input
    ensures input.Valid() && (code, last, input.State()) == G.ReadCode(4, ch, old(input.State()))
  {
    code, last := "", ch;
    var i := 0;
    assert "" + G.ReadCode(4, ch, input.State()).0 == G.ReadCode(4, ch, input.State()).0;
    while input.Good() && i < 4
      invariant input.Valid() && i <= 4
      invariant var r := G.ReadCode(4 - i, last, input.State());
                G.ReadCode(4, ch, old(input.State())) == (code + r.0, r.1, r.2)
      decreases 4 - i
    {
      last := input.Get(last);
      ghost var r := G.ReadCode(3 - i, last, input.State());
      assert code + ([last] + r.0) == (code + [last]) + r.0;
      code := code + [last];
      i := i + 1;
    }
    assert code + "" == code;
  }

  method Unescape(ch: char, delimiter: char, input: InputStream) returns (piece: string, last: char)
    requires input.Valid()
    modifies input
    ensures input.Valid() && (piece, last, input.State()) == G.Unescape(ch, delimiter, old(input.State()))
  {
    last := input.Get(ch);
    match last {
      case '\\' => piece := [last];
      case '/' => piece := [last];
      case 'b' => piece := [8 as char];
      case 'f' => piece := [12 as char];
      case 'n' => piece := "\n";
      case 'r' => piece := "\r";
      case 't' => piece := "\t";
      case 'u' =>
        var code;
        code, last := ReadCode(last, input);
        piece := "";
        if input.Good() {
          var i := G.HexInt(code);
          if i.Some? {
            piece := [G.LowByte(i.value)];
          }
        }
      case _ =>
        piece := if last != delimiter then ['\\', last] else [last];
    }
  }

  method ParseString(input: InputStream) returns (ok: bool, value: string)
    requires input.Valid()
    modifies input
    ensures input.Valid() && G.Scanned(ok, value, input.State()) == G.ParseString(old(input.State()))
  {
    var ch, delimiter := '\0', '"';
    value := "";
    var quote := Match("\"", input);
    if !quote {
      delimiter := '\'';
      var c := input.Peek();
      if c != Some(delimiter) {
        return false, value;
      }
      ch := input.Get(ch);
    }
    while input.Good()
      invariant input.Valid()
      invariant G.StringBody(input.State(), ch, delimiter, value) == G.ParseString(old(input.State()))
      decreases S.Left(input.State())
    {
      ch := input.Get(ch);
      if ch == delimiter {
        break;
      }
      if ch == '\\' {
        var piece;
        piece, ch := Unescape(ch, delimiter, input);
        value := value + piece;
      } else {
        value := value + [ch];
      }
    }
    ok := !input.fail && ch == delimiter;
  }

  /** input >> value, from the iostream library. */
  method ExtractNumber(input: InputStream) returns (number: Option<G.Number>)
    requires input.Valid()
    modifies input
    ensures input.Valid() && (number, input.State()) == G.ExtractNumber(old(input.State()))
  {
    input.SkipWs();
    number := None;
    if input.Good() {
      var end := G.NumeralEnd(input.text, G.SkipSign(input.text, input.pos), false, false, false);
      number := G.Convert(input.text[input.pos..end]);
      input.pos, input.eof := end, end == |input.text|;
    }
    if number.None? {
      input.fail := true;
    }
  }

  method ParseNumber(input: InputStream) returns (number: Option<G.Number>)
    requires input.Valid()
    modifies input
    ensures input.Valid() && (number, input.State()) == G.ParseNumber(old(input.State()))
  {
    input.SkipWs();
    var rollback := input.Tellg();
    number := ExtractNumber(input);
    if input.fail {
      input.Clear();
      input.Seekg(rollback);
    }
  }

  method ParseBool(input: InputStream) returns (b: Option<bool>)
    requires input.Valid()
    modifies input
    ensures input.Valid() && (b, input.State()) == G.ParseBool(old(input.State()))
  {
    var yes := Match("true", input);
    if yes {
      return Some(true);
    }
    var no := Match("false", input);
    b := if no then Some(false) else None;
  }

  method ParseNull(input: InputStream) returns (ok: bool)
    requires input.Valid()
    modifies input
    ensures input.Valid() && G.Matched(ok, input.State()) == G.ParseNull(old(input.State()))
  {
    ok := Match("null", input);
    if !ok {
      var c := input.Peek();
      ok := c == Some(',');
    }
  }

  method ParseArray(input: InputStream) returns (ok: bool, values: seq<G.Value>)
    requires input.Valid()
    modifies input
    ensures input.Valid() && G.ParsedArray(ok, values, input.State()) == G.ParseArray(old(input.State()))
    decreases S.Left(input.State()), 0
  {
    hide G.Match, G.ParseValue;
    values := [];
    ok := Match("[", input);
    if !ok {
      return;
    }
    ok := Match("]", input);
    if ok {
      return;
    }
    var more := true;
    ghost var items := input.State();
    while more
      invariant input.Valid()
      invariant S.Left(items) < old(S.Left(input.State()))
      invariant more ==> S.Left(input.State()) <= S.Left(items)
      invariant if more then G.Items(input.State(), values) == G.Items(items, [])
                else G.CloseArray(input.State(), values) == G.Items(items, [])
      decreases S.Left(input.State()), more
    {
      var item := ParseValue(input);
      if item.None? {
        more := false;
      } else {
        values := values + [item.value];
        more := Match(",", input);
      }
    }
    ok := Match("]", input);
  }

  method ParseObject(input: InputStream) returns (ok: bool, members: seq<Pair<G.Value>>)
    requires input.Valid()
    modifies input
    ensures input.Valid() && G.ParsedObject(ok, members, input.State()) == G.ParseObject(old(input.State()))
    decreases S.Left(input.State()), 0
  {
    hide G.ParseString, G.Match, G.ParseValue, Put;
    members := [];
    ok := Match("{", input);
    if !ok {
      return;
    }
    ok := Match("}", input);
    if ok {
      return;
    }
    var more := true;
    ghost var start := input.State();
    while more
      invariant input.Valid()
      invariant S.Left(start) < old(S.Left(input.State()))
      invariant more ==> S.Left(input.State()) <= S.Left(start)
      invariant if more then G.Members(input.State(), members) == G.Members(start, [])
                else G.CloseObject(input.State(), members) == G.Members(start, [])
      decreases S.Left(input.State()), more
    {
      var named, key := ParseString(input);
      if !named {
        var c := input.Peek();
        if c != Some('}') {
          return false, members;
        }
        more := false;
      } else {
        var colon := Match(":", input);
        if !colon {
          return false, members;
        }
        var item := ParseValue(input);
        if item.None? {
          more := false;
        } else {
          members := Put(members, key, item.value);
          more := Match(",", input);
        }
      }
    }
    ok := Match("}", input);
  }

  method ParseValue(input: InputStream) returns (value: Option<G.Value>)
    requires input.Valid()
    modifies input
    ensures input.Valid() && G.Parsed(value, input.State()) == G.ParseValue(old(input.State()))
    decreases S.Left(input.State()), 1
  {
    hide G.Match, G.ParseString, G.ParseNumber, G.ParseBool, G.ParseNull, G.ParseArray, G.ParseObject;
    var isString, s := ParseString(input);
    if isString {
      return Some(G.JString(s));
    }
    var number := ParseNumber(input);
    if number.Some? {
      return Some(G.JNumber(number.value));
    }
    var b := ParseBool(input);
    if b.Some? {
      return Some(G.JBool(b.value));
    }
    var nothing := ParseNull(input);
    if nothing {
      return Some(G.JNull);
    }
    var c := input.Peek();
    if c == Some('[') {
      var isArray, values := ParseArray(input);
      if isArray {
        return Some(G.JArray(values));
      }
    }
    var isObject, members := ParseObject(input);
    value := if isObject then Some(G.JObject(members)) else None;
  }
}
