/** Printing then parsing gives the tree back. */
module JsonRoundTrip {
  import opened Text
  import opened JsonStream
  import opened JsonGrammar
  import opened JsonPrinter
  import opened JsonLexing

  // ---------- the printed text, with separators instead of patched commas ----------

  /** The text of a value, without the blanks before it and the separator after it. */
  function Body(depth: nat, v: Value): string
    requires Printable(v)
    decreases v, 1
  {
    match v
    case JNull => "null"
    case JBool(b) => if b then "true" else "false"
    case JNumber(number) => IntText(number.n)
    case JString(s) => Quoted(s)
    case JArray(vs) => "[" + ("\n" + ValuesText(depth + 1, vs) + Tabs(depth)) + "]"
    case JObject(ms) => "{" + ("\n" + MembersText(depth + 1, ms) + Tabs(depth)) + "}"
  }

  /** The comma that ends a line, or the blank that replaces the last one. */
  function Separator(last: bool): string {
    if last then " \n" else ",\n"
  }

  function ValuesText(depth: nat, vs: seq<Value>): string
    requires forall i :: 0 <= i < |vs| ==> Printable(vs[i])
    decreases vs, 0
  {
    if vs == [] then ""
    else Tabs(depth) + (Body(depth, vs[0]) + (Separator(|vs| == 1) + ValuesText(depth, vs[1..])))
  }

  function MembersText(depth: nat, ms: seq<Pair<Value>>): string
    requires forall i :: 0 <= i < |ms| ==> Printable(ms[i].value)
    decreases ms, 0
  {
    if ms == [] then ""
    else Head(depth, ms[0].key) +
         (Body(depth, ms[0].value) + (Separator(|ms| == 1) + MembersText(depth, ms[1..])))
  }

  lemma OneLine(h: string, start: string, body: string)
    requires h != ""
    ensures RemoveLastComma(h + ((start + (body + ",\n")) + "")) == h + (start + (body + (Separator(true) + "")))
  {
    var w := h + (start + body);
    assert h + ((start + (body + ",\n")) + "") == w + ",\n";
    assert h + (start + (body + (" \n" + ""))) == w + " \n";
  }

  lemma MoreLines(h: string, start: string, body: string, tags: string, text: string)
    ensures h + ((start + (body + ",\n")) + tags) == (h + (start + (body + ",\n"))) + tags
    ensures h + (start + (body + (Separator(false) + text))) == (h + (start + (body + ",\n"))) + text
  {}

  /** A container between its brackets: c opens it, the lines and the closing tabs follow. */
  lemma Brackets(head: string, open: string, lines: string, tabs: string, close: string)
    ensures ((head + (open + "\n")) + lines) + tabs + close + ",\n"
         == head + ((open + ("\n" + lines + tabs) + close) + ",\n")
  {}

  lemma NoComma(head: string, open: string)
    requires |open| == 1 && open != ","
    ensures RemoveLastComma((head + (open + "\n")) + "") == (head + (open + "\n")) + ""
  {}

  lemma {:induction false} TagShape(depth: nat, name: string, v: Value)
    requires Printable(v)
    ensures Tag(depth, name, v) == Head(depth, name) + (Body(depth, v) + ",\n")
    decreases v, 1
  {
    match v {
      case JArray(vs) => ArrayShape(depth, name, vs);
      case JObject(ms) => ObjectShape(depth, name, ms);
      case _ => hide Head, IntText, Quoted;
    }
  }

  lemma {:induction false} ArrayShape(depth: nat, name: string, vs: seq<Value>)
    requires Printable(JArray(vs))
    ensures Tag(depth, name, JArray(vs)) == Head(depth, name) + (Body(depth, JArray(vs)) + ",\n")
    decreases JArray(vs), 0
  {
    hide RemoveLastComma, Head, Tabs;
    var head := Head(depth, name);
    assert "[" + "\n" == "[\n";
    Brackets(head, "[", ValuesText(depth + 1, vs), Tabs(depth), "]");
    if vs == [] {
      NoComma(head, "[");
    } else {
      ValuesShape(head + "[\n", depth + 1, vs);
    }
  }

  lemma {:induction false} ObjectShape(depth: nat, name: string, ms: seq<Pair<Value>>)
    requires Printable(JObject(ms))
    ensures Tag(depth, name, JObject(ms)) == Head(depth, name) + (Body(depth, JObject(ms)) + ",\n")
    decreases JObject(ms), 0
  {
    hide RemoveLastComma, Head, Tabs;
    var head := Head(depth, name);
    assert "{" + "\n" == "{\n";
    Brackets(head, "{", MembersText(depth + 1, ms), Tabs(depth), "}");
    if ms == [] {
      NoComma(head, "{");
    } else {
      MembersShape(head + "{\n", depth + 1, ms);
    }
  }

  lemma ValuesUnfold(depth: nat, vs: seq<Value>)
    requires vs != [] && forall i :: 0 <= i < |vs| ==> Printable(vs[i])
    ensures TagValues(depth, vs) == Tag(depth, "", vs[0]) + TagValues(depth, vs[1..])
    ensures ValuesText(depth, vs)
         == Head(depth, "") + (Body(depth, vs[0]) + (Separator(|vs| == 1) + ValuesText(depth, vs[1..])))
    ensures |vs| == 1 ==> TagValues(depth, vs[1..]) == "" && ValuesText(depth, vs[1..]) == ""
  {}

  lemma {:induction false} ValuesShape(h: string, depth: nat, vs: seq<Value>)
    requires h != "" && vs != []
    requires forall i :: 0 <= i < |vs| ==> Printable(vs[i])
    ensures RemoveLastComma(h + TagValues(depth, vs)) == h + ValuesText(depth, vs)
    decreases vs, 0
  {
    hide *;
    ValuesUnfold(depth, vs);
    TagShape(depth, "", vs[0]);
    var start, body := Head(depth, ""), Body(depth, vs[0]);
    if |vs| == 1 {
      OneLine(h, start, body);
    } else {
      MoreLines(h, start, body, TagValues(depth, vs[1..]), ValuesText(depth, vs[1..]));
      ValuesShape(h + (start + (body + ",\n")), depth, vs[1..]);
    }
  }

  lemma MembersUnfold(depth: nat, ms: seq<Pair<Value>>)
    requires ms != [] && forall i :: 0 <= i < |ms| ==> Printable(ms[i].value)
    ensures TagMembers(depth, ms) == Tag(depth, ms[0].key, ms[0].value) + TagMembers(depth, ms[1..])
    ensures MembersText(depth, ms)
         == Head(depth, ms[0].key) + (Body(depth, ms[0].value) + (Separator(|ms| == 1) + MembersText(depth, ms[1..])))
    ensures |ms| == 1 ==> TagMembers(depth, ms[1..]) == "" && MembersText(depth, ms[1..]) == ""
  {}

  lemma {:induction false} MembersShape(h: string, depth: nat, ms: seq<Pair<Value>>)
    requires h != "" && ms != []
    requires forall i :: 0 <= i < |ms| ==> Printable(ms[i].value)
    ensures RemoveLastComma(h + TagMembers(depth, ms)) == h + MembersText(depth, ms)
    decreases ms, 0
  {
    hide *;
    MembersUnfold(depth, ms);
    TagShape(depth, ms[0].key, ms[0].value);
    var start, body := Head(depth, ms[0].key), Body(depth, ms[0].value);
    if |ms| == 1 {
      OneLine(h, start, body);
    } else {
      MoreLines(h, start, body, TagMembers(depth, ms[1..]), MembersText(depth, ms[1..]));
      MembersShape(h + (start + (body + ",\n")), depth, ms[1..]);
    }
  }

  /** json() is the indented text with separators, and a blank and a newline after it. */
  lemma JsonText(v: Value)
    requires Printable(v)
    ensures RemoveLastComma(Tag(0, "", v)) == Body(0, v) + " \n"
  {
    TagShape(0, "", v);
    assert Tag(0, "", v) == Body(0, v) + ",\n";
    assert |Body(0, v)| > 0;
  }

  // ---------- reading it back ----------

  /** The keys of every object are in the order of a std::map. */
  predicate Ordered(v: Value) {
    match v
    case JArray(vs) => forall i :: 0 <= i < |vs| ==> Ordered(vs[i])
    case JObject(ms) => Sorted(ms) && forall i :: 0 <= i < |ms| ==> Ordered(ms[i].value)
    case _ => true
  }

  /** No object has an empty key. */
  predicate Named(v: Value) {
    match v
    case JArray(vs) => forall i :: 0 <= i < |vs| ==> Named(vs[i])
    case JObject(ms) => forall i :: 0 <= i < |ms| ==> ms[i].key != "" && Named(ms[i].value)
    case _ => true
  }

  /** The trees the round trip is about. */
  predicate Clean(v: Value) {
    Printable(v) && Ordered(v) && Named(v)
  }

  predicate Blank(w: string) {
    forall i :: 0 <= i < |w| ==> IsSpace(w[i])
  }

  lemma {:induction false} TabsBlank(n: nat)
    ensures Blank(Tabs(n))
  {
    if n > 0 { TabsBlank(n - 1); }
  }

  lemma BlankRun(t: string, p: nat, w: string, rest: string)
    requires At(t, p, w + rest) && Blank(w) && rest != "" && !IsSpace(rest[0])
    ensures Visible(t, p, p + |w|) && At(t, p + |w|, rest)
  {
    AtSplit(t, p, w, rest);
    AtChar(t, p + |w|, rest, 0);
    forall i | p <= i < p + |w| ensures IsSpace(t[i]) {
      AtChar(t, p, w, i - p);
    }
    SkipBlanks(t, p, p + |w|);
  }

  /** What can start a printed value. */
  predicate Starter(c: char) {
    c == '"' || c == '-' || IsDigit(c) || c == 't' || c == 'f' || c == 'n' || c == '[' || c == '{'
  }

  lemma BodyStarts(depth: nat, v: Value)
    requires Printable(v)
    ensures Body(depth, v) != "" && Starter(Body(depth, v)[0])
  {
    if v.JNumber? { IntTextVisible(v.number.n); }
  }

  /** What can end a printed value. */
  predicate Ends(t: string, e: nat) {
    e < |t| && (t[e] == ',' || t[e] == ' ')
  }

  lemma OtherMiss(t: string, p: nat, q: nat)
    requires Visible(t, p, q) && (t[q] == '[' || t[q] == '{' || t[q] == 't' || t[q] == 'f' || t[q] == 'n')
    ensures ParseString(Ready(t, p)) == Scanned(false, "", Ready(t, q))
    ensures ParseNumber(Ready(t, q)) == (None, Ready(t, q))
    ensures Visible(t, q, q)
  {
    hide Match, ParseString, ParseNumber;
    StringMiss(t, p, q);
    NumberMiss(t, q);
  }

  lemma WordReads(depth: nat, v: Value, t: string, p: nat, q: nat)
    requires v.JNull? || v.JBool?
    requires Visible(t, p, q) && At(t, q, Body(depth, v))
    ensures ParseValue(Ready(t, p)) == Parsed(Some(v), Ready(t, q + |Body(depth, v)|))
  {
    hide Match, ParseString, ParseNumber, SkipWs;
    AtChar(t, q, Body(depth, v), 0);
    OtherMiss(t, p, q);
    if v == JBool(true) {
      MatchHit("true", t, q, q);
    } else {
      MatchMiss("true", t, q, q);
      if v == JBool(false) {
        MatchHit("false", t, q, q);
      } else {
        MatchMiss("false", t, q, q);
        MatchHit("null", t, q, q);
      }
    }
  }

  lemma BracketMisses(t: string, q: nat)
    requires Visible(t, q, q) && (t[q] == '[' || t[q] == '{')
    ensures ParseBool(Ready(t, q)) == (None, Ready(t, q))
    ensures ParseNull(Ready(t, q)) == Matched(false, Ready(t, q))
  {
    hide Match, SkipWs;
    MatchMiss("true", t, q, q);
    MatchMiss("false", t, q, q);
    MatchMiss("null", t, q, q);
  }

  lemma OpensArray(t: string, p: nat, q: nat)
    requires Visible(t, p, q) && t[q] == '['
    ensures ParseValue(Ready(t, p)) ==
              var arr := ParseArray(Ready(t, q));
              if arr.ok then Parsed(Some(JArray(arr.values)), arr.rest) else ObjectValue(arr.rest)
  {
    hide Match, ParseString, ParseNumber, ParseBool, ParseNull, ParseArray, ObjectValue, SkipWs;
    OtherMiss(t, p, q);
    BracketMisses(t, q);
  }

  lemma OpensObject(t: string, p: nat, q: nat)
    requires Visible(t, p, q) && t[q] == '{'
    ensures ParseValue(Ready(t, p)) == ObjectValue(Ready(t, q))
  {
    hide Match, ParseString, ParseNumber, ParseBool, ParseNull, ParseArray, ObjectValue, SkipWs;
    OtherMiss(t, p, q);
    BracketMisses(t, q);
  }

  lemma NumberReads(n: int, t: string, p: nat, q: nat)
    requires Visible(t, p, q) && At(t, q, IntText(n)) && Ends(t, q + |IntText(n)|)
    ensures ParseValue(Ready(t, p)) == Parsed(Some(JNumber(Integer(n))), Ready(t, q + |IntText(n)|))
  {
    hide Match, ParseString, ParseNumber, SkipWs, IntText;
    IntTextVisible(n);
    AtChar(t, q, IntText(n), 0);
    StringMiss(t, p, q);
    StillVisible(t, p, q);
    IntTextReads(n, t, q, q);
  }

  lemma StillVisible(t: string, p: nat, q: nat)
    requires Visible(t, p, q)
    ensures Visible(t, q, q)
  {}

  lemma StringReads(s: string, t: string, p: nat, q: nat)
    requires Visible(t, p, q) && At(t, q, Quoted(s))
    ensures ParseValue(Ready(t, p)) == Parsed(Some(JString(s)), Ready(t, q + |Quoted(s)|))
  {
    hide ParseString, Quoted, SkipWs;
    QuotedReads(s, t, p, q);
  }

  /** Whatever stands before a printed value and whatever follows it, parse_value returns the value
      and stops right after its text. */
  lemma {:induction false} ValueReads(depth: nat, v: Value, t: string, p: nat, q: nat)
    requires Clean(v)
    requires Visible(t, p, q) && At(t, q, Body(depth, v)) && Ends(t, q + |Body(depth, v)|)
    ensures ParseValue(Ready(t, p)) == Parsed(Some(v), Ready(t, q + |Body(depth, v)|))
    decreases v, 4
  {
    hide ParseValue, ParseArray, ParseObject, SkipWs, Quoted, IntText;
    match v {
      case JNull => WordReads(depth, v, t, p, q);
      case JBool(_) => WordReads(depth, v, t, p, q);
      case JNumber(number) => NumberReads(number.n, t, p, q);
      case JString(s) => StringReads(s, t, p, q);
      case JArray(vs) =>
        AtChar(t, q, Body(depth, v), 0);
        OpensArray(t, p, q);
        ArrayReads(depth, vs, t, q);
      case JObject(ms) =>
        AtChar(t, q, Body(depth, v), 0);
        OpensObject(t, p, q);
        ObjectReads(depth, ms, t, q);
    }
  }

  lemma Tail(depth: nat, close: char)
    requires close == ']' || close == '}'
    ensures Blank("\n" + Tabs(depth)) && Blank(" \n" + Tabs(depth))
    ensures !IsSpace(close)
  {
    TabsBlank(depth);
  }

  /** parse_array on a printed array. */
  lemma {:induction false} ArrayReads(depth: nat, vs: seq<Value>, t: string, q: nat)
    requires Clean(JArray(vs))
    requires At(t, q, Body(depth, JArray(vs)))
    ensures ParseArray(Ready(t, q)) == ParsedArray(true, vs, Ready(t, q + |Body(depth, JArray(vs))|))
    decreases vs, 3
  {
    hide Match, Items, SkipWs, Visible, Tabs, ValuesText, At, ItemText;
    var tail := Tabs(depth) + "]";
    var inner := "\n" + (ValuesText(depth + 1, vs) + tail);
    assert Body(depth, JArray(vs)) == "[" + inner;
    CharNext('[', t, q, inner);
    if vs == [] {
      ValuesUnfoldEmpty(depth + 1);
      assert inner == ("\n" + Tabs(depth)) + "]";
      EmptyCloses(depth, ']', t, q + 1);
    } else {
      var q1 := ItemStarts(depth + 1, vs, tail, t, q + 1);
      MatchMiss("]", t, q + 1, q1);
      StillVisible(t, q + 1, q1);
      ItemsRead(depth, [], vs, t, q1, q1);
      assert [] + vs == vs;
    }
  }

  /** A bracket, comma or colon that is the very next character. */
  lemma CharNext(c: char, t: string, e: nat, more: string)
    requires At(t, e, [c] + more) && !IsSpace(c)
    ensures Match([c], Ready(t, e)) == Matched(true, Ready(t, e + 1)) && At(t, e + 1, more)
  {
    hide Match, SkipWs;
    AtSplit(t, e, [c], more);
    AtChar(t, e, [c], 0);
    SkipBlanks(t, e, e);
    MatchHit([c], t, e, e);
  }

  lemma EmptyCloses(depth: nat, close: char, t: string, p: nat)
    requires close == ']' || close == '}'
    requires At(t, p, ("\n" + Tabs(depth)) + [close])
    ensures Match([close], Ready(t, p)) == Matched(true, Ready(t, p + |("\n" + Tabs(depth)) + [close]|))
  {
    hide Match, SkipWs, Visible, Tabs;
    Tail(depth, close);
    BlankRun(t, p, "\n" + Tabs(depth), [close]);
    MatchHit([close], t, p, p + |"\n" + Tabs(depth)|);
  }

  lemma ValuesUnfoldEmpty(depth: nat)
    ensures ValuesText(depth, []) == "" && MembersText(depth, []) == ""
  {}

  /** The text from the first item on to the closing tail. */
  function ItemText(depth: nat, vs: seq<Value>, tail: string): string
    requires vs != [] && forall i :: 0 <= i < |vs| ==> Printable(vs[i])
  {
    Body(depth, vs[0]) + (Separator(|vs| == 1) + (ValuesText(depth, vs[1..]) + tail))
  }

  lemma ItemTextStarts(depth: nat, vs: seq<Value>, tail: string)
    requires vs != [] && forall i :: 0 <= i < |vs| ==> Printable(vs[i])
    ensures ItemText(depth, vs, tail) != "" && Starter(ItemText(depth, vs, tail)[0])
    ensures "\n" + (ValuesText(depth, vs) + tail) == ("\n" + Tabs(depth)) + ItemText(depth, vs, tail)
  {
    hide Body, Tabs, ValuesText;
    BodyStarts(depth, vs[0]);
    ValuesUnfold(depth, vs);
    LineSplits(Tabs(depth), Body(depth, vs[0]), Separator(|vs| == 1), ValuesText(depth, vs[1..]), tail);
  }

  lemma LineSplits(tabs: string, body: string, separator: string, text: string, tail: string)
    ensures "\n" + ((tabs + (body + (separator + text))) + tail)
         == ("\n" + tabs) + (body + (separator + (text + tail)))
  {
    assert (tabs + (body + (separator + text))) + tail == tabs + (body + (separator + (text + tail)));
  }

  /** The first item of an array is the next visible thing. */
  lemma ItemStarts(depth: nat, vs: seq<Value>, tail: string, t: string, p: nat) returns (q: nat)
    requires vs != [] && forall i :: 0 <= i < |vs| ==> Printable(vs[i])
    requires At(t, p, "\n" + (ValuesText(depth, vs) + tail))
    ensures Visible(t, p, q) && Starter(t[q])
    ensures At(t, q, ItemText(depth, vs, tail))
    ensures q + |ItemText(depth, vs, tail)| == p + |"\n" + (ValuesText(depth, vs) + tail)|
  {
    hide SkipWs, Visible, Tabs, Body, ItemText, ValuesText;
    ItemTextStarts(depth, vs, tail);
    TabsBlank(depth);
    q := p + |"\n" + Tabs(depth)|;
    BlankRun(t, p, "\n" + Tabs(depth), ItemText(depth, vs, tail));
    AtChar(t, q, ItemText(depth, vs, tail), 0);
  }

  /** The closing bracket after the last item. */
  lemma ArrayCloses(depth: nat, values: seq<Value>, t: string, e: nat)
    requires At(t, e, " \n" + (Tabs(depth) + "]"))
    ensures Match(",", Ready(t, e)).ok == false
    ensures CloseArray(Match(",", Ready(t, e)).rest, values)
         == ParsedArray(true, values, Ready(t, e + |" \n" + (Tabs(depth) + "]")|))
  {
    hide Match, SkipWs, Visible, Tabs;
    Tail(depth, ']');
    assert " \n" + (Tabs(depth) + "]") == (" \n" + Tabs(depth)) + "]";
    BlankRun(t, e, " \n" + Tabs(depth), "]");
    var c := e + |" \n" + Tabs(depth)|;
    AtChar(t, c, "]", 0);
    MatchMiss(",", t, e, c);
    StillVisible(t, e, c);
    MatchHit("]", t, c, c);
  }

  /** One turn of the array loop. */
  lemma ItemsStep(s: Stream, done: seq<Value>)
    ensures var item := ParseValue(s);
            var comma := Match(",", item.rest);
            Items(s, done) == if item.value.None? then CloseArray(item.rest, done)
                              else if comma.ok then Items(comma.rest, done + [item.value.value])
                              else CloseArray(comma.rest, done + [item.value.value])
  {
    hide Match, ParseValue;
  }

  lemma ItemTextSplits(depth: nat, vs: seq<Value>, tail: string, t: string, q: nat)
    requires vs != [] && forall i :: 0 <= i < |vs| ==> Printable(vs[i])
    requires At(t, q, ItemText(depth, vs, tail))
    ensures var e := q + |Body(depth, vs[0])|;
            && At(t, q, Body(depth, vs[0])) && Ends(t, e)
            && (|vs| == 1 ==> At(t, e, " \n" + tail) && q + |ItemText(depth, vs, tail)| == e + |" \n" + tail|)
            && (|vs| > 1 ==> At(t, e, "," + ("\n" + (ValuesText(depth, vs[1..]) + tail)))
                             && q + |ItemText(depth, vs, tail)|
                                == e + |"," + ("\n" + (ValuesText(depth, vs[1..]) + tail))|)
  {
    hide Body, Tabs, ValuesText;
    var body, after := Body(depth, vs[0]), Separator(|vs| == 1) + (ValuesText(depth, vs[1..]) + tail);
    AtSplit(t, q, body, after);
    AtChar(t, q + |body|, after, 0);
    if |vs| == 1 {
      ValuesUnfoldEmpty(depth);
      assert vs[1..] == [] && after == " \n" + tail;
    } else {
      assert after == "," + ("\n" + (ValuesText(depth, vs[1..]) + tail));
    }
  }

  /** The array loop from the item at q on, with the items in done already read. */
  lemma {:induction false} ItemsRead(depth: nat, done: seq<Value>, vs: seq<Value>, t: string, p: nat, q: nat)
    requires vs != [] && forall i :: 0 <= i < |vs| ==> Printable(vs[i])
    requires forall i :: 0 <= i < |vs| ==> Clean(vs[i])
    requires Visible(t, p, q)
    requires At(t, q, ItemText(depth + 1, vs, Tabs(depth) + "]"))
    ensures Items(Ready(t, p), done)
         == ParsedArray(true, done + vs, Ready(t, q + |ItemText(depth + 1, vs, Tabs(depth) + "]")|))
    decreases vs, 2
  {
    hide Match, ParseValue, Items, CloseArray, SkipWs, Tabs, Body, ValuesText, ItemText, Clean, Printable;
    var tail := Tabs(depth) + "]";
    var e := q + |Body(depth + 1, vs[0])|;
    ItemTextSplits(depth + 1, vs, tail, t, q);
    ValueReads(depth + 1, vs[0], t, p, q);
    ItemsStep(Ready(t, p), done);
    if |vs| == 1 {
      ArrayCloses(depth, done + [vs[0]], t, e);
      assert done + vs == done + [vs[0]];
    } else {
      var more := "\n" + (ValuesText(depth + 1, vs[1..]) + tail);
      CharNext(',', t, e, more);
      var q1 := ItemStarts(depth + 1, vs[1..], tail, t, e + 1);
      ItemsRead(depth, done + [vs[0]], vs[1..], t, e + 1, q1);
      assert (done + [vs[0]]) + vs[1..] == done + vs;
    }
  }

  // ---------- the same for objects ----------

  /** The text after a key: its value, the separator, the other members and the closing tail. */
  function AfterKey(depth: nat, ms: seq<Pair<Value>>, tail: string): string
    requires ms != [] && forall i :: 0 <= i < |ms| ==> Printable(ms[i].value)
  {
    Body(depth, ms[0].value) + (Separator(|ms| == 1) + (MembersText(depth, ms[1..]) + tail))
  }

  function MemberText(depth: nat, ms: seq<Pair<Value>>, tail: string): string
    requires ms != [] && forall i :: 0 <= i < |ms| ==> Printable(ms[i].value)
  {
    Quoted(ms[0].key) + (":" + (" " + AfterKey(depth, ms, tail)))
  }

  lemma MemberTextStarts(depth: nat, ms: seq<Pair<Value>>, tail: string)
    requires ms != [] && forall i :: 0 <= i < |ms| ==> Printable(ms[i].value)
    requires ms[0].key != ""
    ensures MemberText(depth, ms, tail) != "" && MemberText(depth, ms, tail)[0] == '"'
    ensures "\n" + (MembersText(depth, ms) + tail) == ("\n" + Tabs(depth)) + MemberText(depth, ms, tail)
  {
    hide Body, Tabs, Escape, MembersText;
    MembersUnfold(depth, ms);
    HeadSplits(Tabs(depth), Quoted(ms[0].key), AfterKeyHead(depth, ms), MembersText(depth, ms[1..]), tail);
  }

  /** The value of the first member with its separator. */
  function AfterKeyHead(depth: nat, ms: seq<Pair<Value>>): (string, string)
    requires ms != [] && forall i :: 0 <= i < |ms| ==> Printable(ms[i].value)
  {
    (Body(depth, ms[0].value), Separator(|ms| == 1))
  }

  lemma HeadSplits(tabs: string, key: string, item: (string, string), text: string, tail: string)
    ensures "\n" + (((tabs + key + ": ") + (item.0 + (item.1 + text))) + tail)
         == ("\n" + tabs) + (key + (":" + (" " + (item.0 + (item.1 + (text + tail))))))
  {
    assert (tabs + key + ": ") + (item.0 + (item.1 + text)) + tail
        == (tabs + key + ": ") + (item.0 + (item.1 + (text + tail)));
    assert (tabs + key + ": ") == tabs + (key + (":" + " "));
  }

  /** The first key of an object is the next visible thing. */
  lemma MemberStarts(depth: nat, ms: seq<Pair<Value>>, tail: string, t: string, p: nat) returns (q: nat)
    requires ms != [] && forall i :: 0 <= i < |ms| ==> Printable(ms[i].value)
    requires ms[0].key != ""
    requires At(t, p, "\n" + (MembersText(depth, ms) + tail))
    ensures Visible(t, p, q) && t[q] == '"'
    ensures At(t, q, MemberText(depth, ms, tail))
    ensures q + |MemberText(depth, ms, tail)| == p + |"\n" + (MembersText(depth, ms) + tail)|
  {
    hide SkipWs, Visible, Tabs, Body, MemberText, MembersText;
    MemberTextStarts(depth, ms, tail);
    TabsBlank(depth);
    q := p + |"\n" + Tabs(depth)|;
    BlankRun(t, p, "\n" + Tabs(depth), MemberText(depth, ms, tail));
    AtChar(t, q, MemberText(depth, ms, tail), 0);
  }

  /** The closing brace after the last member. */
  lemma ObjectCloses(depth: nat, members: seq<Pair<Value>>, t: string, e: nat)
    requires At(t, e, " \n" + (Tabs(depth) + "}"))
    ensures Match(",", Ready(t, e)).ok == false
    ensures CloseObject(Match(",", Ready(t, e)).rest, members)
         == ParsedObject(true, members, Ready(t, e + |" \n" + (Tabs(depth) + "}")|))
  {
    hide Match, SkipWs, Visible, Tabs;
    Tail(depth, '}');
    assert " \n" + (Tabs(depth) + "}") == (" \n" + Tabs(depth)) + "}";
    BlankRun(t, e, " \n" + Tabs(depth), "}");
    var c := e + |" \n" + Tabs(depth)|;
    AtChar(t, c, "}", 0);
    MatchMiss(",", t, e, c);
    StillVisible(t, e, c);
    MatchHit("}", t, c, c);
  }

  /** One turn of the object loop that finds a key and a colon. */
  lemma MembersStep(s: Stream, done: seq<Pair<Value>>)
    ensures var key := ParseString(s);
            var colon := Match(":", key.rest);
            var item := ParseValue(colon.rest);
            var comma := Match(",", item.rest);
            key.ok && colon.ok ==>
              Members(s, done) == if item.value.None? then CloseObject(item.rest, done)
                                  else if comma.ok then Members(comma.rest, Put(done, key.value, item.value.value))
                                  else CloseObject(comma.rest, Put(done, key.value, item.value.value))
  {
    hide Match, ParseValue, ParseString, Put;
  }

  /** The key, the colon and the blank of the first member. */
  lemma KeyReads(depth: nat, ms: seq<Pair<Value>>, tail: string, t: string, p: nat, q: nat) returns (c: nat)
    requires ms != [] && forall i :: 0 <= i < |ms| ==> Printable(ms[i].value)
    requires Visible(t, p, q) && At(t, q, MemberText(depth, ms, tail))
    ensures c == q + |Quoted(ms[0].key)| + 2
    ensures ParseString(Ready(t, p)) == Scanned(true, ms[0].key, Ready(t, c - 2))
    ensures Match(":", Ready(t, c - 2)) == Matched(true, Ready(t, c - 1))
    ensures Visible(t, c - 1, c) && At(t, c, AfterKey(depth, ms, tail))
    ensures q + |MemberText(depth, ms, tail)| == c + |AfterKey(depth, ms, tail)|
  {
    hide Match, ParseString, SkipWs, Visible, Quoted, Body, MembersText;
    var key, after := Quoted(ms[0].key), AfterKey(depth, ms, tail);
    AtSplit(t, q, key, ":" + (" " + after));
    QuotedReads(ms[0].key, t, p, q);
    c := q + |key| + 2;
    CharNext(':', t, c - 2, " " + after);
    BodyStarts(depth, ms[0].value);
    BlankRun(t, c - 1, " ", after);
  }

  lemma AfterKeySplits(depth: nat, ms: seq<Pair<Value>>, tail: string, t: string, q: nat)
    requires ms != [] && forall i :: 0 <= i < |ms| ==> Printable(ms[i].value)
    requires At(t, q, AfterKey(depth, ms, tail))
    ensures var e := q + |Body(depth, ms[0].value)|;
            && At(t, q, Body(depth, ms[0].value)) && Ends(t, e)
            && (|ms| == 1 ==> At(t, e, " \n" + tail) && q + |AfterKey(depth, ms, tail)| == e + |" \n" + tail|)
            && (|ms| > 1 ==> At(t, e, "," + ("\n" + (MembersText(depth, ms[1..]) + tail)))
                             && q + |AfterKey(depth, ms, tail)|
                                == e + |"," + ("\n" + (MembersText(depth, ms[1..]) + tail))|)
  {
    hide Body, Tabs, MembersText;
    var body, after := Body(depth, ms[0].value), Separator(|ms| == 1) + (MembersText(depth, ms[1..]) + tail);
    AtSplit(t, q, body, after);
    AtChar(t, q + |body|, after, 0);
    if |ms| == 1 {
      ValuesUnfoldEmpty(depth);
      assert ms[1..] == [] && after == " \n" + tail;
    } else {
      assert after == "," + ("\n" + (MembersText(depth, ms[1..]) + tail));
    }
  }

  /** The object loop from the key at q on, with the members in done already stored. */
  lemma {:induction false} MembersRead(depth: nat, done: seq<Pair<Value>>, ms: seq<Pair<Value>>,
                                       t: string, p: nat, q: nat)
    requires ms != [] && forall i :: 0 <= i < |ms| ==> Printable(ms[i].value)
    requires forall i :: 0 <= i < |ms| ==> ms[i].key != "" && Clean(ms[i].value)
    requires Sorted(done + ms)
    requires Visible(t, p, q)
    requires At(t, q, MemberText(depth + 1, ms, Tabs(depth) + "}"))
    ensures Members(Ready(t, p), done)
         == ParsedObject(true, done + ms, Ready(t, q + |MemberText(depth + 1, ms, Tabs(depth) + "}")|))
    decreases ms, 2
  {
    hide Match, ParseValue, ParseString, Members, CloseObject, SkipWs, Visible, Tabs, Body, MembersText, MemberText,
         AfterKey, Clean, Printable, Put, Quoted, Less, At;
    var tail := Tabs(depth) + "}";
    var c := KeyReads(depth + 1, ms, tail, t, p, q);
    var e := c + |Body(depth + 1, ms[0].value)|;
    AfterKeySplits(depth + 1, ms, tail, t, c);
    ValueReads(depth + 1, ms[0].value, t, c - 1, c);
    MembersStep(Ready(t, p), done);
    StoreNext(done, ms);
    if |ms| == 1 {
      ObjectCloses(depth, done + [ms[0]], t, e);
      assert done + ms == done + [ms[0]];
    } else {
      var more := "\n" + (MembersText(depth + 1, ms[1..]) + tail);
      CharNext(',', t, e, more);
      var q1 := MemberStarts(depth + 1, ms[1..], tail, t, e + 1);
      MembersRead(depth, done + [ms[0]], ms[1..], t, e + 1, q1);
    }
  }

  lemma StoreNext(done: seq<Pair<Value>>, ms: seq<Pair<Value>>)
    requires ms != [] && Sorted(done + ms)
    ensures Put(done, ms[0].key, ms[0].value) == done + [ms[0]]
    ensures (done + [ms[0]]) + ms[1..] == done + ms
  {
    hide Less, Put;
    forall i | 0 <= i < |done| ensures Less(done[i].key, ms[0].key) {
      assert (done + ms)[i] == done[i] && (done + ms)[|done|] == ms[0];
    }
    PutAppends(done, ms[0].key, ms[0].value);
  }

  lemma CleanMembers(ms: seq<Pair<Value>>)
    requires Clean(JObject(ms))
    ensures Sorted(ms) && forall i :: 0 <= i < |ms| ==> ms[i].key != "" && Clean(ms[i].value)
  {
    hide Less;
  }

  /** parse_object on a printed object. */
  lemma {:induction false} ObjectReads(depth: nat, ms: seq<Pair<Value>>, t: string, q: nat)
    requires Clean(JObject(ms))
    requires At(t, q, Body(depth, JObject(ms)))
    ensures ParseObject(Ready(t, q)) == ParsedObject(true, ms, Ready(t, q + |Body(depth, JObject(ms))|))
    decreases ms, 3
  {
    hide Match, Members, SkipWs, Visible, Tabs, MembersText, MemberText, Less, Starter, AfterKey, Ordered, Named;
    CleanMembers(ms);
    var tail := Tabs(depth) + "}";
    var inner := "\n" + (MembersText(depth + 1, ms) + tail);
    assert Body(depth, JObject(ms)) == "{" + inner;
    CharNext('{', t, q, inner);
    if ms == [] {
      ValuesUnfoldEmpty(depth + 1);
      assert inner == ("\n" + Tabs(depth)) + "}";
      EmptyCloses(depth, '}', t, q + 1);
    } else {
      var q1 := MemberStarts(depth + 1, ms, tail, t, q + 1);
      MatchMiss("}", t, q + 1, q1);
      StillVisible(t, q + 1, q1);
      assert [] + ms == ms;
      MembersRead(depth, [], ms, t, q1, q1);
    }
  }
}
