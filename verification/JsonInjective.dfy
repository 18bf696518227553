/** Printing loses nothing: two trees with the same text are the same tree, empty keys included. So
    what reformat loses, the parser loses. */
module JsonInjective {
  import opened Text
  import opened JsonStream
  import opened JsonGrammar
  import opened JsonPrinter
  import opened JsonLexing
  import opened JsonRoundTrip
  import opened JsonSafety

  /** The first character of a printed value tells its kind. */
  predicate Opens(v: Value, c: char) {
    match v
    case JNull => c == 'n'
    case JBool(b) => c == if b then 't' else 'f'
    case JNumber(_) => c == '-' || IsDigit(c)
    case JString(_) => c == '"'
    case JArray(_) => c == '['
    case JObject(_) => c == '{'
  }

  lemma BodyOpens(depth: nat, v: Value, t: string, q: nat)
    requires Printable(v) && At(t, q, Body(depth, v))
    ensures q < |t| && Opens(v, t[q])
  {
    hide IntText, ValuesText, MembersText, Tabs, Escape;
    if v.JNumber? { IntTextVisible(v.number.n); }
    AtChar(t, q, Body(depth, v), 0);
  }

  lemma Here(t: string, q: nat)
    requires q < |t| && !IsSpace(t[q])
    ensures Visible(t, q, q)
  {}

  lemma QuotedInjective(a: string, b: string, t: string, q: nat)
    requires At(t, q, Quoted(a)) && At(t, q, Quoted(b))
    ensures a == b
  {
    hide ParseString, SkipWs, Escape, StringBody;
    AtChar(t, q, Quoted(a), 0);
    Here(t, q);
    QuotedReads(a, t, q, q);
    QuotedReads(b, t, q, q);
  }

  lemma NumberInjective(a: int, b: int, t: string, q: nat)
    requires At(t, q, IntText(a)) && Ends(t, q + |IntText(a)|)
    requires At(t, q, IntText(b)) && Ends(t, q + |IntText(b)|)
    ensures a == b
  {
    hide ParseNumber, SkipWs, IntText;
    IntTextVisible(a);
    AtChar(t, q, IntText(a), 0);
    Here(t, q);
    IntTextReads(a, t, q, q);
    IntTextReads(b, t, q, q);
  }

  /** A text carries at most one value at a place where values end properly. */
  lemma {:induction false} BodyInjective(depth: nat, v: Value, w: Value, t: string, q: nat)
    requires Printable(v) && At(t, q, Body(depth, v)) && Ends(t, q + |Body(depth, v)|)
    requires Printable(w) && At(t, q, Body(depth, w)) && Ends(t, q + |Body(depth, w)|)
    ensures v == w
    decreases v, 4
  {
    hide At, Quoted, IntText, ValuesText, MembersText, Tabs;
    BodyOpens(depth, v, t, q);
    BodyOpens(depth, w, t, q);
    match v {
      case JNumber(number) => NumberInjective(number.n, w.number.n, t, q);
      case JString(s) => QuotedInjective(s, w.s, t, q);
      case JArray(vs) => ArrayInjective(depth, vs, w.values, t, q);
      case JObject(ms) => ObjectInjective(depth, ms, w.members, t, q);
      case _ =>
    }
  }

  lemma {:induction false} TabsMore(depth: nat)
    ensures Tabs(depth + 1) == Tabs(depth) + "\t"
  {
    if depth > 0 { TabsMore(depth - 1); }
  }

  /** Where an empty container closes, another one has a tab more. */
  lemma EmptyOrLines(depth: nat, close: char, rest: string, t: string, p: nat)
    requires close == ']' || close == '}'
    requires At(t, p, ("\n" + Tabs(depth)) + [close])
    ensures !At(t, p, ("\n" + Tabs(depth + 1)) + rest)
  {
    hide Tabs;
    TabsMore(depth);
    var blanks := "\n" + Tabs(depth);
    assert ("\n" + Tabs(depth + 1)) + rest == blanks + ("\t" + rest);
    AtSplit(t, p, blanks, [close]);
    AtSplit(t, p, blanks, "\t" + rest);
    CharAt(t, p + |blanks|, close, "");
    CharAt(t, p + |blanks|, '\t', rest);
    assert [close] + "" == [close];
  }

  lemma CharAt(t: string, p: nat, c: char, rest: string)
    ensures At(t, p, [c] + rest) ==> p < |t| && t[p] == c
  {
    if At(t, p, [c] + rest) { AtChar(t, p, [c] + rest, 0); }
  }

  lemma {:induction false} ArrayInjective(depth: nat, vs: seq<Value>, ws: seq<Value>, t: string, q: nat)
    requires Printable(JArray(vs)) && At(t, q, Body(depth, JArray(vs)))
    requires Printable(JArray(ws)) && At(t, q, Body(depth, JArray(ws)))
    ensures vs == ws
    decreases vs, 3
  {
    hide Tabs, ValuesText, At, ItemText;
    var inner := ArrayInside(depth, vs, t, q);
    var other := ArrayInside(depth, ws, t, q);
    if vs != [] && ws != [] {
      ItemsInjective(depth, vs, ws, t, q + 1);
    } else if vs == [] && ws != [] {
      EmptyOrLines(depth, ']', ItemText(depth + 1, ws, Tabs(depth) + "]"), t, q + 1);
    } else if vs != [] && ws == [] {
      EmptyOrLines(depth, ']', ItemText(depth + 1, vs, Tabs(depth) + "]"), t, q + 1);
    }
  }

  /** The text inside the brackets: a closing line, or the first item after a tab more. */
  lemma ArrayInside(depth: nat, vs: seq<Value>, t: string, q: nat) returns (inner: string)
    requires Printable(JArray(vs)) && At(t, q, Body(depth, JArray(vs)))
    ensures inner == "\n" + (ValuesText(depth + 1, vs) + (Tabs(depth) + "]")) && At(t, q + 1, inner)
    ensures inner == if vs == [] then ("\n" + Tabs(depth)) + "]"
                     else ("\n" + Tabs(depth + 1)) + ItemText(depth + 1, vs, Tabs(depth) + "]")
  {
    hide Tabs, ValuesText, At, ItemText;
    inner := "\n" + (ValuesText(depth + 1, vs) + (Tabs(depth) + "]"));
    assert Body(depth, JArray(vs)) == "[" + inner;
    AtSplit(t, q, "[", inner);
    if vs == [] {
      ValuesUnfoldEmpty(depth + 1);
    } else {
      ItemTextStarts(depth + 1, vs, Tabs(depth) + "]");
    }
  }

  lemma {:induction false} ItemsInjective(depth: nat, vs: seq<Value>, ws: seq<Value>, t: string, p: nat)
    requires vs != [] && forall i :: 0 <= i < |vs| ==> Printable(vs[i])
    requires ws != [] && forall i :: 0 <= i < |ws| ==> Printable(ws[i])
    requires At(t, p, "\n" + (ValuesText(depth + 1, vs) + (Tabs(depth) + "]")))
    requires At(t, p, "\n" + (ValuesText(depth + 1, ws) + (Tabs(depth) + "]")))
    ensures vs == ws
    decreases vs, 2
  {
    hide Tabs, ValuesText, At, ItemText, Body, Printable;
    var tail := Tabs(depth) + "]";
    var q := p + |"\n" + Tabs(depth + 1)|;
    ItemTextStarts(depth + 1, vs, tail);
    ItemTextStarts(depth + 1, ws, tail);
    AtSplit(t, p, "\n" + Tabs(depth + 1), ItemText(depth + 1, vs, tail));
    AtSplit(t, p, "\n" + Tabs(depth + 1), ItemText(depth + 1, ws, tail));
    ItemTextSplits(depth + 1, vs, tail, t, q);
    ItemTextSplits(depth + 1, ws, tail, t, q);
    BodyInjective(depth + 1, vs[0], ws[0], t, q);
    var e := q + |Body(depth + 1, vs[0])|;
    SameEnd(|vs| == 1, |ws| == 1, "\n" + (ValuesText(depth + 1, vs[1..]) + tail),
            "\n" + (ValuesText(depth + 1, ws[1..]) + tail), tail, t, e);
    if |vs| > 1 {
      AtSplit(t, e, ",", "\n" + (ValuesText(depth + 1, vs[1..]) + tail));
      AtSplit(t, e, ",", "\n" + (ValuesText(depth + 1, ws[1..]) + tail));
      ItemsInjective(depth, vs[1..], ws[1..], t, e + 1);
    }
    assert vs == [vs[0]] + vs[1..] && ws == [ws[0]] + ws[1..];
  }

  /** A blank ends the last line, a comma any other. */
  lemma SameEnd(last: bool, otherLast: bool, more: string, otherMore: string, tail: string, t: string, e: nat)
    requires if last then At(t, e, " \n" + tail) else At(t, e, "," + more)
    requires if otherLast then At(t, e, " \n" + tail) else At(t, e, "," + otherMore)
    ensures last == otherLast
  {
    assert " \n" + tail == [' '] + ("\n" + tail);
    CharAt(t, e, ' ', "\n" + tail);
    CharAt(t, e, ',', more);
    CharAt(t, e, ',', otherMore);
  }

  lemma {:induction false} ObjectInjective(depth: nat, ms: seq<Pair<Value>>, ns: seq<Pair<Value>>, t: string, q: nat)
    requires Printable(JObject(ms)) && At(t, q, Body(depth, JObject(ms)))
    requires Printable(JObject(ns)) && At(t, q, Body(depth, JObject(ns)))
    ensures ms == ns
    decreases ms, 3
  {
    hide Tabs, MembersText, At, AfterKey, KeyText;
    var inner := ObjectInside(depth, ms, t, q);
    var other := ObjectInside(depth, ns, t, q);
    if ms != [] && ns != [] {
      MembersInjective(depth, ms, ns, t, q + 1);
    } else if ms == [] && ns != [] {
      EmptyOrLines(depth, '}', KeyText(ns[0].key) + AfterKey(depth + 1, ns, Tabs(depth) + "}"), t, q + 1);
    } else if ms != [] && ns == [] {
      EmptyOrLines(depth, '}', KeyText(ms[0].key) + AfterKey(depth + 1, ms, Tabs(depth) + "}"), t, q + 1);
    }
  }

  lemma ObjectInside(depth: nat, ms: seq<Pair<Value>>, t: string, q: nat) returns (inner: string)
    requires Printable(JObject(ms)) && At(t, q, Body(depth, JObject(ms)))
    ensures inner == "\n" + (MembersText(depth + 1, ms) + (Tabs(depth) + "}")) && At(t, q + 1, inner)
    ensures inner == if ms == [] then ("\n" + Tabs(depth)) + "}"
                     else ("\n" + Tabs(depth + 1)) + (KeyText(ms[0].key) + AfterKey(depth + 1, ms, Tabs(depth) + "}"))
  {
    hide Tabs, MembersText, At, AfterKey, KeyText;
    inner := "\n" + (MembersText(depth + 1, ms) + (Tabs(depth) + "}"));
    assert Body(depth, JObject(ms)) == "{" + inner;
    AtSplit(t, q, "{", inner);
    if ms == [] {
      ValuesUnfoldEmpty(depth + 1);
    } else {
      MembersSplit(depth + 1, ms, Tabs(depth) + "}");
    }
  }

  /** No printed value can be taken for a key: a comma or a blank ends a value, a colon a key. */
  lemma KeyIsNoValue(depth: nat, key: string, v: Value, t: string, q: nat)
    requires key != "" && At(t, q, KeyText(key))
    requires Printable(v) && At(t, q, Body(depth, v))
    ensures !Ends(t, q + |Body(depth, v)|)
  {
    hide Quoted, IntText, ValuesText, MembersText, Tabs, At;
    AtSplit(t, q, Quoted(key), ": ");
    CharAt(t, q + |Quoted(key)|, ':', " ");
    assert [':'] + " " == ": ";
    BodyOpens(depth, JString(key), t, q);
    BodyOpens(depth, v, t, q);
    if v.JString? { QuotedInjective(key, v.s, t, q); }
  }

  lemma {:induction false} MembersInjective(depth: nat, ms: seq<Pair<Value>>, ns: seq<Pair<Value>>, t: string, p: nat)
    requires ms != [] && forall i :: 0 <= i < |ms| ==> Printable(ms[i].value)
    requires ns != [] && forall i :: 0 <= i < |ns| ==> Printable(ns[i].value)
    requires At(t, p, "\n" + (MembersText(depth + 1, ms) + (Tabs(depth) + "}")))
    requires At(t, p, "\n" + (MembersText(depth + 1, ns) + (Tabs(depth) + "}")))
    ensures ms == ns
    decreases ms, 2
  {
    hide Tabs, MembersText, At, AfterKey, KeyText, Body, Printable;
    var tail := Tabs(depth) + "}";
    var k := p + |"\n" + Tabs(depth + 1)|;
    MembersSplit(depth + 1, ms, tail);
    MembersSplit(depth + 1, ns, tail);
    AtSplit(t, p, "\n" + Tabs(depth + 1), KeyText(ms[0].key) + AfterKey(depth + 1, ms, tail));
    AtSplit(t, p, "\n" + Tabs(depth + 1), KeyText(ns[0].key) + AfterKey(depth + 1, ns, tail));
    SameKey(depth + 1, ms, ns, tail, t, k);
    var q := k + |KeyText(ms[0].key)|;
    AtSplit(t, k, KeyText(ms[0].key), AfterKey(depth + 1, ms, tail));
    AtSplit(t, k, KeyText(ns[0].key), AfterKey(depth + 1, ns, tail));
    AfterKeySplits(depth + 1, ms, tail, t, q);
    AfterKeySplits(depth + 1, ns, tail, t, q);
    BodyInjective(depth + 1, ms[0].value, ns[0].value, t, q);
    var e := q + |Body(depth + 1, ms[0].value)|;
    SameEnd(|ms| == 1, |ns| == 1, "\n" + (MembersText(depth + 1, ms[1..]) + tail),
            "\n" + (MembersText(depth + 1, ns[1..]) + tail), tail, t, e);
    if |ms| > 1 {
      AtSplit(t, e, ",", "\n" + (MembersText(depth + 1, ms[1..]) + tail));
      AtSplit(t, e, ",", "\n" + (MembersText(depth + 1, ns[1..]) + tail));
      MembersInjective(depth, ms[1..], ns[1..], t, e + 1);
    }
    assert ms == [ms[0]] + ms[1..] && ns == [ns[0]] + ns[1..];
  }

  lemma SameKey(depth: nat, ms: seq<Pair<Value>>, ns: seq<Pair<Value>>, tail: string, t: string, k: nat)
    requires ms != [] && forall i :: 0 <= i < |ms| ==> Printable(ms[i].value)
    requires ns != [] && forall i :: 0 <= i < |ns| ==> Printable(ns[i].value)
    requires At(t, k, KeyText(ms[0].key) + AfterKey(depth, ms, tail))
    requires At(t, k, KeyText(ns[0].key) + AfterKey(depth, ns, tail))
    ensures ms[0].key == ns[0].key
  {
    hide At, Body, AfterKey, Printable, Quoted;
    var a, b := ms[0].key, ns[0].key;
    AtSplit(t, k, KeyText(a), AfterKey(depth, ms, tail));
    AtSplit(t, k, KeyText(b), AfterKey(depth, ns, tail));
    if a != "" && b != "" {
      AtSplit(t, k, Quoted(a), ": ");
      AtSplit(t, k, Quoted(b), ": ");
      QuotedInjective(a, b, t, k);
    } else if a == "" && b != "" {
      AfterKeySplits(depth, ms, tail, t, k);
      KeyIsNoValue(depth, b, ms[0].value, t, k);
    } else if a != "" && b == "" {
      AfterKeySplits(depth, ns, tail, t, k);
      KeyIsNoValue(depth, a, ns[0].value, t, k);
    }
  }

  /** Different trees print different texts, empty keys or not. */
  lemma TextInjective(v: Value, w: Value)
    requires Printable(v) && Printable(w)
    requires RemoveLastComma(Tag(0, "", v)) == RemoveLastComma(Tag(0, "", w))
    ensures v == w
  {
    hide RemoveLastComma, Tag, Body;
    var t := RemoveLastComma(Tag(0, "", v));
    JsonText(v);
    JsonText(w);
    assert At(t, 0, Body(0, v) + " \n") && At(t, 0, Body(0, w) + " \n");
    AtSplit(t, 0, Body(0, v), " \n");
    AtSplit(t, 0, Body(0, w), " \n");
    BodyInjective(0, v, w, t, 0);
  }
}
