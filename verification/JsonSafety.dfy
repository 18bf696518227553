/** The other half of the round trip: on printed text the parser never stores an empty key, so a
    tree with an empty key never comes back. Nor does it find a number the printer would not print. */
module JsonSafety {
  import opened Text
  import opened JsonStream
  import opened JsonGrammar
  import opened JsonPrinter
  import opened JsonLexing
  import opened JsonRoundTrip

  predicate IsPunctuation(c: char) {
    c == '[' || c == ']' || c == '{' || c == '}' || c == ':' || c == ','
  }

  /** From p on the text is a run of blanks, punctuation, words, numbers and strings, where no
      empty string is followed by a colon. */
  predicate Tokens(t: string, p: nat)
    decreases |t| - p
  {
    if p >= |t| then true
    else if IsSpace(t[p]) || IsPunctuation(t[p]) then Tokens(t, p + 1)
    else if t[p] == '"' then
      var str := StringBody(Ready(t, p + 1), '\0', '"', "");
      && str.ok && str.rest.Good() && p < str.rest.pos && Tokens(t, str.rest.pos)
      && (str.value == "" ==> !Match(":", str.rest).ok)
    else if t[p] == 't' then At(t, p, "true") && Tokens(t, p + 4)
    else if t[p] == 'f' then At(t, p, "false") && Tokens(t, p + 5)
    else if t[p] == 'n' then At(t, p, "null") && Tokens(t, p + 4)
    else if t[p] == '-' || IsDigit(t[p]) then
      var number := ParseNumber(Ready(t, p));
      number.0.Some? && Exact(number.0.value) && number.1.Good() && p < number.1.pos && Tokens(t, number.1.pos)
    else false
  }

  /** A stream that has failed, or stands before such a run. */
  predicate Safe(s: Stream) {
    s.fail || Tokens(s.text, s.pos)
  }

  // ---------- printed text is such a run ----------

  lemma {:induction false} BlankTokens(t: string, p: nat, w: string)
    requires At(t, p, w) && Blank(w) && Tokens(t, p + |w|)
    ensures Tokens(t, p)
    decreases |w|
  {
    hide Tokens;
    if w != "" {
      AtChar(t, p, w, 0);
      assert w == [w[0]] + w[1..];
      AtSplit(t, p, [w[0]], w[1..]);
      BlankTokens(t, p + 1, w[1..]);
      BlankToken(t, p);
    }
  }

  lemma BlankToken(t: string, p: nat)
    requires p < |t| && IsSpace(t[p]) && Tokens(t, p + 1)
    ensures Tokens(t, p)
  {}

  lemma PunctuationToken(c: char, t: string, p: nat)
    requires At(t, p, [c]) && IsPunctuation(c) && Tokens(t, p + 1)
    ensures Tokens(t, p)
  {
    AtChar(t, p, [c], 0);
  }

  lemma StringToken(s: string, t: string, p: nat)
    requires At(t, p, Quoted(s)) && Tokens(t, p + |Quoted(s)|)
    requires s == "" ==> !Match(":", Ready(t, p + |Quoted(s)|)).ok
    ensures Tokens(t, p)
  {
    hide StringBody, Match, Quoted, Escape, At;
    QuotedSplit(s, t, p);
    QuoteHere(t, p);
    BodyReads(s, '\0', "", t, p + 1);
    assert "" + s == s;
  }

  lemma QuoteHere(t: string, p: nat)
    requires At(t, p, "\"")
    ensures p < |t| && t[p] == '"'
  {
    AtChar(t, p, "\"", 0);
  }

  /** The text at e ends a value: no colon is next, and the rest is a run of tokens. */
  predicate ValueEnd(t: string, e: nat) {
    Ends(t, e) && !Match(":", Ready(t, e)).ok && Tokens(t, e)
  }

  lemma NumberToken(n: int, t: string, p: nat)
    requires At(t, p, IntText(n)) && ValueEnd(t, p + |IntText(n)|) && Exact(Integer(n))
    ensures Tokens(t, p)
  {
    hide ParseNumber, IntText, Match;
    IntTextVisible(n);
    AtChar(t, p, IntText(n), 0);
    SkipBlanks(t, p, p);
    IntTextReads(n, t, p, p);
  }

  lemma WordToken(depth: nat, v: Value, t: string, p: nat)
    requires v.JNull? || v.JBool?
    requires At(t, p, Body(depth, v)) && Tokens(t, p + |Body(depth, v)|)
    ensures Tokens(t, p)
  {
    hide Match, StringBody, ParseNumber;
    AtChar(t, p, Body(depth, v), 0);
  }

  lemma CommaEnd(t: string, e: nat, more: string)
    requires At(t, e, "," + more) && Tokens(t, e + 1)
    ensures ValueEnd(t, e)
  {
    hide Match, SkipWs;
    AtSplit(t, e, ",", more);
    AtChar(t, e, ",", 0);
    SkipBlanks(t, e, e);
    MatchMiss(":", t, e, e);
  }

  lemma CloseEnd(depth: nat, close: char, t: string, e: nat)
    requires close == ']' || close == '}'
    requires At(t, e, " \n" + (Tabs(depth) + [close])) && Tokens(t, e + |" \n" + (Tabs(depth) + [close])|)
    ensures ValueEnd(t, e)
  {
    hide Match, SkipWs, Tabs, Tokens, At;
    Tail(depth, close);
    assert " \n" + (Tabs(depth) + [close]) == (" \n" + Tabs(depth)) + [close];
    AtSplit(t, e, " \n" + Tabs(depth), [close]);
    AtChar(t, e, " \n" + Tabs(depth), 0);
    BlankRun(t, e, " \n" + Tabs(depth), [close]);
    var c := e + |" \n" + Tabs(depth)|;
    AtChar(t, c, [close], 0);
    MatchMiss(":", t, e, c);
    PunctuationToken(close, t, c);
    BlankTokens(t, e, " \n" + Tabs(depth));
  }

  lemma {:induction false} ValueTokens(depth: nat, v: Value, t: string, p: nat)
    requires Printable(v)
    requires At(t, p, Body(depth, v)) && ValueEnd(t, p + |Body(depth, v)|)
    ensures Tokens(t, p)
    decreases v, 4
  {
    hide Match, Tokens, Quoted, IntText, At;
    match v {
      case JNull => WordToken(depth, v, t, p);
      case JBool(_) => WordToken(depth, v, t, p);
      case JNumber(number) => NumberToken(number.n, t, p);
      case JString(s) => StringToken(s, t, p);
      case JArray(vs) => ArrayTokens(depth, vs, t, p);
      case JObject(ms) => ObjectTokens(depth, ms, t, p);
    }
  }

  lemma EmptyTokens(depth: nat, close: char, t: string, p: nat)
    requires close == ']' || close == '}'
    requires At(t, p, ("\n" + Tabs(depth)) + [close])
    requires Tokens(t, p + |("\n" + Tabs(depth)) + [close]|)
    ensures Tokens(t, p)
  {
    hide Tokens, Tabs;
    Tail(depth, close);
    AtSplit(t, p, "\n" + Tabs(depth), [close]);
    PunctuationToken(close, t, p + |"\n" + Tabs(depth)|);
    BlankTokens(t, p, "\n" + Tabs(depth));
  }

  lemma {:induction false} ArrayTokens(depth: nat, vs: seq<Value>, t: string, p: nat)
    requires Printable(JArray(vs))
    requires At(t, p, Body(depth, JArray(vs))) && Tokens(t, p + |Body(depth, JArray(vs))|)
    ensures Tokens(t, p)
    decreases vs, 3
  {
    hide Tokens, Tabs, ValuesText, At, ItemText;
    var tail := Tabs(depth) + "]";
    var inner := "\n" + (ValuesText(depth + 1, vs) + tail);
    assert Body(depth, JArray(vs)) == "[" + inner;
    AtSplit(t, p, "[", inner);
    if vs == [] {
      ValuesUnfoldEmpty(depth + 1);
      assert inner == ("\n" + Tabs(depth)) + "]";
      EmptyTokens(depth, ']', t, p + 1);
    } else {
      ItemsTokens(depth, vs, t, p + 1);
    }
    PunctuationToken('[', t, p);
  }

  lemma {:induction false} ItemsTokens(depth: nat, vs: seq<Value>, t: string, p: nat)
    requires vs != [] && forall i :: 0 <= i < |vs| ==> Printable(vs[i])
    requires At(t, p, "\n" + (ValuesText(depth + 1, vs) + (Tabs(depth) + "]")))
    requires Tokens(t, p + |"\n" + (ValuesText(depth + 1, vs) + (Tabs(depth) + "]"))|)
    ensures Tokens(t, p)
    decreases vs, 2
  {
    hide Tokens, Tabs, ValuesText, At, ItemText, Body, Printable, Match;
    var tail := Tabs(depth) + "]";
    ItemTextStarts(depth + 1, vs, tail);
    AtSplit(t, p, "\n" + Tabs(depth + 1), ItemText(depth + 1, vs, tail));
    var q := p + |"\n" + Tabs(depth + 1)|;
    ItemTextSplits(depth + 1, vs, tail, t, q);
    var e := q + |Body(depth + 1, vs[0])|;
    if |vs| == 1 {
      CloseEnd(depth, ']', t, e);
    } else {
      var more := "\n" + (ValuesText(depth + 1, vs[1..]) + tail);
      AtSplit(t, e, ",", more);
      ItemsTokens(depth, vs[1..], t, e + 1);
      CommaEnd(t, e, more);
    }
    ValueTokens(depth + 1, vs[0], t, q);
    Tail(depth + 1, ']');
    BlankTokens(t, p, "\n" + Tabs(depth + 1));
  }

  lemma {:induction false} ObjectTokens(depth: nat, ms: seq<Pair<Value>>, t: string, p: nat)
    requires Printable(JObject(ms))
    requires At(t, p, Body(depth, JObject(ms))) && Tokens(t, p + |Body(depth, JObject(ms))|)
    ensures Tokens(t, p)
    decreases ms, 3
  {
    hide Tokens, Tabs, MembersText, At;
    var tail := Tabs(depth) + "}";
    var inner := "\n" + (MembersText(depth + 1, ms) + tail);
    assert Body(depth, JObject(ms)) == "{" + inner;
    AtSplit(t, p, "{", inner);
    if ms == [] {
      ValuesUnfoldEmpty(depth + 1);
      assert inner == ("\n" + Tabs(depth)) + "}";
      EmptyTokens(depth, '}', t, p + 1);
    } else {
      MembersTokens(depth, ms, t, p + 1);
    }
    PunctuationToken('{', t, p);
  }

  /** A printed key, if there is one. */
  function KeyText(key: string): string {
    if key == "" then "" else Quoted(key) + ": "
  }

  lemma MembersSplit(depth: nat, ms: seq<Pair<Value>>, tail: string)
    requires ms != [] && forall i :: 0 <= i < |ms| ==> Printable(ms[i].value)
    ensures "\n" + (MembersText(depth, ms) + tail)
         == ("\n" + Tabs(depth)) + (KeyText(ms[0].key) + AfterKey(depth, ms, tail))
  {
    hide Body, Tabs, Quoted, MembersText;
    MembersUnfold(depth, ms);
    KeySplits(Tabs(depth), KeyText(ms[0].key), Body(depth, ms[0].value), Separator(|ms| == 1),
              MembersText(depth, ms[1..]), tail);
    assert Head(depth, ms[0].key) == Tabs(depth) + KeyText(ms[0].key);
  }

  lemma KeySplits(tabs: string, key: string, body: string, separator: string, text: string, tail: string)
    ensures "\n" + (((tabs + key) + (body + (separator + text))) + tail)
         == ("\n" + tabs) + (key + (body + (separator + (text + tail))))
  {
    assert ((tabs + key) + (body + (separator + text))) + tail
        == (tabs + key) + (body + (separator + (text + tail)));
  }

  lemma ColonTokens(t: string, p: nat)
    requires At(t, p, ": ") && Tokens(t, p + 2)
    ensures Tokens(t, p)
  {
    hide Tokens, At;
    assert ": " == [':'] + " ";
    AtSplit(t, p, [':'], " ");
    BlankTokens(t, p + 1, " ");
    PunctuationToken(':', t, p);
  }

  lemma KeyTokens(key: string, t: string, p: nat)
    requires At(t, p, KeyText(key)) && Tokens(t, p + |KeyText(key)|)
    ensures Tokens(t, p)
  {
    hide Tokens, Quoted, Match, At;
    if key != "" {
      AtSplit(t, p, Quoted(key), ": ");
      ColonTokens(t, p + |Quoted(key)|);
      StringToken(key, t, p);
    }
  }

  lemma {:induction false} MembersTokens(depth: nat, ms: seq<Pair<Value>>, t: string, p: nat)
    requires ms != [] && forall i :: 0 <= i < |ms| ==> Printable(ms[i].value)
    requires At(t, p, "\n" + (MembersText(depth + 1, ms) + (Tabs(depth) + "}")))
    requires Tokens(t, p + |"\n" + (MembersText(depth + 1, ms) + (Tabs(depth) + "}"))|)
    ensures Tokens(t, p)
    decreases ms, 2
  {
    hide Tokens, Tabs, MembersText, At, AfterKey, KeyText, Body, Printable, Match;
    var tail := Tabs(depth) + "}";
    var key, after := KeyText(ms[0].key), AfterKey(depth + 1, ms, tail);
    MembersSplit(depth + 1, ms, tail);
    AtSplit(t, p, "\n" + Tabs(depth + 1), key + after);
    var k := p + |"\n" + Tabs(depth + 1)|;
    AtSplit(t, k, key, after);
    var q := k + |key|;
    AfterKeySplits(depth + 1, ms, tail, t, q);
    var e := q + |Body(depth + 1, ms[0].value)|;
    if |ms| == 1 {
      CloseEnd(depth, '}', t, e);
    } else {
      var more := "\n" + (MembersText(depth + 1, ms[1..]) + tail);
      AtSplit(t, e, ",", more);
      MembersTokens(depth, ms[1..], t, e + 1);
      CommaEnd(t, e, more);
    }
    ValueTokens(depth + 1, ms[0].value, t, q);
    KeyTokens(ms[0].key, t, k);
    Tail(depth + 1, '}');
    BlankTokens(t, p, "\n" + Tabs(depth + 1));
  }

  // ---------- parsing such a run ----------

  lemma {:induction false} SkipWsSafe(s: Stream)
    requires Safe(s)
    ensures Safe(SkipWs(s))
    decreases |s.text| - s.pos
  {
    hide Match, StringBody, ParseNumber;
    if s.Good() && s.pos < |s.text| && IsSpace(s.text[s.pos]) {
      SkipWsSafe(s.(pos := s.pos + 1));
    }
  }

  /** Where a good safe stream stands after blanks: at the end, or at the start of a token. */
  predicate TokenStart(t: string, q: nat) {
    q < |t| && !IsSpace(t[q]) && Tokens(t, q)
  }

  lemma TokenNotSlash(t: string, q: nat)
    requires TokenStart(t, q)
    ensures t[q] != '/' && t[q] != '\'' && t[q] != '+' && t[q] != '.'
  {
    hide Match, StringBody, ParseNumber;
  }

  lemma MatchAtEnd(pattern: string, s: Stream)
    requires pattern != "" && !SkipWs(s).Good()
    ensures Match(pattern, s) == Matched(false, SkipWs(s))
  {
    hide SkipWs;
  }

  /** A match of one punctuation character keeps the stream safe. */
  lemma MatchSafe(c: char, s: Stream)
    requires Safe(s) && IsPunctuation(c)
    ensures Safe(Match([c], s).rest)
  {
    hide Tokens, Match, SkipWs, MatchFrom;
    SkipWsSafe(s);
    var s1 := SkipWs(s);
    if s1.Good() {
      TokenNotSlash(s.text, s1.pos);
      StreamVisible(s);
      if s.text[s1.pos] == c {
        MatchHit([c], s.text, s.pos, s1.pos);
        PunctuationTokenAfter(s.text, s1.pos);
      } else {
        MatchMiss([c], s.text, s.pos, s1.pos);
      }
    } else {
      MatchAtEnd([c], s);
    }
  }

  lemma StreamVisible(s: Stream)
    requires SkipWs(s).Good()
    ensures s == Ready(s.text, s.pos) && Visible(s.text, s.pos, SkipWs(s).pos)
  {}

  lemma PunctuationTokenAfter(t: string, q: nat)
    requires TokenStart(t, q) && IsPunctuation(t[q])
    ensures Tokens(t, q + 1)
  {
    hide Match, StringBody, ParseNumber;
  }

  lemma WordAfter(pattern: string, t: string, q: nat)
    requires pattern == "true" || pattern == "false" || pattern == "null"
    requires TokenStart(t, q) && t[q] == pattern[0]
    ensures At(t, q, pattern) && Tokens(t, q + |pattern|)
  {
    hide Match, StringBody, ParseNumber;
  }

  /** A match of one of the three words keeps the stream safe. */
  lemma WordSafe(pattern: string, s: Stream)
    requires pattern == "true" || pattern == "false" || pattern == "null"
    requires Safe(s)
    ensures Safe(Match(pattern, s).rest)
  {
    hide Tokens, Match, SkipWs, MatchFrom, At;
    SkipWsSafe(s);
    var s1 := SkipWs(s);
    if s1.Good() {
      TokenNotSlash(s.text, s1.pos);
      StreamVisible(s);
      if s.text[s1.pos] == pattern[0] {
        WordAfter(pattern, s.text, s1.pos);
        MatchHit(pattern, s.text, s.pos, s1.pos);
      } else {
        MatchMiss(pattern, s.text, s.pos, s1.pos);
      }
    } else {
      MatchAtEnd(pattern, s);
    }
  }

  lemma StringAfter(t: string, q: nat)
    requires TokenStart(t, q) && t[q] == '"'
    ensures var str := StringBody(Ready(t, q + 1), '\0', '"', "");
            Safe(str.rest) && str.ok && (str.value == "" ==> !Match(":", str.rest).ok)
  {
    hide Match, StringBody, ParseNumber, At;
  }

  /** parse_string keeps the stream safe, and reads an empty string only where no colon follows. */
  lemma StringSafe(s: Stream)
    requires Safe(s)
    ensures var str := ParseString(s);
            Safe(str.rest) && (str.ok && str.value == "" ==> !Match(":", str.rest).ok)
  {
    hide Tokens, Match, SkipWs, StringBody, At;
    SkipWsSafe(s);
    var s1 := SkipWs(s);
    if s1.Good() {
      var t, q := s.text, s1.pos;
      TokenNotSlash(t, q);
      StreamVisible(s);
      if t[q] == '"' {
        StringAfter(t, q);
        assert At(t, q, "\"") by { OneChar(t, q); }
        MatchHit("\"", t, s.pos, q);
      } else {
        StringMiss(t, s.pos, q);
      }
    } else {
      MatchAtEnd("\"", s);
    }
  }

  lemma OneChar(t: string, q: nat)
    requires q < |t|
    ensures At(t, q, [t[q]])
  {}

  lemma NumberAfter(t: string, q: nat)
    requires TokenStart(t, q) && (t[q] == '-' || IsDigit(t[q]))
    ensures var number := ParseNumber(Ready(t, q)); Safe(number.1) && (number.0.Some? ==> Exact(number.0.value))
  {
    hide Match, StringBody, ParseNumber, At;
  }

  lemma NumberFromBlanks(s: Stream)
    requires SkipWs(s).Good()
    ensures ParseNumber(s) == ParseNumber(SkipWs(s))
  {
    hide ExtractNumber;
  }

  lemma NumberAtEnd(s: Stream)
    requires !SkipWs(s).Good()
    ensures ParseNumber(s).1.fail && ParseNumber(s).0.None?
  {}

  lemma NumberSafe(s: Stream)
    requires Safe(s)
    ensures var number := ParseNumber(s); Safe(number.1) && (number.0.Some? ==> Exact(number.0.value))
  {
    hide Tokens, SkipWs, ParseNumber;
    SkipWsSafe(s);
    var s1 := SkipWs(s);
    if s1.Good() {
      NumberFromBlanks(s);
      StreamVisible(s);
      TokenNotSlash(s.text, s1.pos);
      if s.text[s1.pos] == '-' || IsDigit(s.text[s1.pos]) {
        NumberAfter(s.text, s1.pos);
      } else {
        NumberMiss(s.text, s1.pos);
      }
    } else {
      NumberAtEnd(s);
    }
  }

  lemma PeekSafe(s: Stream)
    requires Safe(s)
    ensures Safe(Peek(s).1)
  {
    hide Tokens;
  }

  lemma WordsSafe(s: Stream)
    requires Safe(s)
    ensures Safe(ParseBool(s).1) && Safe(ParseNull(s).rest)
  {
    hide Tokens, Match, Safe;
    WordSafe("true", s);
    WordSafe("false", Match("true", s).rest);
    WordSafe("null", s);
    PeekSafe(Match("null", s).rest);
  }

  /** A tree without empty keys that the printer prints. */
  predicate Tidy(v: Value) {
    Named(v) && Printable(v)
  }

  predicate TidyAll(vs: seq<Value>) {
    forall i :: 0 <= i < |vs| ==> Tidy(vs[i])
  }

  predicate TidyMembers(ms: seq<Pair<Value>>) {
    forall m :: m in ms ==> m.key != "" && Tidy(m.value)
  }

  lemma {:induction false} PutTidy(ms: seq<Pair<Value>>, key: string, v: Value)
    requires TidyMembers(ms) && key != "" && Tidy(v)
    ensures TidyMembers(Put(ms, key, v))
  {
    hide Less, Tidy;
    if ms != [] && ms[0].key != key && !Less(key, ms[0].key) {
      PutTidy(ms[1..], key, v);
    }
  }

  /** parse_value on a safe stream leaves it safe and returns a tidy tree. */
  lemma {:induction false} ValueSafe(s: Stream)
    requires Safe(s)
    ensures var r := ParseValue(s); Safe(r.rest) && (r.value.Some? ==> Tidy(r.value.value))
    decreases Left(s), 1
  {
    hide Safe, Match, ParseString, ParseNumber, ParseBool, ParseNull, ParseArray, ObjectValue;
    var str := ParseString(s);
    StringSafe(s);
    var s1 := ParseNumber(str.rest).1;
    NumberSafe(str.rest);
    WordsSafe(s1);
    var s2 := ParseBool(s1).1;
    WordsSafe(s2);
    var s3 := Peek(ParseNull(s2).rest).1;
    PeekSafe(ParseNull(s2).rest);
    ArraySafe(s3);
    ObjectSafe(s3);
    ObjectSafe(ParseArray(s3).rest);
  }

  lemma {:induction false} ArraySafe(s: Stream)
    requires Safe(s)
    ensures var r := ParseArray(s); Safe(r.rest) && TidyAll(r.values)
    decreases Left(s), 0
  {
    hide Safe, Match, Items, Tidy;
    MatchSafe('[', s);
    var open := Match("[", s);
    if open.ok {
      MatchSafe(']', open.rest);
      ItemsSafe(Match("]", open.rest).rest, []);
    }
  }

  lemma {:induction false} ItemsSafe(s: Stream, values: seq<Value>)
    requires Safe(s) && TidyAll(values)
    ensures var r := Items(s, values); Safe(r.rest) && TidyAll(r.values)
    decreases Left(s), 2
  {
    hide Safe, Match, ParseValue, Tidy;
    ValueSafe(s);
    var item := ParseValue(s);
    if item.value.None? {
      MatchSafe(']', item.rest);
    } else {
      MatchSafe(',', item.rest);
      var comma := Match(",", item.rest);
      if comma.ok {
        ItemsSafe(comma.rest, values + [item.value.value]);
      } else {
        MatchSafe(']', comma.rest);
      }
    }
  }

  lemma {:induction false} ObjectSafe(s: Stream)
    requires Safe(s)
    ensures var r := ParseObject(s); Safe(r.rest) && TidyMembers(r.members)
    ensures var r := ObjectValue(s); Safe(r.rest) && (r.value.Some? ==> Tidy(r.value.value))
    decreases Left(s), 0
  {
    hide Safe, Match, Members;
    MatchSafe('{', s);
    var open := Match("{", s);
    if open.ok {
      MatchSafe('}', open.rest);
      MembersSafe(Match("}", open.rest).rest, []);
    }
  }

  lemma {:induction false} MembersSafe(s: Stream, members: seq<Pair<Value>>)
    requires Safe(s) && TidyMembers(members)
    ensures var r := Members(s, members); Safe(r.rest) && TidyMembers(r.members)
    decreases Left(s), 2
  {
    hide Safe, Match, ParseValue, ParseString, Tidy, Put, TidyMembers;
    StringSafe(s);
    var key := ParseString(s);
    if !key.ok {
      PeekSafe(key.rest);
      MatchSafe('}', Peek(key.rest).1);
    } else {
      MatchSafe(':', key.rest);
      var colon := Match(":", key.rest);
      if colon.ok {
        ValueSafe(colon.rest);
        var item := ParseValue(colon.rest);
        if item.value.None? {
          MatchSafe('}', item.rest);
        } else {
          PutTidy(members, key.value, item.value.value);
          MatchSafe(',', item.rest);
          var comma := Match(",", item.rest);
          if comma.ok {
            MembersSafe(comma.rest, Put(members, key.value, item.value.value));
          } else {
            MatchSafe('}', comma.rest);
          }
        }
      }
    }
  }

  // ---------- the exact round trip ----------

  lemma TextEnd(t: string, e: nat)
    requires |t| == e + 2 && At(t, e, " \n")
    ensures ValueEnd(t, e)
  {
    hide MatchFrom;
    AtChar(t, e, " \n", 0);
    AtChar(t, e, " \n", 1);
    BlankTokens(t, e, " \n");
    assert SkipWs(Ready(t, e + 1)) == SkipWs(Ready(t, e + 2));
    MatchAtEnd(":", Ready(t, e));
  }

  /** Whatever the parser makes of a printed value is tidy. */
  lemma PrintedParsesTidy(v: Value)
    requires Printable(v)
    ensures var t := RemoveLastComma(Tag(0, "", v));
            TidyMembers(ParseObject(Ready(t, 0)).members) && TidyAll(ParseArray(Ready(t, 0)).values)
  {
    hide RemoveLastComma, Tag, Body, ParseObject, ParseArray, Tokens, TidyMembers, TidyAll;
    var t := RemoveLastComma(Tag(0, "", v));
    JsonText(v);
    assert At(t, 0, Body(0, v) + " \n");
    AtSplit(t, 0, Body(0, v), " \n");
    TextEnd(t, |Body(0, v)|);
    ValueTokens(0, v, t, 0);
    ObjectSafe(Ready(t, 0));
    ArraySafe(Ready(t, 0));
  }

  /** Object::json() parses back to the same tree exactly when no key in the tree is empty. */
  lemma ObjectRoundTrip(ms: seq<Pair<Value>>)
    requires Printable(JObject(ms)) && Ordered(JObject(ms))
    ensures ParseObjectText(ObjectJson(ms)) == Some(ms) <==> Named(JObject(ms))
  {
    hide RemoveLastComma, Tag, Body, ParseObject, Printable, Ordered;
    var t := ObjectJson(ms);
    PrintedParsesTidy(JObject(ms));
    if Named(JObject(ms)) {
      JsonText(JObject(ms));
      assert At(t, 0, Body(0, JObject(ms)) + " \n");
      AtSplit(t, 0, Body(0, JObject(ms)), " \n");
      ObjectReads(0, ms, t, 0);
    } else if ParseObjectText(t) == Some(ms) {
      forall i | 0 <= i < |ms| ensures ms[i].key != "" && Named(ms[i].value) {
        assert ms[i] in ms;
      }
      assert false;
    }
  }

  /** The same for Array::json(). */
  lemma ArrayRoundTrip(vs: seq<Value>)
    requires Printable(JArray(vs)) && Ordered(JArray(vs))
    ensures ParseArrayText(ArrayJson(vs)) == Some(vs) <==> Named(JArray(vs))
  {
    hide RemoveLastComma, Tag, Body, ParseArray, Printable, Ordered;
    var t := ArrayJson(vs);
    PrintedParsesTidy(JArray(vs));
    if Named(JArray(vs)) {
      JsonText(JArray(vs));
      assert At(t, 0, Body(0, JArray(vs)) + " \n");
      AtSplit(t, 0, Body(0, JArray(vs)), " \n");
      ArrayReads(0, vs, t, 0);
    }
  }
}
