/** What becomes of a printed object with an empty key: one of its own is reported, one in a member
    that is itself an object is lost without a word when a single string stands under it. */
module JsonLoss {
  import opened Text
  import opened JsonStream
  import opened JsonGrammar
  import opened JsonPrinter
  import opened JsonLexing
  import opened JsonRoundTrip
  import opened JsonSafety
  import opened JsonInjective

  /** An object that is one string under an empty key prints as a string in braces. */
  predicate LoneString(ms: seq<Pair<Value>>) {
    |ms| == 1 && ms[0].key == "" && ms[0].value.JString?
  }

  lemma AfterKeyStarts(depth: nat, ms: seq<Pair<Value>>, tail: string)
    requires ms != [] && forall i :: 0 <= i < |ms| ==> Printable(ms[i].value)
    ensures AfterKey(depth, ms, tail) != "" && Starter(AfterKey(depth, ms, tail)[0])
  {
    BodyStarts(depth, ms[0].value);
  }

  lemma MembersPrintable(ms: seq<Pair<Value>>)
    requires Printable(JObject(ms))
    ensures forall i :: 0 <= i < |ms| ==> Printable(ms[i].value)
  {}

  /** The braces and blanks before the first value, which has no key. */
  lemma FirstValue(depth: nat, ms: seq<Pair<Value>>, t: string, q: nat) returns (k: nat)
    requires Printable(JObject(ms)) && At(t, q, Body(depth, JObject(ms)))
    requires ms != [] && ms[0].key == ""
    ensures q < |t| && k < |t|
    ensures Match("{", Ready(t, q)) == Matched(true, Ready(t, q + 1))
    ensures Match("}", Ready(t, q + 1)) == Matched(false, Ready(t, k))
    ensures Visible(t, k, k) && Starter(t[k]) && At(t, k, AfterKey(depth + 1, ms, Tabs(depth) + "}"))
  {
    hide Match, SkipWs, Visible, Tabs, MembersText, At, AfterKey, Printable;
    MembersPrintable(ms);
    var tail := Tabs(depth) + "}";
    var after := AfterKey(depth + 1, ms, tail);
    AfterKeyStarts(depth + 1, ms, tail);
    var inner := ObjectInside(depth, ms, t, q);
    assert Body(depth, JObject(ms)) == "{" + inner;
    CharNext('{', t, q, inner);
    assert KeyText("") + after == after;
    Tail(depth + 1, '}');
    BlankRun(t, q + 1, "\n" + Tabs(depth + 1), after);
    k := q + 1 + |"\n" + Tabs(depth + 1)|;
    AtChar(t, k, after, 0);
    MatchMiss("}", t, q + 1, k);
    StillVisible(t, q + 1, k);
  }

  /** A lone string is taken for a key, and then the colon is missing. */
  lemma StringStuck(depth: nat, ms: seq<Pair<Value>>, t: string, k: nat) returns (r: nat)
    requires ms != [] && forall i :: 0 <= i < |ms| ==> Printable(ms[i].value)
    requires ms[0].value.JString? && Visible(t, k, k) && At(t, k, AfterKey(depth + 1, ms, Tabs(depth) + "}"))
    ensures r < |t| && !IsSpace(t[r]) && t[r] != '/' && (t[r] == '}' <==> |ms| == 1)
    ensures Members(Ready(t, k), []) == ParsedObject(false, [], Ready(t, r))
  {
    hide Match, SkipWs, Visible, Tabs, MembersText, At, Quoted, ParseString, ParseValue;
    var tail := Tabs(depth) + "}";
    AfterKeySplits(depth + 1, ms, tail, t, k);
    QuotedReads(ms[0].value.s, t, k, k);
    var e := k + |Quoted(ms[0].value.s)|;
    if |ms| == 1 {
      Tail(depth, '}');
      assert " \n" + tail == (" \n" + Tabs(depth)) + "}";
      BlankRun(t, e, " \n" + Tabs(depth), "}");
      r := e + |" \n" + Tabs(depth)|;
      AtChar(t, r, "}", 0);
    } else {
      var more := "\n" + (MembersText(depth + 1, ms[1..]) + tail);
      CharAt(t, e, ',', more);
      r := e;
      Here(t, e);
    }
    MatchMiss(":", t, e, r);
  }

  lemma NoStringStuck(t: string, k: nat)
    requires Visible(t, k, k) && Starter(t[k]) && t[k] != '"'
    ensures Members(Ready(t, k), []) == ParsedObject(false, [], Ready(t, k))
  {
    hide Match, SkipWs, ParseString;
    StringMiss(t, k, k);
  }

  /** Where the parser gives up on a printed object that begins with an empty key. */
  lemma ObjectStuck(depth: nat, ms: seq<Pair<Value>>, t: string, q: nat) returns (r: nat)
    requires Printable(JObject(ms)) && At(t, q, Body(depth, JObject(ms)))
    requires ms != [] && ms[0].key == ""
    ensures r < |t| && !IsSpace(t[r]) && t[r] != '/' && (t[r] == '}' <==> LoneString(ms))
    ensures ParseObject(Ready(t, q)) == ParsedObject(false, [], Ready(t, r))
  {
    hide Match, Members, SkipWs, Visible, Tabs, MembersText, At, AfterKey, Body;
    var k := FirstValue(depth, ms, t, q);
    if ms[0].value.JString? {
      r := StringStuck(depth, ms, t, k);
    } else {
      AfterKeySplits(depth + 1, ms, Tabs(depth) + "}", t, k);
      BodyOpens(depth + 1, ms[0].value, t, k);
      NoStringStuck(t, k);
      r := k;
    }
  }

  /** An object with an empty key of its own is never parsed back: std::map puts that key first. */
  lemma OwnEmptyKeyRejected(ms: seq<Pair<Value>>, i: nat)
    requires Printable(JObject(ms)) && Sorted(ms) && i < |ms| && ms[i].key == ""
    ensures ParseObjectText(ObjectJson(ms)) == None
  {
    hide RemoveLastComma, Tag, Body, ParseObject, Printable;
    assert i > 0 ==> Less(ms[0].key, ms[i].key);
    var t := ObjectJson(ms);
    JsonText(JObject(ms));
    assert At(t, 0, Body(0, JObject(ms)) + " \n");
    AtSplit(t, 0, Body(0, JObject(ms)), " \n");
    var _ := ObjectStuck(0, ms, t, 0);
  }

  // ---------- a member that is such an object ----------

  /** The object loop reads the clean members before position i and stores them. */
  lemma {:induction false} MembersUpTo(depth: nat, done: seq<Pair<Value>>, ms: seq<Pair<Value>>, i: nat,
                                       t: string, p: nat, q: nat) returns (p1: nat, q1: nat)
    requires i < |ms| && forall j :: 0 <= j < |ms| ==> Printable(ms[j].value)
    requires forall j :: 0 <= j < i ==> Clean(ms[j].value)
    requires forall j :: 0 <= j <= i ==> ms[j].key != ""
    requires Sorted(done + ms)
    requires Visible(t, p, q) && At(t, q, MemberText(depth + 1, ms, Tabs(depth) + "}"))
    ensures Visible(t, p1, q1) && At(t, q1, MemberText(depth + 1, ms[i..], Tabs(depth) + "}"))
    ensures Members(Ready(t, p), done) == Members(Ready(t, p1), done + ms[..i])
    decreases i
  {
    hide Match, ParseValue, ParseString, Members, CloseObject, SkipWs, Visible, Tabs, Body, MembersText, MemberText,
         AfterKey, Clean, Printable, Put, Quoted, Less, At;
    if i == 0 {
      p1, q1 := p, q;
      assert ms[0..] == ms && done + ms[..0] == done;
    } else {
      var tail := Tabs(depth) + "}";
      var c := KeyReads(depth + 1, ms, tail, t, p, q);
      var e := c + |Body(depth + 1, ms[0].value)|;
      AfterKeySplits(depth + 1, ms, tail, t, c);
      ValueReads(depth + 1, ms[0].value, t, c - 1, c);
      MembersStep(Ready(t, p), done);
      StoreNext(done, ms);
      CharNext(',', t, e, "\n" + (MembersText(depth + 1, ms[1..]) + tail));
      var q2 := MemberStarts(depth + 1, ms[1..], tail, t, e + 1);
      p1, q1 := MembersUpTo(depth, done + [ms[0]], ms[1..], i - 1, t, e + 1, q2);
      assert ms[1..][i - 1..] == ms[i..] && (done + [ms[0]]) + ms[1..][..i - 1] == done + ms[..i];
    }
  }

  /** The loop ends at a member that begins with an empty key, and the next brace, which is the inner
      object's, passes for the outer one. */
  lemma MemberStuck(depth: nat, done: seq<Pair<Value>>, ms: seq<Pair<Value>>, inner: seq<Pair<Value>>,
                    t: string, p: nat, q: nat)
    requires ms != [] && forall j :: 0 <= j < |ms| ==> Printable(ms[j].value)
    requires ms[0].key != "" && ms[0].value == JObject(inner) && inner != [] && inner[0].key == ""
    requires Visible(t, p, q) && At(t, q, MemberText(depth + 1, ms, Tabs(depth) + "}"))
    ensures var r := Members(Ready(t, p), done); r.ok == LoneString(inner) && r.members == done
  {
    hide Match, ParseValue, ParseString, Members, SkipWs, Visible, Tabs, Body, MembersText, MemberText,
         AfterKey, Quoted, At, ParseObject;
    var tail := Tabs(depth) + "}";
    var c := KeyReads(depth + 1, ms, tail, t, p, q);
    AfterKeySplits(depth + 1, ms, tail, t, c);
    var r := ObjectStuck(depth + 1, inner, t, c);
    BodyOpens(depth + 1, ms[0].value, t, c);
    OpensObject(t, c - 1, c);
    MembersStep(Ready(t, p), done);
    Here(t, r);
    if t[r] == '}' {
      OneChar(t, r);
      MatchHit("}", t, r, r);
    } else {
      MatchMiss("}", t, r, r);
    }
  }

  /** The opening brace and the clean members of a printed object. */
  lemma ObjectUpTo(ms: seq<Pair<Value>>, i: nat, t: string) returns (p: nat, q: nat)
    requires Printable(JObject(ms)) && Sorted(ms) && At(t, 0, Body(0, JObject(ms)))
    requires i < |ms| && forall j :: 0 <= j < i ==> Clean(ms[j].value)
    requires forall j :: 0 <= j <= i ==> ms[j].key != ""
    ensures forall j :: 0 <= j < |ms| ==> Printable(ms[j].value)
    ensures Visible(t, p, q) && At(t, q, MemberText(1, ms[i..], Tabs(0) + "}"))
    ensures var r := Members(Ready(t, p), ms[..i]); ParseObject(Ready(t, 0)) == ParsedObject(r.ok, r.members, r.rest)
  {
    hide Match, Members, SkipWs, Visible, Tabs, MembersText, MemberText, AfterKey, KeyText, Less, At, Clean, Printable;
    MembersPrintable(ms);
    var text := ObjectInside(0, ms, t, 0);
    assert Body(0, JObject(ms)) == "{" + text;
    CharNext('{', t, 0, text);
    var q0 := MemberStarts(1, ms, Tabs(0) + "}", t, 1);
    MatchMiss("}", t, 1, q0);
    StillVisible(t, 1, q0);
    assert [] + ms == ms && [] + ms[..i] == ms[..i];
    p, q := MembersUpTo(0, [], ms, i, t, q0, q0);
  }

  /** When the first member that is not clean is an object with an empty key of its own, that member
      and all after it are dropped: without an error if a single string stands under the empty key,
      and else with one. */
  lemma MemberLost(ms: seq<Pair<Value>>, i: nat, inner: seq<Pair<Value>>)
    requires Printable(JObject(ms)) && Sorted(ms)
    requires i < |ms| && forall j :: 0 <= j < i ==> Clean(ms[j].value)
    requires forall j :: 0 <= j <= i ==> ms[j].key != ""
    requires ms[i].value == JObject(inner) && inner != [] && inner[0].key == ""
    ensures ParseObjectText(ObjectJson(ms)) == if LoneString(inner) then Some(ms[..i]) else None
  {
    hide RemoveLastComma, Tag, ParseObject, Body, Members, Visible, MemberText, Less, At, Clean, Printable, LoneString;
    var t := ObjectJson(ms);
    JsonText(JObject(ms));
    WholeAt(t);
    AtSplit(t, 0, Body(0, JObject(ms)), " \n");
    var p, q := ObjectUpTo(ms, i, t);
    assert ms[i..][0] == ms[i];
    MemberStuck(0, ms[..i], ms[i..], inner, t, p, q);
  }

  lemma WholeAt(t: string)
    ensures At(t, 0, t)
  {
    assert t[0..|t|] == t;
  }

  /** The smallest such loss: {"a": {"": "x"}} prints, and parses without an error to {}. */
  lemma SilentLoss()
    ensures ParseObjectText(ObjectJson([Pair("a", JObject([Pair("", JString("x"))]))])) == Some([])
  {
    hide ParseObjectText, ObjectJson, RemoveLastComma, Tag;
    var inner := [Pair("", JString("x"))];
    MemberLost([Pair("a", JObject(inner))], 0, inner);
  }
}
