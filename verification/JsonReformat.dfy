/** reformat: parse a text and print the tree again. */
module JsonReformat {
  import opened Text
  import opened JsonStream
  import opened JsonGrammar
  import opened JsonPrinter
  import opened JsonLexing
  import opened JsonRoundTrip
  import opened JsonSafety
  import opened JsonInjective
  import opened JsonInput
  import opened JsonReading
  import D = JsonDocuments
  import JsonParser

  // ---------- a parsed tree is a tree of std::maps ----------

  predicate OrderedAll(vs: seq<Value>) {
    forall i :: 0 <= i < |vs| ==> Ordered(vs[i])
  }

  predicate OrderedMembers(ms: seq<Pair<Value>>) {
    Sorted(ms) && forall m :: m in ms ==> Ordered(m.value)
  }

  lemma PutOrdered(ms: seq<Pair<Value>>, key: string, v: Value)
    requires OrderedMembers(ms) && Ordered(v)
    ensures OrderedMembers(Put(ms, key, v))
  {
    hide Put, Sorted, Ordered;
    PutSorted(ms, key, v);
    forall m | m in Put(ms, key, v) ensures Ordered(m.value) {
      PutMembers(ms, key, v, m);
    }
  }

  /** On every text, parse_value returns objects whose keys are sorted and distinct. */
  lemma {:induction false} ValueOrdered(s: Stream)
    ensures var r := ParseValue(s); r.value.Some? ==> Ordered(r.value.value)
    decreases Left(s), 1
  {
    hide Match, ParseString, ParseNumber, ParseBool, ParseNull, ParseArray, ObjectValue;
    var s1 := ParseNumber(ParseString(s).rest).1;
    var s3 := Peek(ParseNull(ParseBool(s1).1).rest).1;
    ArrayOrdered(s3);
    ObjectOrdered(s3);
    ObjectOrdered(ParseArray(s3).rest);
  }

  lemma {:induction false} ArrayOrdered(s: Stream)
    ensures OrderedAll(ParseArray(s).values)
    decreases Left(s), 0
  {
    hide Match, Items, Ordered;
    var open := Match("[", s);
    if open.ok {
      ItemsOrdered(Match("]", open.rest).rest, []);
    }
  }

  lemma {:induction false} ItemsOrdered(s: Stream, values: seq<Value>)
    requires OrderedAll(values)
    ensures OrderedAll(Items(s, values).values)
    decreases Left(s), 2
  {
    hide Match, ParseValue, Ordered;
    ValueOrdered(s);
    var item := ParseValue(s);
    if item.value.Some? {
      var comma := Match(",", item.rest);
      if comma.ok {
        ItemsOrdered(comma.rest, values + [item.value.value]);
      }
    }
  }

  lemma {:induction false} ObjectOrdered(s: Stream)
    ensures OrderedMembers(ParseObject(s).members)
    ensures var r := ObjectValue(s); r.value.Some? ==> Ordered(r.value.value)
    decreases Left(s), 0
  {
    hide Match, Members;
    var open := Match("{", s);
    if open.ok {
      MembersOrdered(Match("}", open.rest).rest, []);
    }
  }

  lemma {:induction false} MembersOrdered(s: Stream, members: seq<Pair<Value>>)
    requires OrderedMembers(members)
    ensures OrderedMembers(Members(s, members).members)
    decreases Left(s), 2
  {
    hide Match, ParseValue, ParseString, Put, OrderedMembers;
    var key := ParseString(s);
    if key.ok {
      var colon := Match(":", key.rest);
      if colon.ok {
        ValueOrdered(colon.rest);
        var item := ParseValue(colon.rest);
        if item.value.Some? {
          PutOrdered(members, key.value, item.value.value);
          var comma := Match(",", item.rest);
          if comma.ok {
            MembersOrdered(comma.rest, Put(members, key.value, item.value.value));
          }
        }
      }
    }
  }

  // ---------- reformat ----------

  /** The loop that drops characters up to the blank; the end of the text counts as one. */
  function Trim(s: Stream): (r: Stream)
    requires s.fail ==> s.eof
    ensures r.text == s.text && (r.fail ==> r.eof)
    decreases |s.text| - s.pos, !s.eof
  {
    if s.eof then s
    else
      var (c, s1) := Peek(s);
      if c == None || c.value <= ' ' then Trim(Get('\0', s1).1) else s1
  }

  /** The tree reformat finds in a text. */
  function Tree(text: string): (r: Option<Value>)
    ensures r.Some? ==> r.value.JObject? || r.value.JArray?
  {
    var (c, s) := Peek(Trim(Ready(text, 0)));
    if c == Some('{') then
      var obj := ParseObject(s);
      if obj.ok then Some(JObject(obj.members)) else None
    else if c == Some('[') then
      var arr := ParseArray(s);
      if arr.ok then Some(JArray(arr.values)) else None
    else None
  }

  function Reformatted(text: string): (r: string)
    requires Tree(text).Some? ==> Printable(Tree(text).value)
  {
    match Tree(text)
    case Some(JObject(ms)) => ObjectJson(ms)
    case Some(JArray(vs)) => ArrayJson(vs)
    case None => ""
  }

  method Reformat(text: string) returns (r: string)
    requires Tree(text).Some? ==> Printable(Tree(text).value)
    ensures r == Reformatted(text)
  {
    hide ParseObject, ParseArray, Printable, Tag, RemoveLastComma;
    var input := new InputStream(text);
    var more := !input.eof;
    while more
      invariant input.Valid() && fresh(input) && input.text == text
      invariant more ==> !input.eof && !input.fail
      invariant if more then Trim(input.State()) == Trim(Ready(text, 0)) else input.State() == Trim(Ready(text, 0))
      decreases more, |text| - input.pos, !input.eof
    {
      var c := input.Peek();
      if c == None || c.value <= ' ' {
        var _ := input.Get('\0');
        more := !input.eof;
      } else {
        more := false;
      }
    }
    var c := input.Peek();
    if c == Some('{') {
      var ok, members := JsonParser.ParseObject(input);
      if ok {
        var printed := PrintTag(0, "", JObject(members));
        return RemoveLastComma(printed);
      }
    } else if c == Some('[') {
      var ok, values := JsonParser.ParseArray(input);
      if ok {
        var printed := PrintTag(0, "", JArray(values));
        return RemoveLastComma(printed);
      }
    }
    r := "";
  }

  lemma TreeOrdered(text: string)
    requires Tree(text).Some?
    ensures Ordered(Tree(text).value)
  {
    hide ParseObject, ParseArray;
    var s := Peek(Trim(Ready(text, 0))).1;
    ObjectOrdered(s);
    ArrayOrdered(s);
  }

  lemma TreeOfJson(v: Value)
    requires Printable(v) && (v.JObject? || v.JArray?)
    ensures var t := RemoveLastComma(Tag(0, "", v));
            Tree(t) == if v.JObject?
                       then (match ParseObjectText(t) case Some(ms) => Some(JObject(ms)) case None => None)
                       else (match ParseArrayText(t) case Some(vs) => Some(JArray(vs)) case None => None)
  {
    hide ParseObject, ParseArray, RemoveLastComma, Tag;
    var t := RemoveLastComma(Tag(0, "", v));
    JsonText(v);
    assert t[0] == if v.JObject? then '{' else '[';
    assert Trim(Ready(t, 0)) == Ready(t, 0);
  }

  /** reformat keeps the tree it parsed exactly when that tree has no empty key. */
  lemma ReformatKeepsTree(text: string)
    requires Tree(text).Some? && Printable(Tree(text).value)
    ensures Tree(Reformatted(text)) == Tree(text) <==> Named(Tree(text).value)
  {
    hide Tree, ParseObject, ParseArray, RemoveLastComma, Tag, Printable, Ordered, Named;
    TreeOrdered(text);
    TreeOfJson(Tree(text).value);
    match Tree(text) {
      case Some(JObject(ms)) => ObjectRoundTrip(ms);
      case Some(JArray(vs)) => ArrayRoundTrip(vs);
    }
  }

  /** Whatever is parsed from a reformatted text has no empty key and can be printed. */
  lemma ReformatTidy(text: string)
    requires Tree(text).Some? ==> Printable(Tree(text).value)
    ensures var once := Reformatted(text); Tree(once).Some? ==> Tidy(Tree(once).value)
  {
    hide Tree, ParseObject, ParseArray, RemoveLastComma, Tag;
    if Tree(text).Some? {
      TreeOfJson(Tree(text).value);
      PrintedParsesTidy(Tree(text).value);
    } else {
      assert Tree("").None? by { EmptyTree(); }
    }
  }

  lemma EmptyTree()
    ensures Tree("").None?
  {
    assert Trim(Ready("", 0)).eof;
  }

  lemma ReformattedInjective(text: string, other: string)
    requires Tree(text).Some? && Printable(Tree(text).value)
    requires Tree(other).Some? && Printable(Tree(other).value)
    requires Reformatted(text) == Reformatted(other)
    ensures Tree(text) == Tree(other)
  {
    hide Tree, Printable, Tag, RemoveLastComma;
    TextInjective(Tree(text).value, Tree(other).value);
  }

  lemma ReformattedSome(text: string)
    requires Tree(text).Some? && Printable(Tree(text).value)
    ensures Reformatted(text) != ""
  {
    hide Tree, Printable, Tag, RemoveLastComma;
    JsonText(Tree(text).value);
  }

  /** Reformatting a text twice gives the same as once exactly when the text has no tree, or one
      without empty keys. */
  lemma ReformatIdempotent(text: string)
    requires Tree(text).Some? ==> Printable(Tree(text).value)
    ensures var once := Reformatted(text);
            && (Tree(once).Some? ==> Printable(Tree(once).value))
            && (Reformatted(once) == once <==> (Tree(text).Some? ==> Named(Tree(text).value)))
  {
    hide Tree, Printable, Named, ObjectJson, ArrayJson, Reformatted;
    var once := Reformatted(text);
    ReformatTidy(text);
    if Tree(text).None? {
      NothingReformatted(text);
    } else if Named(Tree(text).value) {
      ReformatKeepsTree(text);
      SameTree(text, once);
    } else if Tree(once).Some? {
      if Reformatted(once) == once { ReformattedInjective(text, once); }
    } else {
      ReformattedSome(text);
      NothingFound(once);
    }
  }

  lemma NothingFound(text: string)
    requires Tree(text).None?
    ensures Reformatted(text) == ""
  {
    hide Tree;
  }

  lemma NothingReformatted(text: string)
    requires Tree(text).None?
    ensures Reformatted(text) == "" && Tree("").None? && Reformatted("") == ""
  {
    NothingFound(text);
    EmptyTree();
    NothingFound("");
  }

  lemma SameTree(text: string, other: string)
    requires Tree(text) == Tree(other) && (Tree(text).Some? ==> Printable(Tree(text).value))
    ensures Reformatted(text) == Reformatted(other)
  {
    hide Tree;
  }

  /** From the second time on reformatting changes nothing, on every text. */
  lemma ReformatSettles(text: string)
    requires Tree(text).Some? ==> Printable(Tree(text).value)
    ensures var once := Reformatted(text);
            && (Tree(once).Some? ==> Printable(Tree(once).value))
            && var twice := Reformatted(once);
               && (Tree(twice).Some? ==> Printable(Tree(twice).value))
               && Reformatted(twice) == twice
  {
    hide Tree, Printable, Named, Reformatted;
    ReformatTidy(text);
    ReformatIdempotent(Reformatted(text));
  }

  // ---------- any text ----------

  lemma {:induction false} TrimSkips(before: string, t: string, p: nat)
    requires At(t, p, before) && forall c :: c in before ==> c <= ' '
    requires p + |before| < |t| && t[p + |before|] > ' '
    ensures Trim(Ready(t, p)) == Ready(t, p + |before|)
    decreases |before|
  {
    if before != "" {
      assert before[0] in before && before == [before[0]] + before[1..];
      AtHead(t, p, before[0], before[1..]);
      forall c | c in before[1..] ensures c <= ' ' { assert c in before; }
      TrimSkips(before[1..], t, p + 1);
    }
  }

  /** In a text of an object or array, in any layout, after any control characters and blanks and
      before anything else, reformat finds the tree the text stands for. */
  lemma ReformatReads(before: string, d: D.Doc, after: string)
    requires (forall c :: c in before ==> c <= ' ') && (d.ObjectDoc? || d.ArrayDoc?) && D.Proper(d)
    ensures Tree(before + (D.Write(d) + after)) == Some(D.Meaning(d))
  {
    hide ParseObject, ParseArray, D.ItemsText, D.MembersText, Trim;
    var t, q := before + (D.Write(d) + after), |before|;
    assert t[0..|t|] == t;
    AtSplit(t, 0, before, D.Write(d) + after);
    AtSplit(t, q, D.Write(d), after);
    AtChar(t, q, D.Write(d), 0);
    TrimSkips(before, t, 0);
    if d.ObjectDoc? { ObjectDocReads(d, t, q); } else { ArrayDocReads(d, t, q); }
  }
}
