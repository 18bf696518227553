/** Module::replaceVars: each variable in turn, in key order, replaces "%key" everywhere. */
module ReplaceVars {
  import opened Text

  /** boost::replace_all: leftmost matches, not rescanning what was put in. */
  function ReplaceAll(s: string, pattern: string, value: string): string
    requires pattern != ""
  {
    if s == "" then ""
    else if pattern <= s then value + ReplaceAll(s[|pattern|..], pattern, value)
    else [s[0]] + ReplaceAll(s[1..], pattern, value)
  }

  function Replace(text: string, vars: seq<Pair<string>>): string
    decreases |vars|
  {
    if vars == [] then text else Replace(ReplaceAll(text, "%" + vars[0].key, vars[0].value), vars[1..])
  }

  method ReplaceVars(text: string, vars: seq<Pair<string>>) returns (result: string)
    ensures result == Replace(text, vars)
  {
    result := text;
    for i := 0 to |vars|
      invariant Replace(result, vars[i..]) == Replace(text, vars)
    {
      assert vars[i..][0] == vars[i] && vars[i..][1..] == vars[i + 1..];
      result := ReplaceAll(result, "%" + vars[i].key, vars[i].value);
    }
  }

  /** The leftmost match is replaced, and what follows it is treated the same way. */
  lemma {:induction false} ReplaceLeftmost(s: string, pattern: string, value: string, i: nat)
    requires pattern != "" && At(s, i, pattern) && forall j :: 0 <= j < i ==> !At(s, j, pattern)
    ensures ReplaceAll(s, pattern, value) == s[..i] + value + ReplaceAll(s[i + |pattern|..], pattern, value)
    decreases i
  {
    AtStart(s, pattern);
    if i > 0 {
      forall j | 0 <= j < |s| ensures At(s[1..], j, pattern) <==> At(s, j + 1, pattern) { AtTail(s, j, pattern); }
      ReplaceLeftmost(s[1..], pattern, value, i - 1);
      assert s[1..][i - 1 + |pattern|..] == s[i + |pattern|..] && s[..i] == [s[0]] + s[1..][..i - 1];
    }
  }

  /** Without a match nothing changes. */
  lemma {:induction false} ReplaceNothing(s: string, pattern: string, value: string)
    requires pattern != "" && forall j :: 0 <= j < |s| ==> !At(s, j, pattern)
    ensures ReplaceAll(s, pattern, value) == s
  {
    hide At;
    if s != "" {
      AtStart(s, pattern);
      forall j | 0 <= j < |s| - 1 ensures !At(s[1..], j, pattern) {
        assert !At(s, j + 1, pattern);
        AtTail(s, j, pattern);
      }
      ReplaceNothing(s[1..], pattern, value);
    }
  }

  lemma AtStart(s: string, pattern: string)
    ensures pattern <= s <==> At(s, 0, pattern)
  {
    if |pattern| <= |s| { assert s[0..|pattern|] == s[..|pattern|]; }
  }

  lemma AtTail(s: string, j: nat, pattern: string)
    requires j < |s|
    ensures At(s[1..], j, pattern) <==> At(s, j + 1, pattern)
  {
    if j + 1 + |pattern| <= |s| { assert s[1..][j..j + |pattern|] == s[j + 1..j + 1 + |pattern|]; }
  }

  // ---------- templates ----------

  /** A template is made of literal text and references to variables. */
  datatype Piece = Lit(text: string) | Ref(name: string)

  function Show(t: seq<Piece>): string {
    if t == [] then ""
    else (match t[0] case Lit(w) => w case Ref(n) => "%" + n) + Show(t[1..])
  }

  /** The value of the first variable with the name. */
  function Lookup(vars: seq<Pair<string>>, name: string): Option<string> {
    if vars == [] then None else if vars[0].key == name then Some(vars[0].value) else Lookup(vars[1..], name)
  }

  /** All references filled in at once; an unknown one stays as it is written. */
  function Render(t: seq<Piece>, vars: seq<Pair<string>>): string {
    if t == [] then ""
    else
      (match t[0]
       case Lit(w) => w
       case Ref(n) => (match Lookup(vars, n) case Some(v) => v case None => "%" + n)) + Render(t[1..], vars)
  }

  predicate ProperPrefix(a: string, b: string) {
    a <= b && a != b
  }

  /** Literals and names carry no percent sign, and the key fits none of the other names partly. */
  predicate Fits(t: seq<Piece>, key: string) {
    forall i :: 0 <= i < |t| ==>
      match t[i]
      case Lit(w) => '%' !in w
      case Ref(n) => '%' !in n && !ProperPrefix(n, key) && !ProperPrefix(key, n)
  }

  function Fill(t: seq<Piece>, key: string, value: string): (r: seq<Piece>)
    ensures |r| == |t|
    ensures forall i :: 0 <= i < |t| ==> r[i] == (if t[i] == Ref(key) then Lit(value) else t[i])
  {
    if t == [] then [] else [if t[0] == Ref(key) then Lit(value) else t[0]] + Fill(t[1..], key, value)
  }

  /** Nothing is replaced in text without a percent sign. */
  lemma {:induction false} PlainText(w: string, rest: string, key: string, value: string)
    requires '%' !in w
    ensures ReplaceAll(w + rest, "%" + key, value) == w + ReplaceAll(rest, "%" + key, value)
  {
    if w == "" {
      assert w + rest == rest;
      assert w + ReplaceAll(rest, "%" + key, value) == ReplaceAll(rest, "%" + key, value);
    } else {
      assert w[0] in w && (w + rest)[0] == w[0] && ("%" + key)[0] == '%';
      assert (w + rest)[1..] == w[1..] + rest;
      PlainText(w[1..], rest, key, value);
      assert w == [w[0]] + w[1..];
    }
  }

  lemma HitReference(key: string, rest: string, value: string)
    ensures ReplaceAll("%" + key + rest, "%" + key, value) == value + ReplaceAll(rest, "%" + key, value)
  {
    var s := "%" + key + rest;
    assert "%" + key <= s && s[|"%" + key|..] == rest;
  }

  lemma PrefixCompare(name: string, rest: string, key: string)
    requires "%" + key <= "%" + name + rest
    ensures key <= name || name <= key
  {
    var s := "%" + name + rest;
    assert s == "%" + (name + rest);
    assert key == ("%" + key)[1..] == s[1..][..|key|] == (name + rest)[..|key|];
    if |key| <= |name| {
      assert key == name[..|key|];
    } else {
      assert name == key[..|name|];
    }
  }

  lemma MissReference(name: string, rest: string, key: string, value: string)
    requires '%' !in name && name != key && !ProperPrefix(name, key) && !ProperPrefix(key, name)
    ensures ReplaceAll("%" + name + rest, "%" + key, value) == "%" + name + ReplaceAll(rest, "%" + key, value)
  {
    var s := "%" + name + rest;
    if "%" + key <= s {
      PrefixCompare(name, rest, key);
      assert false;
    }
    assert s[1..] == name + rest;
    PlainText(name, rest, key, value);
    assert "%" + (name + ReplaceAll(rest, "%" + key, value)) == "%" + name + ReplaceAll(rest, "%" + key, value);
  }

  /** Replacing one key fills exactly its references. */
  lemma {:induction false} ReplaceFills(t: seq<Piece>, key: string, value: string)
    requires Fits(t, key)
    ensures ReplaceAll(Show(t), "%" + key, value) == Show(Fill(t, key, value))
  {
    hide ReplaceAll;
    if t == [] {
      PlainText("", "", key, value);
      EmptyReplace(key, value);
    } else {
      ReplaceFills(t[1..], key, value);
      match t[0] {
        case Lit(w) => PlainText(w, Show(t[1..]), key, value);
        case Ref(n) =>
          if n == key {
            HitReference(key, Show(t[1..]), value);
          } else {
            MissReference(n, Show(t[1..]), key, value);
          }
      }
    }
  }

  lemma EmptyReplace(key: string, value: string)
    ensures ReplaceAll("", "%" + key, value) == ""
  {}

  predicate AllFit(t: seq<Piece>, vars: seq<Pair<string>>) {
    forall j :: 0 <= j < |vars| ==> Fits(t, vars[j].key) && '%' !in vars[j].value
  }

  lemma {:induction false} FillRenders(t: seq<Piece>, p: Pair<string>, vars: seq<Pair<string>>)
    ensures Render(Fill(t, p.key, p.value), vars) == Render(t, [p] + vars)
  {
    if t != [] {
      FillRenders(t[1..], p, vars);
      assert ([p] + vars)[1..] == vars;
    }
  }

  lemma {:induction false} RenderNothing(t: seq<Piece>)
    ensures Render(t, []) == Show(t)
  {
    if t != [] { RenderNothing(t[1..]); }
  }

  /** When no key and no reference name is a proper prefix of another, replacing key after key is
      filling in all references at once. */
  lemma {:induction false} ReplaceIsRender(t: seq<Piece>, vars: seq<Pair<string>>)
    requires AllFit(t, vars)
    ensures Replace(Show(t), vars) == Render(t, vars)
    decreases |vars|
  {
    hide Fits, ReplaceAll, Render, Show, Fill;
    if vars == [] {
      RenderNothing(t);
    } else {
      var p := vars[0];
      ReplaceFills(t, p.key, p.value);
      forall j | 0 <= j < |vars[1..]|
        ensures Fits(Fill(t, p.key, p.value), vars[1..][j].key) && '%' !in vars[1..][j].value {
        assert vars[1..][j] == vars[j + 1];
        FillFits(t, p, vars[j + 1].key);
      }
      ReplaceIsRender(Fill(t, p.key, p.value), vars[1..]);
      FillRenders(t, p, vars[1..]);
      assert [p] + vars[1..] == vars;
    }
  }

  lemma FillFits(t: seq<Piece>, p: Pair<string>, key: string)
    requires Fits(t, key) && '%' !in p.value
    ensures Fits(Fill(t, p.key, p.value), key)
  {
    hide ProperPrefix, Fill;
    var r := Fill(t, p.key, p.value);
    forall i | 0 <= i < |r| ensures match r[i]
                                    case Lit(w) => '%' !in w
                                    case Ref(n) => '%' !in n && !ProperPrefix(n, key) && !ProperPrefix(key, n) {
      assert r[i] == if t[i] == Ref(p.key) then Lit(p.value) else t[i];
    }
  }

  // ---------- order and exactness ----------

  lemma {:induction false} RenderSame(t: seq<Piece>, a: seq<Pair<string>>, b: seq<Pair<string>>)
    requires forall n :: Lookup(a, n) == Lookup(b, n)
    ensures Render(t, a) == Render(t, b)
  {
    hide Lookup;
    if t != [] { RenderSame(t[1..], a, b); }
  }

  /** Two orders of the same variables give the same result. */
  lemma OrderFree(t: seq<Piece>, a: seq<Pair<string>>, b: seq<Pair<string>>)
    requires AllFit(t, a) && AllFit(t, b)
    requires forall n :: Lookup(a, n) == Lookup(b, n)
    ensures Replace(Show(t), a) == Replace(Show(t), b)
  {
    ReplaceIsRender(t, a);
    ReplaceIsRender(t, b);
    RenderSame(t, a, b);
  }

  function Keys(vars: seq<Pair<string>>): seq<string> {
    seq(|vars|, i requires 0 <= i < |vars| => vars[i].key)
  }

  predicate PrefixFree(keys: seq<string>) {
    forall i, j :: 0 <= i < |keys| && 0 <= j < |keys| ==> !ProperPrefix(keys[i], keys[j])
  }

  /** Literal text without percent signs and references to the keys. */
  predicate Over(t: seq<Piece>, keys: seq<string>) {
    forall i :: 0 <= i < |t| ==>
      match t[i]
      case Lit(w) => '%' !in w
      case Ref(n) => n in keys
  }

  predicate PlainValues(vars: seq<Pair<string>>) {
    forall i :: 0 <= i < |vars| ==> '%' !in vars[i].value
  }

  /** With these keys, replaceVars fills in every template with every values. */
  ghost predicate Faithful(keys: seq<string>) {
    forall t, vars :: Keys(vars) == keys && Over(t, keys) && PlainValues(vars) ==>
      Replace(Show(t), vars) == Render(t, vars)
  }

  function Empties(keys: seq<string>): (r: seq<Pair<string>>)
    ensures Keys(r) == keys && PlainValues(r)
  {
    seq(|keys|, i requires 0 <= i < |keys| => Pair(keys[i], ""))
  }

  lemma {:induction false} NoPercent(w: string, vars: seq<Pair<string>>)
    requires '%' !in w
    ensures Replace(w, vars) == w
    decreases |vars|
  {
    hide ReplaceAll;
    if vars != [] {
      PlainText(w, "", vars[0].key, vars[0].value);
      EmptyReplace(vars[0].key, vars[0].value);
      assert w + "" == w;
      NoPercent(w, vars[1..]);
    }
  }

  lemma Unmatched(name: string, key: string, value: string)
    requires '%' !in name && !(key <= name)
    ensures ReplaceAll("%" + name, "%" + key, value) == "%" + name
  {
    var s := "%" + name;
    if "%" + key <= s {
      PrefixWithin(name, key);
      assert false;
    }
    assert s[1..] == name;
    PlainText(name, "", key, value);
    EmptyReplace(key, value);
    assert name + "" == name;
  }

  lemma PrefixWithin(name: string, key: string)
    requires "%" + key <= "%" + name
    ensures key <= name
  {
    assert key == ("%" + key)[1..] == ("%" + name)[1..][..|key|];
    assert ("%" + name)[1..] == name;
  }

  /** A reference whose name starts with an earlier key is not filled in. */
  lemma {:induction false} PrefixBreaks(name: string, vars: seq<Pair<string>>, i: nat)
    requires '%' !in name && i < |vars| && vars[i].key <= name
    requires forall j :: 0 <= j <= i ==> vars[j].key != name
    requires forall j :: 0 <= j < |vars| ==> vars[j].value == ""
    ensures Replace("%" + name, vars) != ""
    decreases |vars|
  {
    hide ReplaceAll;
    var key := vars[0].key;
    if key <= name {
      var rest := name[|key|..];
      assert "%" + name == "%" + key + rest;
      HitReference(key, rest, "");
      PlainText(rest, "", key, "");
      EmptyReplace(key, "");
      assert rest + "" == rest && "" + rest == rest;
      NoPercent(rest, vars[1..]);
    } else {
      Unmatched(name, key, "");
      PrefixBreaks(name, vars[1..], i - 1);
    }
  }

  lemma {:induction false} PrefixIsLess(a: string, b: string)
    requires ProperPrefix(a, b)
    ensures Less(a, b)
  {
    if a != "" {
      assert a[1..] == b[..|a|][1..] == b[1..][..|a| - 1];
      assert a == [a[0]] + a[1..] && b == [b[0]] + b[1..];
      PrefixIsLess(a[1..], b[1..]);
    }
  }

  predicate SortedKeys(keys: seq<string>) {
    forall i, j :: 0 <= i < j < |keys| ==> Less(keys[i], keys[j])
  }

  lemma {:induction false} LookupEmpty(vars: seq<Pair<string>>, j: nat)
    requires j < |vars| && forall i :: 0 <= i < |vars| ==> vars[i].value == ""
    ensures Lookup(vars, vars[j].key) == Some("")
  {
    if vars[0].key != vars[j].key { LookupEmpty(vars[1..], j - 1); }
  }

  lemma PrefixKeysFail(keys: seq<string>, i: nat, j: nat)
    requires SortedKeys(keys) && i < |keys| && j < |keys| && ProperPrefix(keys[i], keys[j])
    requires '%' !in keys[j]
    ensures var t := [Ref(keys[j])];
            Over(t, keys) && Replace(Show(t), Empties(keys)) != Render(t, Empties(keys))
  {
    hide Replace, Less;
    PrefixIsLess(keys[i], keys[j]);
    LessTrichotomy(keys[i], keys[j]);
    assert i < j;
    var vars := Empties(keys);
    forall k | 0 <= k <= i ensures vars[k].key != keys[j] {
      assert Less(keys[k], keys[j]);
      LessTrichotomy(keys[k], keys[j]);
    }
    PrefixBreaks(keys[j], vars, i);
    LookupEmpty(vars, j);
    var t := [Ref(keys[j])];
    assert t[1..] == [] && Show([]) == "" && "%" + keys[j] + "" == "%" + keys[j];
    assert Render([], vars) == "";
  }

  lemma PrefixFreeFits(t: seq<Piece>, vars: seq<Pair<string>>)
    requires PrefixFree(Keys(vars)) && Over(t, Keys(vars)) && PlainValues(vars)
    requires forall k :: k in Keys(vars) ==> '%' !in k
    ensures AllFit(t, vars)
  {
    hide ProperPrefix;
    forall j | 0 <= j < |vars| ensures Fits(t, vars[j].key) {
      assert Keys(vars)[j] == vars[j].key;
    }
  }

  /** For the sorted keys of a map, replaceVars equals filling in all references at once, for all
      values and templates, exactly when no key is a proper prefix of another. */
  lemma FaithfulIff(keys: seq<string>)
    requires SortedKeys(keys) && forall k :: k in keys ==> '%' !in k
    ensures Faithful(keys) <==> PrefixFree(keys)
  {
    hide Replace, Render, Show, ProperPrefix, Over, PlainValues, AllFit, Less;
    if PrefixFree(keys) {
      forall t, vars | Keys(vars) == keys && Over(t, keys) && PlainValues(vars)
        ensures Replace(Show(t), vars) == Render(t, vars) {
        PrefixFreeFits(t, vars);
        ReplaceIsRender(t, vars);
      }
    } else {
      var i, j :| 0 <= i < |keys| && 0 <= j < |keys| && ProperPrefix(keys[i], keys[j]);
      PrefixKeysFail(keys, i, j);
    }
  }
}
