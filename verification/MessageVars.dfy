/** The variables of an event: joined into a text, cut to the message buffer, carried through the
    core unchanged and parsed again. */
module MessageVars {
  import opened Text
  import opened RuleEngine

  // ---------- parseVars ----------

  /** boost::split at commas. */
  function Fields(vars: string): (r: seq<string>)
    ensures r != []
  {
    if vars == "" then [""]
    else if vars[0] == ',' then [""] + Fields(vars[1..])
    else [[vars[0]] + Fields(vars[1..])[0]] + Fields(vars[1..])[1..]
  }

  /** The position of the first '=', or the length. */
  function EqualSign(field: string): (r: nat)
    ensures r <= |field| && '=' !in field[..r]
    ensures r < |field| ==> field[r] == '='
  {
    if field == "" || field[0] == '=' then 0
    else
      var r := EqualSign(field[1..]);
      assert field[..r + 1] == [field[0]] + field[1..][..r];
      r + 1
  }

  /** Fields from the last to the first, so that the first field with a key wins. */
  function Bind(fields: seq<string>): map<string, string> {
    if fields == [] then map[]
    else
      var eq := EqualSign(fields[0]);
      if eq < |fields[0]| then Bind(fields[1..])[fields[0][..eq] := fields[0][eq + 1..]] else Bind(fields[1..])
  }

  function ParseText(vars: string): map<string, string> {
    Bind(Fields(vars))
  }

  /** std::map::insert: a key that is there keeps its value. */
  function Insert(m: map<string, string>, key: string, value: string): map<string, string> {
    if key in m then m else m[key := value]
  }

  lemma {:induction false} BindAppend(fields: seq<string>, f: string)
    ensures Bind(fields + [f]) ==
              if EqualSign(f) < |f| then Insert(Bind(fields), f[..EqualSign(f)], f[EqualSign(f) + 1..])
              else Bind(fields)
  {
    if fields == [] {
      assert [] + [f] == [f];
      assert [f][1..] == [];
    } else {
      assert (fields + [f])[1..] == fields[1..] + [f];
      BindAppend(fields[1..], f);
    }
  }

  lemma BindOne(f: string)
    ensures Bind([f]) == if EqualSign(f) < |f| then map[f[..EqualSign(f)] := f[EqualSign(f) + 1..]] else map[]
  {
    BindAppend([], f);
    assert [] + [f] == [f];
  }

  method ParseVars(buffer: string) returns (varMap: map<string, string>)
    ensures varMap == ParseText(CString(buffer))
  {
    varMap := map[];
    var vars := CString(buffer);
    var variables := Fields(vars);
    for i := 0 to |variables|
      invariant varMap == Bind(variables[..i])
    {
      var field := variables[i];
      var pos := 0;
      while pos < |field| && field[pos] != '='
        invariant pos <= |field| && EqualSign(field) == pos + EqualSign(field[pos..])
      {
        assert field[pos..][1..] == field[pos + 1..];
        pos := pos + 1;
      }
      assert variables[..i + 1] == variables[..i] + [field];
      BindAppend(variables[..i], field);
      if pos < |field| {
        varMap := Insert(varMap, field[..pos], field[pos + 1..]);
      }
    }
    assert variables[..|variables|] == variables;
  }

  lemma {:induction false} FieldsConcat(a: string, b: string)
    ensures Fields(a + "," + b) == Fields(a) + Fields(b)
  {
    if a == "" {
      assert "" + "," + b == "," + b;
      assert ("," + b)[1..] == b;
    } else {
      assert (a + "," + b)[1..] == a[1..] + "," + b;
      FieldsConcat(a[1..], b);
    }
  }

  lemma {:induction false} BindConcat(a: seq<string>, b: seq<string>)
    ensures Bind(a + b) == Bind(b) + Bind(a)
  {
    if a == [] {
      assert a + b == b;
    } else {
      assert (a + b)[1..] == a[1..] + b;
      BindConcat(a[1..], b);
    }
  }

  /** Two texts joined by a comma: the first overrides the second. */
  lemma ParseConcat(a: string, b: string)
    ensures ParseText(a + "," + b) == ParseText(b) + ParseText(a)
  {
    FieldsConcat(a, b);
    BindConcat(Fields(a), Fields(b));
  }

  // ---------- joined pairs ----------

  function Join(pairs: seq<Pair<string>>): string {
    if pairs == [] then ""
    else if |pairs| == 1 then Field(pairs[0])
    else Field(pairs[0]) + "," + Join(pairs[1..])
  }

  function Field(p: Pair<string>): string {
    p.key + "=" + p.value
  }

  function Original(pairs: seq<Pair<string>>): map<string, string> {
    if pairs == [] then map[] else Original(pairs[1..])[pairs[0].key := pairs[0].value]
  }

  /** Keys without separators, values without commas, no NUL anywhere. */
  predicate Plain(p: Pair<string>) {
    ',' !in p.key && '=' !in p.key && ',' !in p.value && '\0' !in p.key && '\0' !in p.value
  }

  predicate Distinct(pairs: seq<Pair<string>>) {
    forall i, j :: 0 <= i < j < |pairs| ==> pairs[i].key != pairs[j].key
  }

  predicate Joinable(pairs: seq<Pair<string>>) {
    Distinct(pairs) && forall i :: 0 <= i < |pairs| ==> Plain(pairs[i])
  }

  lemma {:induction false} OneField(f: string)
    requires ',' !in f
    ensures Fields(f) == [f]
  {
    if f != "" {
      assert f == [f[0]] + f[1..];
      OneField(f[1..]);
    }
  }

  lemma {:induction false} FirstEqual(key: string, rest: string)
    requires '=' !in key
    ensures EqualSign(key + "=" + rest) == |key|
  {
    if key == "" {
      assert "" + "=" + rest == "=" + rest;
    } else {
      assert (key + "=" + rest)[1..] == key[1..] + "=" + rest;
      FirstEqual(key[1..], rest);
    }
  }

  /** A key with a value that may be cut short. */
  lemma FieldParses(key: string, value: string)
    requires ',' !in key && '=' !in key && ',' !in value
    ensures ParseText(key + "=" + value) == map[key := value]
  {
    OneField(key + "=" + value);
    FirstEqual(key, value);
    BindOne(key + "=" + value);
    assert (key + "=" + value)[|key| + 1..] == value && (key + "=" + value)[..|key|] == key;
  }

  lemma {:induction false} NoEqual(f: string)
    requires ',' !in f && '=' !in f
    ensures ParseText(f) == map[]
  {
    OneField(f);
    BindOne(f);
  }

  /** Joined pairs parse to the original map. */
  lemma {:induction false} JoinParses(pairs: seq<Pair<string>>)
    requires Joinable(pairs)
    ensures ParseText(Join(pairs)) == Original(pairs) && '\0' !in Join(pairs)
  {
    hide Bind, Fields, EqualSign, ParseText;
    if pairs == [] {
      NoEqual("");
    } else {
      FieldParses(pairs[0].key, pairs[0].value);
      if |pairs| > 1 {
        JoinParses(pairs[1..]);
        ParseConcat(Field(pairs[0]), Join(pairs[1..]));
      } else {
        assert pairs[1..] == [];
      }
    }
  }

  lemma {:induction false} OriginalKeys(pairs: seq<Pair<string>>, i: nat)
    requires i < |pairs|
    ensures pairs[i].key in Original(pairs)
  {
    if i > 0 { OriginalKeys(pairs[1..], i - 1); }
  }

  lemma {:induction false} OriginalKey(pairs: seq<Pair<string>>, key: string) returns (i: nat)
    requires key in Original(pairs)
    ensures i < |pairs| && pairs[i].key == key
  {
    if pairs[0].key == key {
      i := 0;
    } else {
      i := OriginalKey(pairs[1..], key);
      i := i + 1;
    }
  }

  /** The key is missing or has another value. */
  predicate Lost(m: map<string, string>, original: map<string, string>, key: string) {
    key in original && !(key in m && m[key] == original[key])
  }

  /** A field cut short does not bind its pair. */
  lemma CutField(p: Pair<string>, n: nat)
    requires Plain(p) && n < |Field(p)|
    ensures !(p.key in ParseText(Field(p)[..n]) && ParseText(Field(p)[..n])[p.key] == p.value)
    ensures ParseText(Field(p)[..n]).Keys <= {p.key}
  {
    if n <= |p.key| {
      assert Field(p)[..n] == p.key[..n];
      NoEqual(p.key[..n]);
    } else {
      var v := p.value[..n - |p.key| - 1];
      assert Field(p)[..n] == p.key + "=" + v;
      FieldParses(p.key, v);
    }
  }

  /** A joined text that is cut short loses a key. */
  lemma {:induction false} CutLoses(pairs: seq<Pair<string>>, n: nat) returns (key: string)
    requires Joinable(pairs) && n < |Join(pairs)|
    ensures Lost(ParseText(Join(pairs)[..n]), Original(pairs), key)
  {
    hide Fields, Bind, ParseText, Plain;
    var p, f := pairs[0], Field(pairs[0]);
    if n < |f| {
      assert Join(pairs)[..n] == f[..n];
      assert Plain(p);
      CutField(p, n);
      key := p.key;
    } else if n == |f| {
      assert Join(pairs)[..n] == f;
      PlainParses(p);
      key := pairs[1].key;
      OriginalKeys(pairs[1..], 0);
    } else {
      var rest := Join(pairs[1..]);
      var m := n - |f| - 1;
      assert Join(pairs)[..n] == f + "," + rest[..m];
      ParseConcat(f, rest[..m]);
      assert Plain(p);
      PlainParses(p);
      key := CutLoses(pairs[1..], m);
      var i := OriginalKey(pairs[1..], key);
      assert pairs[i + 1].key == key;
    }
  }

  lemma PlainParses(p: Pair<string>)
    requires Plain(p)
    ensures ParseText(Field(p)) == map[p.key := p.value]
  {
    FieldParses(p.key, p.value);
  }

  // ---------- end to end ----------

  /** The buffer of the action message the core sends for an event it accepts. */
  lemma CommitForwards(e: Engine, ruleId: nat, vars: string, r: Reading)
    requires |e.stamps| == |e.rules| && ruleId < |e.rules|
    ensures var log := Commit(e, ruleId, vars, r).log;
            |log| == |e.log| + 1 && log[|e.log|].Action? && log[|e.log|].vars == vars
  {}

  /** An event with joined pairs, accepted and forwarded by the core, delivers the original map to
      the action module exactly when the joined text fits the message buffer. */
  lemma DeliveredIff(pairs: seq<Pair<string>>, buffer: string, e: Engine, ruleId: nat, r: Reading)
    requires Joinable(pairs) && |buffer| == MSG_VAR_SIZE
    requires |e.stamps| == |e.rules| && ruleId < |e.rules|
    ensures var log := Commit(e, ruleId, Snprintf(buffer, Join(pairs)), r).log;
            && |log| == |e.log| + 1 && log[|e.log|].Action?
            && (ParseText(CString(log[|e.log|].vars)) == Original(pairs) <==> |Join(pairs)| < MSG_VAR_SIZE)
  {
    hide Snprintf, CString, ParseText, Join, Original, Joinable;
    JoinParses(pairs);
    BufferCarries(buffer, Join(pairs));
    CommitForwards(e, ruleId, Snprintf(buffer, Join(pairs)), r);
    if |Join(pairs)| >= MSG_VAR_SIZE {
      var key := CutLoses(pairs, MSG_VAR_SIZE - 1);
    }
  }
}
