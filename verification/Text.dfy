/** Byte strings and the ordered string maps (std::map) the other modules share.
    A char stands for one byte; nothing here depends on a char being below 256. */
module Text {
  datatype Option<+T> = None | Some(value: T)

  datatype Pair<+V> = Pair(key: string, value: V)

  /** The text t carries the word w at position p. */
  predicate At(t: string, p: nat, w: string) {
    p + |w| <= |t| && t[p..p + |w|] == w
  }

  lemma AtSplit(t: string, p: nat, a: string, b: string)
    ensures At(t, p, a + b) <==> At(t, p, a) && At(t, p + |a|, b)
  {
    if At(t, p, a + b) {
      assert t[p..p + |a|] == t[p..p + |a + b|][..|a|] == a;
      assert t[p + |a|..p + |a| + |b|] == t[p..p + |a + b|][|a|..] == b;
    }
    if At(t, p, a) && At(t, p + |a|, b) {
      assert t[p..p + |a + b|] == t[p..p + |a|] + t[p + |a|..p + |a| + |b|];
    }
  }

  lemma AtChar(t: string, p: nat, w: string, i: nat)
    requires At(t, p, w) && i < |w|
    ensures t[p + i] == w[i]
  {
    assert t[p..p + |w|][i] == t[p + i];
  }

  lemma AtHead(t: string, p: nat, c: char, rest: string)
    requires At(t, p, [c] + rest)
    ensures p < |t| && t[p] == c && At(t, p + 1, rest)
  {
    AtSplit(t, p, [c], rest);
    AtChar(t, p, [c], 0);
  }

  /** The order of std::less<std::string>: lexicographic, a proper prefix first. */
  predicate Less(a: string, b: string) {
    b != "" && (a == "" || a[0] < b[0] || (a[0] == b[0] && Less(a[1..], b[1..])))
  }

  lemma {:induction false} LessTransitive(a: string, b: string, c: string)
    requires Less(a, b) && Less(b, c)
    ensures Less(a, c)
  {
    if a != "" && a[0] == b[0] && b[0] == c[0] {
      LessTransitive(a[1..], b[1..], c[1..]);
    }
  }

  lemma {:induction false} LessTrichotomy(a: string, b: string)
    ensures !(Less(a, b) && Less(b, a))
    ensures a == b <==> !Less(a, b) && !Less(b, a)
  {
    if a != "" && b != "" && a[0] == b[0] {
      LessTrichotomy(a[1..], b[1..]);
      assert a == [a[0]] + a[1..] && b == [b[0]] + b[1..];
    }
  }

  /** Keys strictly increasing: the invariant of a std::map read in iteration order. */
  predicate Sorted<V>(m: seq<Pair<V>>) {
    forall i, j :: 0 <= i < j < |m| ==> Less(m[i].key, m[j].key)
  }

  /** m[key] = value. */
  function Put<V>(m: seq<Pair<V>>, key: string, value: V): (r: seq<Pair<V>>) {
    if m == [] then [Pair(key, value)]
    else if m[0].key == key then [Pair(key, value)] + m[1..]
    else if Less(key, m[0].key) then [Pair(key, value)] + m
    else [m[0]] + Put(m[1..], key, value)
  }

  lemma {:induction false} PutMembers<V>(m: seq<Pair<V>>, key: string, value: V, p: Pair<V>)
    requires Sorted(m)
    ensures p in Put(m, key, value) <==> p == Pair(key, value) || (p in m && p.key != key)
  {
    if m != [] {
      assert m == [m[0]] + m[1..];
      if m[0].key == key || Less(key, m[0].key) {
        forall i | 0 < i < |m| ensures m[i].key != key {
          assert Less(m[0].key, m[i].key);
          LessTrichotomy(m[0].key, m[i].key);
          LessTrichotomy(key, m[i].key);
          if m[0].key != key { LessTransitive(key, m[0].key, m[i].key); }
        }
        LessTrichotomy(key, m[0].key);
      } else {
        PutMembers(m[1..], key, value, p);
      }
    }
  }

  lemma {:induction false} PutSorted<V>(m: seq<Pair<V>>, key: string, value: V)
    requires Sorted(m)
    ensures Sorted(Put(m, key, value))
  {
    if m != [] {
      LessTrichotomy(key, m[0].key);
      if Less(key, m[0].key) {
        forall i | 0 < i < |m| ensures Less(key, m[i].key) {
          assert Less(m[0].key, m[i].key);
          LessTransitive(key, m[0].key, m[i].key);
        }
      } else if m[0].key != key {
        PutSorted(m[1..], key, value);
        var rest := Put(m[1..], key, value);
        forall i | 0 <= i < |rest| ensures Less(m[0].key, rest[i].key) {
          PutMembers(m[1..], key, value, rest[i]);
          if rest[i] != Pair(key, value) {
            var j :| 0 <= j < |m[1..]| && m[1..][j] == rest[i];
            assert Less(m[0].key, m[j + 1].key);
          }
        }
      }
    }
  }

  lemma {:induction false} PutAppends<V>(m: seq<Pair<V>>, key: string, value: V)
    requires forall i :: 0 <= i < |m| ==> Less(m[i].key, key)
    ensures Put(m, key, value) == m + [Pair(key, value)]
  {
    if m != [] {
      assert Less(m[0].key, key);
      LessTrichotomy(m[0].key, key);
      PutAppends(m[1..], key, value);
      assert m == [m[0]] + m[1..];
    }
  }

  // ---------- the C strings in messages ----------

  /** std::string(const char*) */
  function CString(buffer: string): (r: string)
    ensures '\0' !in r && |r| <= |buffer|
  {
    if buffer == "" || buffer[0] == '\0' then "" else [buffer[0]] + CString(buffer[1..])
  }

  /** What snprintf(buffer, size, "%s", s) leaves in a buffer: the rest of the buffer stays. */
  function Snprintf(buffer: string, s: string): (r: string)
    requires |buffer| > 0
    ensures |r| == |buffer|
  {
    var w := CString(s);
    var n := if |w| < |buffer| then |w| else |buffer| - 1;
    w[..n] + "\0" + buffer[n + 1..]
  }

  lemma {:induction false} CStringStops(w: string, rest: string)
    requires '\0' !in w
    ensures CString(w + "\0" + rest) == w && CString(w) == w
  {
    if w == "" {
      assert "" + "\0" + rest == "\0" + rest;
    } else {
      assert w[0] in w && w == [w[0]] + w[1..];
      assert (w + "\0" + rest)[1..] == w[1..] + "\0" + rest;
      CStringStops(w[1..], rest);
    }
  }

  /** What a message buffer carries of a text: what stands before its first NUL, as far as it fits. */
  lemma BufferCarries(buffer: string, s: string)
    requires |buffer| > 0
    ensures var w := CString(s);
            CString(Snprintf(buffer, s)) == if |w| < |buffer| then w else w[..|buffer| - 1]
    ensures '\0' !in s ==> CString(s) == s
  {
    if '\0' !in s { CStringStops(s, ""); }
    var w := CString(s);
    var n := if |w| < |buffer| then |w| else |buffer| - 1;
    CStringStops(w[..n], buffer[n + 1..]);
  }
}
