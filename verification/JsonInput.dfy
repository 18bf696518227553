/** The input stream as the object the parser mutates. */
module JsonInput {
  import opened Text
  import S = JsonStream

  class InputStream {
    const text: string
    var pos: nat
    var eof: bool
    var fail: bool

    constructor (t: string)
      ensures Valid() && State() == S.Ready(t, 0)
    {
      text, pos, eof, fail := t, 0, false, false;
    }

    ghost predicate Valid()
      reads this
    {
      pos <= |text|
    }

    ghost function State(): S.Stream
      requires Valid()
      reads this
    {
      S.Stream(text, pos, eof, fail)
    }

    predicate Good()
      reads this
    {
      !eof && !fail
    }

    method Get(ch: char) returns (c: char)
      requires Valid()
      modifies this
      ensures Valid() && (c, State()) == S.Get(ch, old(State()))
    {
      c := ch;
      if !Good() {
        fail := true;
      } else if pos == |text| {
        eof, fail := true, true;
      } else {
        c := text[pos];
        pos := pos + 1;
      }
    }

    method Peek() returns (c: Option<char>)
      requires Valid()
      modifies this
      ensures Valid() && (c, State()) == S.Peek(old(State()))
    {
      c := None;
      if !Good() {
        fail := true;
      } else if pos == |text| {
        eof := true;
      } else {
        c := Some(text[pos]);
      }
    }

    method Putback(ch: char)
      requires Valid()
      modifies this
      ensures Valid() && State() == S.Putback(ch, old(State()))
    {
      eof := false;
      if !fail {
        if pos > 0 && text[pos - 1] == ch {
          pos := pos - 1;
        } else {
          fail := true;
        }
      }
    }

    method Unget()
      requires Valid()
      modifies this
      ensures Valid() && State() == S.Unget(old(State()))
    {
      eof := false;
      if !fail {
        if pos > 0 {
          pos := pos - 1;
        } else {
          fail := true;
        }
      }
    }

    method Clear()
      requires Valid()
      modifies this
      ensures Valid() && State() == S.Clear(old(State()))
    {
      eof, fail := false, false;
    }

    method SkipWs()
      requires Valid()
      modifies this
      ensures Valid() && State() == S.SkipWs(old(State()))
    {
      if !Good() {
        fail := true;
        return;
      }
      while pos < |text| && S.IsSpace(text[pos])
        invariant Valid() && Good()
        invariant S.SkipWs(State()) == S.SkipWs(old(State()))
        decreases |text| - pos
      {
        pos := pos + 1;
      }
      if pos == |text| {
        eof := true;
      }
    }

    method Tellg() returns (p: int)
      requires Valid()
      modifies this
      ensures Valid() && (p, State()) == S.Tellg(old(State()))
    {
      if Good() {
        p := pos;
      } else {
        fail := true;
        p := -1;
      }
    }

    method Seekg(p: int)
      requires Valid()
      modifies this
      ensures Valid() && State() == S.Seekg(p, old(State()))
    {
      eof := false;
      if !fail {
        if 0 <= p <= |text| {
          pos := p;
        } else {
          fail := true;
        }
      }
    }
  }
}
