/** The std::istringstream the jsonxx parser reads from: a text, a position and the state bits.
    failbit and badbit are one flag, because the parser only asks eof(), good(), fail() and
    operator bool. Each operation first runs the sentry of the C++ standard: on a stream that is
    not good it sets the fail flag and does nothing else. */
module JsonStream {
  import opened Text

  datatype RawStream = Stream(text: string, pos: nat, eof: bool, fail: bool) {
    predicate Good() { !eof && !fail }
  }

  type Stream = s: RawStream | s.pos <= |s.text| witness Stream("", 0, false, false)

  /** A good stream over t at position p. */
  function Ready(t: string, p: nat): Stream
    requires p <= |t|
  {
    Stream(t, p, false, false)
  }

  /** What parsing can still use up: nothing once the stream has failed. */
  function Left(s: Stream): nat {
    if s.fail then 0 else |s.text| - s.pos + 1
  }

  /** r comes after s: same text, and either failed or no earlier in it. */
  predicate After(s: Stream, r: Stream) {
    r.text == s.text && (r.fail || (!s.fail && s.pos <= r.pos))
  }

  predicate IsSpace(c: char) {
    c == ' ' || c == '\t' || c == '\n' || c == '\r' || c == 11 as char || c == 12 as char
  }

  function Sentry(s: Stream): Stream {
    if s.Good() then s else s.(fail := true)
  }

  /** get(ch): on failure ch keeps its old value. */
  function Get(ch: char, s: Stream): (r: (char, Stream)) {
    if !s.Good() then (ch, Sentry(s))
    else if s.pos == |s.text| then (ch, s.(eof := true, fail := true))
    else (s.text[s.pos], s.(pos := s.pos + 1))
  }

  function Peek(s: Stream): (r: (Option<char>, Stream)) {
    if !s.Good() then (None, Sentry(s))
    else if s.pos == |s.text| then (None, s.(eof := true))
    else (Some(s.text[s.pos]), s)
  }

  /** putback(ch) on an input-only buffer: only the character just before the position goes back. */
  function Putback(ch: char, s: Stream): Stream {
    if s.fail then s.(eof := false)
    else if s.pos > 0 && s.text[s.pos - 1] == ch then s.(eof := false, pos := s.pos - 1)
    else s.(eof := false, fail := true)
  }

  function Unget(s: Stream): Stream {
    if s.fail then s.(eof := false)
    else if s.pos > 0 then s.(eof := false, pos := s.pos - 1)
    else s.(eof := false, fail := true)
  }

  function Clear(s: Stream): Stream {
    s.(eof := false, fail := false)
  }

  /** input >> std::ws */
  function SkipWs(s: Stream): (r: Stream)
    ensures After(s, r) && s.pos <= r.pos
    ensures r.Good() ==> s.Good() && r.pos < |r.text| && !IsSpace(r.text[r.pos])
    decreases |s.text| - s.pos
  {
    if !s.Good() then Sentry(s)
    else if s.pos == |s.text| then s.(eof := true)
    else if IsSpace(s.text[s.pos]) then SkipWs(s.(pos := s.pos + 1))
    else s
  }

  /** tellg(): -1 on a stream that is not good. */
  function Tellg(s: Stream): (int, Stream) {
    if s.Good() then (s.pos, s) else (-1, Sentry(s))
  }

  function Seekg(p: int, s: Stream): Stream {
    if s.fail then s.(eof := false)
    else if 0 <= p <= |s.text| then s.(eof := false, pos := p)
    else s.(eof := false, fail := true)
  }
}
