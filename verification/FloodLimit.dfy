/** The flood limiter of a module and the calls it guards. Clock readings are parameters, in
    nanoseconds. */
module FloodLimit {
  const FLOOD_MSG_PER_SECOND := 15
  const SECOND := 1_000_000_000
  const MILLISECOND := 1_000_000

  /** The length of a window; the division truncates. */
  const LIMIT := SECOND / FLOOD_MSG_PER_SECOND

  /** ceil(1000.0 / FLOOD_MSG_PER_SECOND), in milliseconds. */
  const WAIT := 67

  datatype Limiter = Limiter(density: nat, lastReset: int)

  /** isFlooding(): the milliseconds to wait, 0 when the message may be sent. */
  function Ask(s: Limiter, now: int): (r: (nat, Limiter)) {
    var t := if now - s.lastReset > LIMIT then Limiter(0, now) else s;
    if t.density < FLOOD_MSG_PER_SECOND then (0, t.(density := t.density + 1)) else (WAIT, t)
  }

  /** A guarded send, or a heartbeat that sleeps until later when it has to wait. */
  datatype Call = Send(now: int) | Heartbeat(now: int, later: int)

  /** Whether the call sends its message, when, and the limiter after it. */
  function Do(s: Limiter, c: Call): (r: (bool, int, Limiter)) {
    var (wait, t) := Ask(s, c.now);
    match c
    case Send(now) => (wait == 0, now, t)
    case Heartbeat(now, later) => if wait > 0 then (true, later, Ask(t, later).1) else (true, now, t)
  }

  class Module {
    var messageDensity: nat
    var lastDensityReset: int

    constructor ()
      ensures State() == Limiter(0, 0)
    {
      messageDensity, lastDensityReset := 0, 0;
    }

    function State(): Limiter
      reads this
    {
      Limiter(messageDensity, lastDensityReset)
    }

    method IsFlooding(now: int) returns (wait: nat)
      modifies this
      ensures (wait, State()) == Ask(old(State()), now)
    {
      var timespan := now - lastDensityReset;
      if timespan > LIMIT {
        messageDensity := 0;
        lastDensityReset := now;
      }
      if messageDensity < FLOOD_MSG_PER_SECOND {
        messageDensity := messageDensity + 1;
        return 0;
      }
      return WAIT;
    }

    /** acknowledgeEvent, sendEventMessage, setHeartbeatInterval and systemMessage. */
    method SendGuarded(now: int) returns (sent: bool)
      modifies this
      ensures (sent, now, State()) == Do(old(State()), Send(now))
    {
      var wait := IsFlooding(now);
      sent := wait == 0;
    }

    method SendHeartbeat(now: int, later: int) returns (at: int)
      modifies this
      ensures (true, at, State()) == Do(old(State()), Heartbeat(now, later))
    {
      at := now;
      var time := IsFlooding(now);
      if time > 0 {
        at := later;
        var _ := IsFlooding(later);
      }
    }
  }

  /** Calls of one thread on a monotone clock; a heartbeat sleeps at least as long as it was told. */
  predicate Calls(s: Limiter, t: int, calls: seq<Call>)
    decreases |calls|
  {
    calls == [] ||
    (var c := calls[0];
     && t <= c.now
     && (c.Heartbeat? ==> c.now + Ask(s, c.now).0 * MILLISECOND <= c.later)
     && Calls(Do(s, c).2, Do(s, c).1, calls[1..]))
  }

  function Messages(s: Limiter, calls: seq<Call>): nat
    decreases |calls|
  {
    if calls == [] then 0
    else (if Do(s, calls[0]).0 then 1 else 0) + Messages(Do(s, calls[0]).2, calls[1..])
  }

  /** When the last call is over. */
  function End(s: Limiter, t: int, calls: seq<Call>): int
    decreases |calls|
  {
    if calls == [] then t else End(Do(s, calls[0]).2, Do(s, calls[0]).1, calls[1..])
  }

  predicate Sound(s: Limiter, t: int) {
    s.density <= FLOOD_MSG_PER_SECOND && s.lastReset <= t
  }

  lemma {:induction false} TimePasses(s: Limiter, t: int, calls: seq<Call>)
    requires Calls(s, t, calls)
    ensures t <= End(s, t, calls)
    decreases |calls|
  {
    if calls != [] { TimePasses(Do(s, calls[0]).2, Do(s, calls[0]).1, calls[1..]); }
  }

  /** A heartbeat that waited as long as it was told is admitted by its second check, so that it
      counts as one message of the limiter like any other. */
  lemma HeartbeatAdmitted(s: Limiter, now: int, later: int)
    requires Sound(s, now) && now + Ask(s, now).0 * MILLISECOND <= later
    requires Ask(s, now).0 > 0
    ensures Ask(Ask(s, now).1, later) == (0, Limiter(1, later))
  {}

  /** The wait is the shortest number of whole milliseconds after which every heartbeat gets through:
      one that comes back a millisecond earlier can be refused again. */
  lemma WaitShortest(now: int)
    ensures var full := Limiter(FLOOD_MSG_PER_SECOND, now);
            var wait := Ask(full, now).0;
            wait > 0 && Ask(full, now + (wait - 1) * MILLISECOND).0 > 0 && Ask(full, now + wait * MILLISECOND).0 == 0
  {}

  /** What one call does: a refused message changes nothing, an admitted one either counts in the
      window or opens a new one at its own time. */
  lemma CallStep(s: Limiter, t: int, c: Call)
    requires Sound(s, t) && Calls(s, t, [c])
    ensures var (sent, at, s1) := Do(s, c);
            && t <= at && Sound(s1, at)
            && (!sent ==> s1 == s)
            && (sent ==> (s1 == Limiter(s.density + 1, s.lastReset) && s.density < FLOOD_MSG_PER_SECOND)
                         || (s1 == Limiter(1, at) && at > s.lastReset + LIMIT))
  {
    if c.Heartbeat? && Ask(s, c.now).0 > 0 { HeartbeatAdmitted(s, c.now, c.later); }
  }

  /** How many windows fit between two moments. */
  function Windows(from: int, to: int): int {
    (to - from) / LIMIT
  }

  lemma WindowsShrink(from: int, later: int, to: int)
    requires from <= later <= to
    ensures 0 <= Windows(later, to) <= Windows(from, to)
    ensures later > from + LIMIT ==> Windows(later, to) + 1 <= Windows(from, to)
  {
    assert LIMIT == 66_666_666;
    var a, b := (to - later) / 66_666_666, (to - from) / 66_666_666;
    assert 66_666_666 * a <= to - later < 66_666_666 * (a + 1);
    assert 66_666_666 * b <= to - from < 66_666_666 * (b + 1);
  }

  lemma FirstCall(s: Limiter, t: int, calls: seq<Call>)
    requires calls != [] && Sound(s, t) && Calls(s, t, calls)
    ensures var (sent, at, s1) := Do(s, calls[0]);
            && t <= at <= End(s, t, calls) && Sound(s1, at) && Calls(s1, at, calls[1..])
            && Messages(s, calls) == (if sent then 1 else 0) + Messages(s1, calls[1..])
            && End(s, t, calls) == End(s1, at, calls[1..])
            && (!sent ==> s1 == s)
            && (sent ==> (s1 == Limiter(s.density + 1, s.lastReset) && s.density < FLOOD_MSG_PER_SECOND)
                         || (s1 == Limiter(1, at) && at > s.lastReset + LIMIT))
  {
    hide Ask;
    assert [calls[0]][1..] == [] && Calls(Do(s, calls[0]).2, Do(s, calls[0]).1, []);
    assert Calls(s, t, [calls[0]]);
    CallStep(s, t, calls[0]);
    TimePasses(Do(s, calls[0]).2, Do(s, calls[0]).1, calls[1..]);
  }

  /** From a window that began at lastReset on. */
  lemma {:induction false} WindowBound(s: Limiter, t: int, calls: seq<Call>)
    requires Sound(s, t) && Calls(s, t, calls)
    ensures Messages(s, calls) <=
              FLOOD_MSG_PER_SECOND * (Windows(s.lastReset, End(s, t, calls)) + 1) - s.density
    decreases |calls|
  {
    hide Do, Windows;
    TimePasses(s, t, calls);
    WindowsShrink(s.lastReset, s.lastReset, End(s, t, calls));
    if calls != [] {
      FirstCall(s, t, calls);
      var (sent, at, s1) := Do(s, calls[0]);
      WindowBound(s1, at, calls[1..]);
      WindowsShrink(s.lastReset, at, End(s, t, calls));
    }
  }

  /** In any span of one thread's calls, from any moment on, at most 15 messages for each whole
      window in the span and 30 more are sent. */
  lemma {:induction false} FloodBound(s: Limiter, t: int, calls: seq<Call>)
    requires Sound(s, t) && Calls(s, t, calls)
    ensures Messages(s, calls) <= FLOOD_MSG_PER_SECOND * (Windows(t, End(s, t, calls)) + 2) - s.density
    decreases |calls|
  {
    hide Do, Windows;
    TimePasses(s, t, calls);
    WindowsShrink(t, t, End(s, t, calls));
    if calls != [] {
      FirstCall(s, t, calls);
      var (sent, at, s1) := Do(s, calls[0]);
      WindowsShrink(t, at, End(s, t, calls));
      if s1.lastReset == s.lastReset {
        FloodBound(s1, at, calls[1..]);
      } else {
        WindowBound(s1, at, calls[1..]);
      }
    }
  }

  // ---------- the bound is reached ----------

  function Burst(n: nat, t: int): seq<Call> {
    if n == 0 then [] else [Send(t)] + Burst(n - 1, t)
  }

  /** k full windows, one just after the other. */
  function Bursts(k: nat, t: int): seq<Call> {
    if k == 0 then [] else Burst(FLOOD_MSG_PER_SECOND, t) + Bursts(k - 1, t + LIMIT + 1)
  }

  lemma {:induction false} BurstAdmitted(s: Limiter, n: nat, t: int, u: int, rest: seq<Call>)
    requires u <= t && s.lastReset <= t
    requires n + (if n > 0 && t - s.lastReset > LIMIT then 0 else s.density) <= FLOOD_MSG_PER_SECOND
    requires n > 0 || u == t
    ensures var s1 := if n == 0 then s
                      else if t - s.lastReset > LIMIT then Limiter(n, t) else Limiter(s.density + n, s.lastReset);
            && (Calls(s, u, Burst(n, t) + rest) <==> Calls(s1, t, rest))
            && Messages(s, Burst(n, t) + rest) == n + Messages(s1, rest)
            && End(s, u, Burst(n, t) + rest) == End(s1, t, rest)
    decreases n
  {
    if n == 0 {
      assert Burst(n, t) + rest == rest;
    } else {
      var calls := Burst(n, t) + rest;
      assert calls[0] == Send(t) && calls[1..] == Burst(n - 1, t) + rest;
      BurstAdmitted(Do(s, Send(t)).2, n - 1, t, t, rest);
    }
  }

  /** 15 messages in each of k windows, all within k - 1 window lengths: 225 in less than a second,
      where the constant's name promises 15. */
  lemma {:induction false} BurstsAdmitted(s: Limiter, k: nat, t: int)
    requires k > 0 && s.lastReset + LIMIT < t
    ensures Calls(s, t, Bursts(k, t)) && Messages(s, Bursts(k, t)) == FLOOD_MSG_PER_SECOND * k
    ensures End(s, t, Bursts(k, t)) == t + (k - 1) * (LIMIT + 1)
    ensures k == FLOOD_MSG_PER_SECOND ==> End(s, t, Bursts(k, t)) - t < SECOND
    decreases k
  {
    var t1 := t + LIMIT + 1;
    var s1 := Limiter(FLOOD_MSG_PER_SECOND, t);
    BurstAdmitted(s, FLOOD_MSG_PER_SECOND, t, t, Bursts(k - 1, t1));
    if k > 1 {
      BurstsAdmitted(s1, k - 1, t1);
      assert Bursts(k - 1, t1)[0] == Send(t1);
    }
  }

  /** The bound is reached: 14 messages at the last moment of a window that has had one, and then k
      full windows. */
  lemma BoundReached(k: nat, t: int) returns (calls: seq<Call>)
    requires 0 < k < LIMIT
    ensures var s := Limiter(1, t - LIMIT);
            && Sound(s, t) && Calls(s, t, calls)
            && Messages(s, calls) == FLOOD_MSG_PER_SECOND * (Windows(t, End(s, t, calls)) + 2) - s.density
  {
    var s, s1 := Limiter(1, t - LIMIT), Limiter(FLOOD_MSG_PER_SECOND, t - LIMIT);
    var rest := Bursts(k, t + 1);
    calls := Burst(FLOOD_MSG_PER_SECOND - 1, t) + rest;
    BurstAdmitted(s, FLOOD_MSG_PER_SECOND - 1, t, t, rest);
    BurstsAdmitted(s1, k, t + 1);
    BurstsLater(s1, k, t);
    var span := End(s1, t, rest) - t;
    assert LIMIT == 66_666_666 && span == 66_666_666 * (k - 1) + k;
    var windows := span / 66_666_666;
    assert 66_666_666 * windows <= span < 66_666_666 * (windows + 1);
    assert windows == k - 1;
  }

  lemma BurstsLater(s: Limiter, k: nat, t: int)
    requires k > 0 && Calls(s, t + 1, Bursts(k, t + 1))
    ensures Calls(s, t, Bursts(k, t + 1)) && End(s, t, Bursts(k, t + 1)) == End(s, t + 1, Bursts(k, t + 1))
  {
    assert Bursts(k, t + 1)[0] == Send(t + 1);
  }
}
