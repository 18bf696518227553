/** What the watchdog knows of a module follows from what has happened to it: forks and kills that
    worked, heartbeats, sweeps that found it overdue, restarts, stability checks and its burial. */
module WatchdogHistory {
  import opened Watchdog
  import opened WatchdogRuns

  /** A fork that worked takes two clock readings. Deaths are counted when the module was to be
      restarted, whether or not that worked. */
  datatype Event =
    | Forked(at: int, checkedAt: int)
    | Killed
    | Beaten(at: int)
    | Set(interval: nat)
    | Overdue
    | Death
    | Stable(at: int)
    | Buried

  type History = seq<Event>

  // ---------- what a history says ----------

  /** The last fork that worked was not followed by a kill that worked. */
  predicate Up(h: History) {
    h != [] && (h[|h| - 1].Forked? || (!h[|h| - 1].Killed? && Up(h[..|h| - 1])))
  }

  predicate IsBuried(h: History) {
    exists i :: 0 <= i < |h| && h[i].Buried?
  }

  function IntervalOf(h: History): nat {
    if h == [] then DEFAULT_HEARTBEAT_INTERVAL
    else if h[|h| - 1].Set? then h[|h| - 1].interval
    else IntervalOf(h[..|h| - 1])
  }

  predicate Sign(e: Event) {
    e.Forked? || e.Beaten?
  }

  /** The time of the last fork or heartbeat, at first that of the start of the core. */
  function LastSign(h: History, made: int): int {
    if h == [] then made
    else if Sign(h[|h| - 1]) then h[|h| - 1].at
    else LastSign(h[..|h| - 1], made)
  }

  /** How many sweeps found the module overdue since its last sign of life. */
  function SilentSweeps(h: History): nat {
    if h == [] || Sign(h[|h| - 1]) then 0
    else SilentSweeps(h[..|h| - 1]) + (if h[|h| - 1].Overdue? then 1 else 0)
  }

  function LastChecked(h: History): int {
    if h == [] then 0
    else if h[|h| - 1].Forked? then h[|h| - 1].checkedAt
    else if h[|h| - 1].Stable? then h[|h| - 1].at
    else LastChecked(h[..|h| - 1])
  }

  /** Ten for each death, one off for each stability check, never below zero. */
  function Mortality(h: History): nat {
    if h == [] then 0
    else
      var m := Mortality(h[..|h| - 1]);
      match h[|h| - 1]
      case Death => m + 10
      case Stable(_) => if m > 0 then m - 1 else 0
      case _ => m
  }

  /** What the watchdog has stored after a history. */
  ghost function Stored(h: History, made: int): Data {
    Data(Up(h), IsBuried(h), IntervalOf(h), LastSign(h, made), SilentSweeps(h), LastChecked(h), Mortality(h))
  }

  // ---------- what happens next ----------

  /** A module found dead or silent: it is killed, and then forked anew or, at a mortality of a
      hundred, buried, after another kill if it still lives. A process that could not be killed is
      not forked again. */
  function Revival(h: History, w: World): History {
    (if w.killed then [Killed] else [])
    + if Mortality(h) < 100 then (if w.killed && w.forked then [Forked(w.spawnedAt, w.checkedAt)] else []) + [Death]
      else (if w.aliveAtBurial && w.killedAtBurial then [Killed] else []) + [Buried]
  }

  /** The sweep finds no heartbeat within the interval. */
  predicate Late(h: History, made: int, w: World) {
    w.now > LastSign(h, made) + IntervalOf(h) * 1_000_000
  }

  /** A living module is revived at the fifth sweep without a sign of life. */
  function Beats(h: History, made: int, w: World): History {
    if !Late(h, made, w) then []
    else [Overdue] + if SilentSweeps(h) >= 4 then Revival(h, w) else []
  }

  /** What one sweep does to a module. */
  ghost function Happens(h: History, made: int, w: World): History {
    if IsBuried(h) || !Up(h) then []
    else if !w.alive then Revival(h, w)
    else
      var missed := Beats(h, made, w);
      missed + if w.stableAt - LastChecked(h + missed) >= 60_000_000_000 then [Stable(w.stampedAt)] else []
  }

  ghost function Later(h: History, made: int, step: Step): History {
    match step
    case Tick(w) => h + Happens(h, made, w)
    case HeartbeatAt(now) => h + [Beaten(now)]
    case SetInterval(interval) => h + [Set(interval)]
  }

  ghost function Told(h: History, made: int, steps: seq<Step>): History
    decreases |steps|
  {
    if steps == [] then h else Told(Later(h, made, steps[0]), made, steps[1..])
  }

  /** What one event does to the stored data. */
  function Stores(d: Data, e: Event): Data {
    match e
    case Forked(at, checkedAt) => d.(running := true, lastHeartbeat := at, missed := 0, lastCheck := checkedAt)
    case Killed => d.(running := false)
    case Beaten(at) => d.(lastHeartbeat := at, missed := 0)
    case Set(interval) => d.(interval := interval)
    case Overdue => d.(missed := d.missed + 1)
    case Death => d.(mortality := d.mortality + 10)
    case Stable(at) => d.(mortality := if d.mortality > 0 then d.mortality - 1 else 0, lastCheck := at)
    case Buried => d.(buried := true)
  }

  lemma EventStored(h: History, made: int, e: Event)
    ensures Stored(h + [e], made) == Stores(Stored(h, made), e)
  {
    var r := h + [e];
    assert r[..|r| - 1] == h && r[|r| - 1] == e;
    if IsBuried(h) {
      var i :| 0 <= i < |h| && h[i].Buried?;
      assert r[i].Buried?;
    }
    if e.Buried? { assert r[|h|].Buried?; }
  }

  /** What several events do, one after the other. */
  function StoresAll(d: Data, es: History): Data
    decreases |es|
  {
    if es == [] then d else StoresAll(Stores(d, es[0]), es[1..])
  }

  lemma {:induction false} EventsStored(h: History, made: int, es: History)
    ensures Stored(h + es, made) == StoresAll(Stored(h, made), es)
    decreases |es|
  {
    hide Stored, Stores;
    if es == [] {
      assert h + es == h;
    } else {
      EventStored(h, made, es[0]);
      EventsStored(h + [es[0]], made, es[1..]);
      assert h + es == (h + [es[0]]) + es[1..];
    }
  }

  lemma {:induction false} StoresConcat(d: Data, a: History, b: History)
    ensures StoresAll(d, a + b) == StoresAll(StoresAll(d, a), b)
    decreases |a|
  {
    hide Stores;
    if a == [] {
      assert a + b == b;
    } else {
      assert (a + b)[1..] == a[1..] + b;
      StoresConcat(Stores(d, a[0]), a[1..], b);
    }
  }

  lemma StoresOne(d: Data, e: Event)
    ensures StoresAll(d, [e]) == Stores(d, e) && StoresAll(d, []) == d
  {
    assert [e][1..] == [];
  }

  /** The revival of the code stores the events of the revival above. */
  lemma RevivalStored(h: History, d: Data, w: World)
    requires d.running && !d.buried && d.mortality == Mortality(h)
    ensures Resurrect(d, w) == StoresAll(d, Revival(h, w))
  {
    hide Mortality, StoresAll;
    var kill := if w.killed then [Killed] else [];
    var rest := if Mortality(h) < 100 then
                  (if w.killed && w.forked then [Forked(w.spawnedAt, w.checkedAt)] else []) + [Death]
                else (if w.aliveAtBurial && w.killedAtBurial then [Killed] else []) + [Buried];
    StoresConcat(d, kill, rest);
    StoresOne(d, Killed);
    var d1 := Kill(d, w.killed);
    assert d1 == StoresAll(d, kill);
    if Mortality(h) < 100 {
      var fork := if w.killed && w.forked then [Forked(w.spawnedAt, w.checkedAt)] else [];
      StoresConcat(d1, fork, [Death]);
      StoresOne(d1, Forked(w.spawnedAt, w.checkedAt));
      StoresOne(StoresAll(d1, fork), Death);
    } else {
      var again := if w.aliveAtBurial && w.killedAtBurial then [Killed] else [];
      StoresConcat(d1, again, [Buried]);
      StoresOne(d1, Killed);
      StoresOne(StoresAll(d1, again), Buried);
    }
  }

  lemma BeatsStored(h: History, made: int, w: World)
    requires Up(h) && !IsBuried(h)
    ensures MissBeat(Stored(h, made), w) == Stored(h + Beats(h, made, w), made)
  {
    hide Up, IsBuried, IntervalOf, LastSign, SilentSweeps, LastChecked, Mortality, Revival, Resurrect, StoresAll;
    var d := Stored(h, made);
    EventsStored(h, made, Beats(h, made, w));
    StoresOne(d, Overdue);
    if Late(h, made, w) {
      StoresConcat(d, [Overdue], if SilentSweeps(h) >= 4 then Revival(h, w) else []);
      if SilentSweeps(h) >= 4 {
        RevivalStored(h, Stores(d, Overdue), w);
      } else {
        StoresOne(Stores(d, Overdue), Overdue);
      }
    }
  }

  /** One sweep does to the stored data what happens by the history. */
  lemma SweepStored(h: History, made: int, w: World)
    ensures CheckModule(Stored(h, made), w) == Stored(h + Happens(h, made, w), made)
  {
    hide Up, IsBuried, IntervalOf, LastSign, SilentSweeps, LastChecked, Mortality, Revival, Resurrect, StoresAll,
         MissBeat, Beats;
    if IsBuried(h) || !Up(h) {
      assert h + [] == h;
    } else if !w.alive {
      RevivalStored(h, Stored(h, made), w);
      EventsStored(h, made, Revival(h, w));
    } else {
      BeatsStored(h, made, w);
      var h1 := h + Beats(h, made, w);
      EventStored(h1, made, Stable(w.stampedAt));
      assert h + (Beats(h, made, w) + [Stable(w.stampedAt)]) == h1 + [Stable(w.stampedAt)];
      assert h + (Beats(h, made, w) + []) == h1;
    }
  }

  /** In every run, whatever sweeps, heartbeats and settings come in which order, what is stored is
      what the history says. */
  lemma {:induction false} StoredIsTold(l: Life, h: History, made: int, steps: seq<Step>)
    requires l.d == Stored(h, made) && Run(l, steps)
    ensures After(l, steps).d == Stored(Told(h, made, steps), made)
    decreases |steps|
  {
    hide Stored, CheckModule, Restarts, Decreases, Misses, Happens;
    if steps != [] {
      StepStored(l, h, made, steps[0]);
      StoredIsTold(Next(l, steps[0]), Later(h, made, steps[0]), made, steps[1..]);
    }
  }

  lemma StepStored(l: Life, h: History, made: int, step: Step)
    requires l.d == Stored(h, made)
    ensures Next(l, step).d == Stored(Later(h, made, step), made)
  {
    hide Up, IsBuried, IntervalOf, LastSign, SilentSweeps, LastChecked, Mortality, CheckModule, Happens;
    match step {
      case Tick(w) => SweepStored(h, made, w);
      case HeartbeatAt(now) => EventStored(h, made, Beaten(now));
      case SetInterval(interval) => EventStored(h, made, Set(interval));
    }
  }

  /** A module after the start of the core: its history is a fork, or nothing if that failed. */
  lemma StartStored(made: int, forked: bool, now: int)
    ensures Spawn(Fresh(made), forked, now, now) == Stored(if forked then [Forked(now, now)] else [], made)
  {
    EventStored([], made, Forked(now, now));
    assert [] + [Forked(now, now)] == [Forked(now, now)];
  }

  // ---------- nothing that is down stays down ----------

  predicate Acted(es: History) {
    exists i :: 0 <= i < |es| && (es[i].Death? || es[i].Buried?)
  }

  /** A module that is up and not buried is restarted or buried in the sweep that finds it dead, or
      silent for the fifth time since its last sign of life, and in no other sweep. */
  lemma RevivedIff(h: History, made: int, w: World)
    requires Up(h) && !IsBuried(h)
    ensures Acted(Happens(h, made, w)) <==> !w.alive || (Late(h, made, w) && SilentSweeps(h) >= 4)
  {
    hide Up, IsBuried, LastSign, SilentSweeps, LastChecked, Mortality, Late;
    var es := Happens(h, made, w);
    var revival := Revival(h, w);
    assert revival[|revival| - 1].Death? || revival[|revival| - 1].Buried?;
    if !w.alive {
      assert es[|revival| - 1] == revival[|revival| - 1];
    } else if Late(h, made, w) && SilentSweeps(h) >= 4 {
      assert es[|revival|] == revival[|revival| - 1];
    }
  }

  /** If kill and fork work, a module below the critical mortality is up again after its revival. */
  lemma RevivedUp(h: History, made: int, w: World)
    requires w.killed && w.forked && Mortality(h) < 100
    ensures var r := Stored(h + Revival(h, w), made);
            r.running && r.lastHeartbeat == w.spawnedAt && r.missed == 0 && r.mortality == Mortality(h) + 10
  {
    hide Up, IsBuried, IntervalOf, LastSign, SilentSweeps, LastChecked, Mortality;
    var fork := Forked(w.spawnedAt, w.checkedAt);
    assert h + Revival(h, w) == h + [Killed] + [fork] + [Death];
    EventStored(h, made, Killed);
    EventStored(h + [Killed], made, fork);
    EventStored(h + [Killed] + [fork], made, Death);
  }
}
