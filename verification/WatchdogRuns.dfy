/** Whole runs of the watchdog for one module: sweeps, heartbeats and interval changes in any order
    on a monotone clock. */
module WatchdogRuns {
  import opened Watchdog

  datatype Step = Tick(w: World) | HeartbeatAt(now: int) | SetInterval(interval: nat)

  /** The module's data with its history: when it was first spawned, how often it was restarted and
      how often its mortality decreased, the sweeps that missed a heartbeat since the last one, the
      interval in force at the first of them, and the clock. */
  datatype Life = Life(d: Data, since: int, restarts: nat, drops: nat, misses: seq<int>, missInterval: nat,
                       lastSweep: int, clock: int)

  function Born(now: int): Life {
    Life(Spawn(Fresh(now), true, now, now), now, 0, 0, [], 0, now, now)
  }

  /** The sweep calls resurrectModule. */
  predicate Dies(d: Data, w: World) {
    && !d.buried && d.running
    && (w.alive ==> Silent(d, w) && d.missed + 1 >= MAX_MISSED_HEARTBEATS)
  }

  /** It does so and restarts the module instead of burying it. */
  predicate Restarts(d: Data, w: World) {
    Dies(d, w) && d.mortality < CRITICAL_MORTALITY_RATE
  }

  predicate Decreases(d: Data, w: World) {
    !d.buried && d.running && w.alive && StableAgain(MissBeat(d, w), w)
  }

  predicate Misses(d: Data, w: World) {
    !d.buried && d.running && w.alive && Silent(d, w)
  }

  predicate Enabled(l: Life, step: Step) {
    match step
    case Tick(w) =>
      && l.clock <= w.now <= w.spawnedAt <= w.checkedAt <= w.stableAt <= w.stampedAt
      && l.lastSweep + CHECK_INTERVAL * MILLISECOND <= w.now
    case HeartbeatAt(now) => l.clock <= now
    case SetInterval(_) => true
  }

  function Next(l: Life, step: Step): Life {
    match step
    case Tick(w) =>
      var d := CheckModule(l.d, w);
      Life(d, l.since,
           l.restarts + (if Restarts(l.d, w) then 1 else 0),
           l.drops + (if Decreases(l.d, w) then 1 else 0),
           if d.missed == 0 then [] else if Misses(l.d, w) then l.misses + [w.now] else l.misses,
           if Misses(l.d, w) && l.d.missed == 0 then l.d.interval else l.missInterval,
           w.now, w.stampedAt)
    case HeartbeatAt(now) => l.(d := Beat(l.d, now), misses := [], clock := now)
    case SetInterval(interval) => l.(d := l.d.(interval := interval))
  }

  ghost predicate Run(l: Life, steps: seq<Step>)
    decreases |steps|
  {
    steps == [] || (Enabled(l, steps[0]) && Run(Next(l, steps[0]), steps[1..]))
  }

  ghost function After(l: Life, steps: seq<Step>): Life
    requires Run(l, steps)
    decreases |steps|
  {
    if steps == [] then l else After(Next(l, steps[0]), steps[1..])
  }

  // ---------- mortality ----------

  const PEAK := CRITICAL_MORTALITY_RATE - 1 + MORTALITY_STEP

  /** Restarts add a step each, decreases take one off at most, and are a stability interval apart. */
  predicate MortalityInv(l: Life) {
    && l.d.mortality <= PEAK
    && MORTALITY_STEP * l.restarts <= l.d.mortality + MORTALITY_DECREASE * l.drops
    && STABILITY_CHECK_INTERVAL * MILLISECOND * l.drops <= l.d.lastCheck - l.since
    && l.d.lastCheck <= l.clock
  }

  lemma TickMortality(l: Life, w: World)
    requires MortalityInv(l) && Enabled(l, Tick(w))
    ensures MortalityInv(Next(l, Tick(w)))
  {
    hide Silent;
    assert STABILITY_CHECK_INTERVAL * MILLISECOND == 60_000_000_000;
  }

  lemma {:induction false} RunMortality(l: Life, steps: seq<Step>)
    requires MortalityInv(l) && Run(l, steps)
    ensures MortalityInv(After(l, steps)) && After(l, steps).since == l.since
    decreases |steps|
  {
    hide CheckModule, Restarts, Decreases, Misses;
    if steps != [] {
      if steps[0].Tick? { TickMortality(l, steps[0].w); }
      RunMortality(Next(l, steps[0]), steps[1..]);
    }
  }

  /** However a module behaves, the number of its restarts is bounded by the time it has existed:
      a step of mortality for each, at most the peak, and what the stability checks took off. The
      unsigned counter stays between 0 and the peak. */
  lemma RestartBound(born: int, steps: seq<Step>)
    requires Run(Born(born), steps)
    ensures var l := After(Born(born), steps);
            && MORTALITY_STEP * l.restarts
               <= PEAK + MORTALITY_DECREASE * ((l.clock - born) / (STABILITY_CHECK_INTERVAL * MILLISECOND))
            && l.d.mortality <= PEAK
  {
    hide Run, After, CheckModule;
    RunMortality(Born(born), steps);
    var l := After(Born(born), steps);
    assert STABILITY_CHECK_INTERVAL * MILLISECOND == 60_000_000_000;
    var k := (l.clock - born) / 60_000_000_000;
    assert 60_000_000_000 * l.drops <= l.clock - born < 60_000_000_000 * (k + 1);
  }

  // ---------- silence ----------

  /** Sweeps at least a check interval apart. */
  predicate Apart(times: seq<int>) {
    forall i :: 0 < i < |times| ==> times[i - 1] + CHECK_INTERVAL * MILLISECOND <= times[i]
  }

  /** The missed counter counts the sweeps since the last heartbeat or spawn that found it overdue. */
  predicate SilenceInv(l: Life) {
    && |l.misses| == l.d.missed && Apart(l.misses)
    && l.lastSweep <= l.clock && l.d.lastHeartbeat <= l.clock
    && (l.misses != [] ==>
          && l.misses[0] - l.d.lastHeartbeat > l.missInterval * MILLISECOND
          && l.misses[|l.misses| - 1] <= l.lastSweep)
  }

  lemma TickSilence(l: Life, w: World)
    requires SilenceInv(l) && Enabled(l, Tick(w))
    ensures SilenceInv(Next(l, Tick(w)))
  {}

  lemma {:induction false} RunSilence(l: Life, steps: seq<Step>)
    requires SilenceInv(l) && Run(l, steps)
    ensures SilenceInv(After(l, steps))
    decreases |steps|
  {
    hide CheckModule, Restarts, Decreases, Misses, Apart;
    if steps != [] {
      assert Apart([]) by { EmptyApart(); }
      if steps[0].Tick? { TickSilence(l, steps[0].w); }
      RunSilence(Next(l, steps[0]), steps[1..]);
    }
  }

  lemma EmptyApart()
    ensures Apart([])
  {}

  lemma {:induction false} ApartSpan(times: seq<int>, k: nat)
    requires Apart(times) && k < |times|
    ensures times[0] + k * CHECK_INTERVAL * MILLISECOND <= times[k]
  {
    if k > 0 { ApartSpan(times, k - 1); }
  }

  /** A living module is restarted or buried only after five sweeps without a heartbeat in between,
      so its silence exceeds the interval in force at the first of them and four check intervals. */
  lemma SilenceIsLong(born: int, steps: seq<Step>, w: World)
    requires Run(Born(born), steps) && Enabled(After(Born(born), steps), Tick(w))
    requires Dies(After(Born(born), steps).d, w) && w.alive
    ensures var l := After(Born(born), steps);
            var interval := if l.d.missed == 0 then l.d.interval else l.missInterval;
            && |l.misses + [w.now]| >= MAX_MISSED_HEARTBEATS && Apart(l.misses + [w.now])
            && w.now - l.d.lastHeartbeat > (interval + (MAX_MISSED_HEARTBEATS - 1) * CHECK_INTERVAL) * MILLISECOND
  {
    hide Run, After;
    RunSilence(Born(born), steps);
    var l := After(Born(born), steps);
    var all := l.misses + [w.now];
    ApartSpan(all, |all| - 1);
    assert (|all| - 1) * CHECK_INTERVAL >= (MAX_MISSED_HEARTBEATS - 1) * CHECK_INTERVAL;
  }

  // ---------- burial ----------

  /** A sweep buries a module exactly when it would have to restart it with mortality at the
      critical rate; burying spawns nothing and takes at most one decrease off. */
  lemma BurialIsCritical(d: Data, w: World)
    requires !d.buried
    ensures CheckModule(d, w).buried <==> Dies(d, w) && d.mortality >= CRITICAL_MORTALITY_RATE
    ensures var r := CheckModule(d, w);
            r.buried ==> d.mortality - MORTALITY_DECREASE <= r.mortality <= d.mortality
                         && (r.running ==> d.running) && r.lastHeartbeat == d.lastHeartbeat
  {}

  /** Burial is for good: no step spawns, restarts or sweeps a buried module again. */
  lemma {:induction false} BuriedForever(l: Life, steps: seq<Step>)
    requires l.d.buried && Run(l, steps)
    ensures var r := After(l, steps);
            && r.d.buried && r.restarts == l.restarts && r.drops == l.drops
            && r.d.mortality == l.d.mortality && r.d.running == l.d.running && r.d.lastCheck == l.d.lastCheck
    decreases |steps|
  {
    if steps != [] { BuriedForever(Next(l, steps[0]), steps[1..]); }
  }

  /** A module whose fork failed, at the start or at a restart, is not touched by any later sweep. */
  lemma {:induction false} NotRunningForever(l: Life, steps: seq<Step>)
    requires !l.d.running && Run(l, steps)
    ensures !After(l, steps).d.running && After(l, steps).restarts == l.restarts
    decreases |steps|
  {
    if steps != [] { NotRunningForever(Next(l, steps[0]), steps[1..]); }
  }
}
