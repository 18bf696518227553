/** The fire limit of a rule, although the check runs outside the lock and retries of older events
    of the rule move its time stamp at any moment. */
module FireLimit {
  import opened RuleEngine
  import opened AckProtocol

  /** The first action for an event of the rule. */
  predicate First(m: Sent, rule: nat) {
    m.Action? && m.ruleId == rule && m.attempt == 1
  }

  /** Any two first actions of the rule are at least limit apart. */
  predicate Limited(log: seq<Sent>, rule: nat, limit: int) {
    forall i, j :: 0 <= i < j < |log| && First(log[i], rule) && First(log[j], rule) ==>
      log[i].stamp + limit <= log[j].stamp
  }

  /** All first actions of the rule are at or before t. */
  predicate FirstsBy(log: seq<Sent>, rule: nat, t: int) {
    forall i :: 0 <= i < |log| && First(log[i], rule) ==> log[i].stamp <= t
  }

  /** How many of the rule's events are between the check and the commit. */
  function InFlight(admitted: seq<Admission>, rule: nat): nat {
    if admitted == [] then 0
    else InFlight(admitted[..|admitted| - 1], rule) + (if admitted[|admitted| - 1].ruleId == rule then 1 else 0)
  }

  /** At no moment more than n of the rule's events are between the check and the commit, as when
      n threads enqueue them. */
  ghost predicate BoundedRun(s: Sys, steps: seq<Step>, rule: nat, n: nat)
    decreases |steps|
  {
    && InFlight(s.admitted, rule) <= n
    && (steps == [] || (Enabled(s, steps[0]) && BoundedRun(Next(s, steps[0]), steps[1..], rule, n)))
  }

  lemma {:induction false} BoundedIsRun(s: Sys, steps: seq<Step>, rule: nat, n: nat)
    requires BoundedRun(s, steps, rule, n)
    ensures Run(s, steps)
    decreases |steps|
  {
    hide Enabled, Next, InFlight;
    if steps != [] { BoundedIsRun(Next(s, steps[0]), steps[1..], rule, n); }
  }

  predicate Alone(admitted: seq<Admission>, rule: nat) {
    forall i, j :: 0 <= i < j < |admitted| ==> admitted[i].ruleId != rule || admitted[j].ruleId != rule
  }

  lemma {:induction false} InFlightAlone(admitted: seq<Admission>, rule: nat)
    ensures InFlight(admitted, rule) == 0 <==> forall i :: 0 <= i < |admitted| ==> admitted[i].ruleId != rule
    ensures InFlight(admitted, rule) <= 1 ==> Alone(admitted, rule)
  {
    if admitted != [] { InFlightAlone(admitted[..|admitted| - 1], rule); }
  }

  /** Stamps never decrease, so every first action is at or before its rule's stamp. */
  predicate StampInv(e: Engine, rule: nat, limit: int, clock: int) {
    && rule < |e.rules| && |e.stamps| == |e.rules| && Limit(e.rules[rule]) == limit
    && e.stamps[rule] <= clock
    && FirstsBy(e.log, rule, e.stamps[rule])
    && Limited(e.log, rule, limit)
  }

  /** Under a positive limit, the one admitted event of the rule was checked late enough. */
  predicate AdmissionInv(s: Sys, rule: nat, limit: int) {
    && (forall i :: 0 <= i < |s.admitted| ==> s.admitted[i].checkedAt <= s.clock)
    && (limit > 0 ==>
          && Alone(s.admitted, rule)
          && (forall i :: 0 <= i < |s.admitted| && s.admitted[i].ruleId == rule ==>
                FirstsBy(s.engine.log, rule, s.admitted[i].checkedAt - limit)))
  }

  /** Messages that are no first action of the rule keep what is known of the log. */
  predicate Extends(log: seq<Sent>, longer: seq<Sent>, rule: nat) {
    && |log| <= |longer| && longer[..|log|] == log
    && forall i :: |log| <= i < |longer| ==> !First(longer[i], rule)
  }

  lemma ExtendsKeeps(log: seq<Sent>, longer: seq<Sent>, rule: nat, limit: int, t: int)
    requires Extends(log, longer, rule)
    ensures FirstsBy(log, rule, t) ==> FirstsBy(longer, rule, t)
    ensures Limited(log, rule, limit) ==> Limited(longer, rule, limit)
  {
    assert forall i :: 0 <= i < |log| ==> longer[i] == log[i];
  }

  lemma {:induction false} SweepStamps(e: Engine, replies: seq<Entry>, k: nat, now: int, readings: seq<Reading>,
                                       t: int, rule: nat)
    requires EngineInv(e, replies) && k <= |e.queue| && |readings| == |e.queue| - k
    requires now <= t && Monotone(t, readings) && rule < |e.rules| && e.stamps[rule] <= t
    ensures var f := RuleEngine.Sweep(e, k, now, readings);
            && e.stamps[rule] <= f.stamps[rule] <= Latest(t, readings)
            && Extends(e.log, f.log, rule)
    decreases |readings|
  {
    hide EngineInv, SweepOne, Extends;
    StampsMatch(e, replies);
    if k < |e.queue| {
      SweepOneInv(e, replies, k, now, readings[0]);
      SweepOneStamps(e, replies, k, now, readings[0], t, rule);
      var f := SweepOne(e, k, now, readings[0]);
      var next := if |f.queue| == |e.queue| then k + 1 else k;
      SweepStamps(f, replies, next, now, readings[1..], readings[0].sent, rule);
      ExtendsTwice(e.log, f.log, RuleEngine.Sweep(f, next, now, readings[1..]).log, rule);
    } else {
      ExtendsSelf(e.log, rule);
    }
  }

  lemma ExtendsSelf(log: seq<Sent>, rule: nat)
    ensures Extends(log, log, rule)
  {}

  lemma ReplyExtends(e: Engine, x: Entry, rule: nat)
    ensures Extends(e.log, Reply(e, x).log, rule)
  {}

  lemma ExtendsTwice(a: seq<Sent>, b: seq<Sent>, c: seq<Sent>, rule: nat)
    requires Extends(a, b, rule) && Extends(b, c, rule)
    ensures Extends(a, c, rule)
  {
    assert c[..|a|] == c[..|b|][..|a|];
    assert forall i :: 0 <= i < |b| ==> c[i] == b[i];
  }

  lemma SweepOneStamps(e: Engine, replies: seq<Entry>, k: nat, now: int, r: Reading, t: int, rule: nat)
    requires EngineInv(e, replies) && k < |e.queue| && t <= r.stamp <= r.sent
    requires rule < |e.rules| && e.stamps[rule] <= t
    ensures var f := SweepOne(e, k, now, r);
            e.stamps[rule] <= f.stamps[rule] <= r.sent && Extends(e.log, f.log, rule)
  {
    hide Fates, History, Aborts, Increasing, Actions;
    assert Tracked(e.log, e.queue[k]);
  }

  lemma NextLimited(s: Sys, step: Step, rule: nat, limit: int)
    requires Inv(s) && Enabled(s, step) && (limit > 0 ==> Alone(Next(s, step).admitted, rule))
    requires StampInv(s.engine, rule, limit, s.clock) && AdmissionInv(s, rule, limit)
    ensures var r := Next(s, step); StampInv(r.engine, rule, limit, r.clock) && AdmissionInv(r, rule, limit)
  {
    hide EngineInv, First, FirstsBy, Limited, Limit, Extends;
    match step {
      case CheckEvent(given, ruleId, vars, now) => CheckLimited(s, given, ruleId, vars, now, rule, limit);
      case CommitEvent(i, r) => CommitLimited(s, i, r, rule, limit);
      case TakeAck(_) =>
      case SendAck(i) =>
        ReplyExtends(s.engine, s.replies[i], rule);
        OtherLimited(s, Reply(s.engine, s.replies[i]), s.clock, rule, limit);
      case ReadClock(_) =>
      case RunSweep(i, readings) =>
        SweepStamps(s.engine, s.replies, 0, s.sweeps[i], readings, s.clock, rule);
        SweepInv(s.engine, s.replies, 0, s.sweeps[i], readings, s.clock);
        OtherLimited(s, RuleEngine.Sweep(s.engine, 0, s.sweeps[i], readings), Latest(s.clock, readings), rule, limit);
    }
  }

  /** A change of the engine that raises stamps at most and sends no first action of the rule. */
  lemma OtherLimited(s: Sys, f: Engine, clock: int, rule: nat, limit: int)
    requires StampInv(s.engine, rule, limit, s.clock) && AdmissionInv(s, rule, limit)
    requires f.rules == s.engine.rules && |f.stamps| == |f.rules| && s.clock <= clock
    requires s.engine.stamps[rule] <= f.stamps[rule] <= clock && Extends(s.engine.log, f.log, rule)
    ensures StampInv(f, rule, limit, clock)
    ensures AdmissionInv(s.(engine := f, clock := clock), rule, limit)
  {
    hide First, Limited, Extends, Limit;
    ExtendsKeeps(s.engine.log, f.log, rule, limit, s.engine.stamps[rule]);
    forall i | 0 <= i < |s.admitted| && s.admitted[i].ruleId == rule && limit > 0
      ensures FirstsBy(f.log, rule, s.admitted[i].checkedAt - limit) {
      ExtendsKeeps(s.engine.log, f.log, rule, limit, s.admitted[i].checkedAt - limit);
    }
  }

  lemma CheckLimited(s: Sys, given: nat, ruleId: nat, vars: string, now: int, rule: nat, limit: int)
    requires Enabled(s, CheckEvent(given, ruleId, vars, now))
    requires limit > 0 ==> Alone(Next(s, CheckEvent(given, ruleId, vars, now)).admitted, rule)
    requires StampInv(s.engine, rule, limit, s.clock) && AdmissionInv(s, rule, limit)
    ensures var r := Next(s, CheckEvent(given, ruleId, vars, now));
            StampInv(r.engine, rule, limit, r.clock) && AdmissionInv(r, rule, limit)
  {
    hide Limited, Limit;
    OtherLimited(s, Refuse(s.engine, given, ruleId, vars), now, rule, limit);
    OtherLimited(s, s.engine, now, rule, limit);
    if limit > 0 { LimitPositive(s.engine.rules[rule]); }
  }

  lemma LimitPositive(rule: Rule)
    requires Limit(rule) > 0
    ensures rule.fireLimit > 0.0
  {}

  lemma CommitLimited(s: Sys, i: nat, r: Reading, rule: nat, limit: int)
    requires Inv(s) && Enabled(s, CommitEvent(i, r))
    requires StampInv(s.engine, rule, limit, s.clock) && AdmissionInv(s, rule, limit)
    ensures var t := Next(s, CommitEvent(i, r));
            StampInv(t.engine, rule, limit, t.clock) && AdmissionInv(t, rule, limit)
  {
    hide EngineInv, Limit, Extends;
    var rest := s.(admitted := Without(s.admitted, i));
    assert AdmissionInv(rest, rule, limit) by { FewerAdmitted(s, i, rule, limit); }
    var e := s.engine;
    var f := Commit(e, s.admitted[i].ruleId, s.admitted[i].vars, r);
    var m := f.log[|e.log|];
    assert f.log == e.log + [m];
    if s.admitted[i].ruleId != rule {
      ExtendsOne(e.log, m, rule);
      OtherLimited(rest, f, r.sent, rule, limit);
    } else if limit > 0 {
      assert FirstsBy(e.log, rule, s.admitted[i].checkedAt - limit);
      forall j | 0 <= j < |rest.admitted| ensures rest.admitted[j].ruleId != rule {
        assert rest.admitted[j] == s.admitted[if j < i then j else j + 1];
      }
    }
  }

  lemma FewerAdmitted(s: Sys, i: nat, rule: nat, limit: int)
    requires i < |s.admitted| && AdmissionInv(s, rule, limit)
    ensures AdmissionInv(s.(admitted := Without(s.admitted, i)), rule, limit)
  {
    hide FirstsBy;
    var rest := Without(s.admitted, i);
    forall j | 0 <= j < |rest| ensures rest[j] == s.admitted[if j < i then j else j + 1] {}
  }

  lemma ExtendsOne(log: seq<Sent>, m: Sent, rule: nat)
    requires !First(m, rule)
    ensures Extends(log, log + [m], rule)
  {}

  lemma {:induction false} BoundedRunInv(s: Sys, steps: seq<Step>, rule: nat, n: nat, limit: int)
    requires Inv(s) && StampInv(s.engine, rule, limit, s.clock) && AdmissionInv(s, rule, limit)
    requires BoundedRun(s, steps, rule, n) && (limit > 0 ==> n <= 1)
    ensures Run(s, steps) && Limited(After(s, steps).engine.log, rule, limit)
    decreases |steps|
  {
    hide Inv, AdmissionInv, Enabled, Next, Limit, InFlight;
    if steps != [] {
      var r := Next(s, steps[0]);
      BoundedNow(r, steps[1..], rule, n);
      InFlightAlone(r.admitted, rule);
      NextInv(s, steps[0]);
      NextLimited(s, steps[0], rule, limit);
      BoundedRunInv(r, steps[1..], rule, n, limit);
    }
  }

  lemma BoundedNow(s: Sys, steps: seq<Step>, rule: nat, n: nat)
    requires BoundedRun(s, steps, rule, n)
    ensures InFlight(s.admitted, rule) <= n
  {}

  /** A disabled rule's events are never admitted. */
  lemma {:induction false} DisabledBounded(s: Sys, steps: seq<Step>, rule: nat)
    requires Run(s, steps) && rule < |s.engine.rules| && s.engine.rules[rule].isDisabled
    requires InFlight(s.admitted, rule) == 0
    ensures BoundedRun(s, steps, rule, 1)
    decreases |steps|
  {
    hide Enabled, Next, InFlight;
    if steps != [] {
      DisabledStep(s, steps[0], rule);
      DisabledBounded(Next(s, steps[0]), steps[1..], rule);
    }
  }

  lemma DisabledStep(s: Sys, step: Step, rule: nat)
    requires Enabled(s, step) && rule < |s.engine.rules| && s.engine.rules[rule].isDisabled
    requires InFlight(s.admitted, rule) == 0
    ensures Next(s, step).engine.rules == s.engine.rules && InFlight(Next(s, step).admitted, rule) == 0
  {
    InFlightAlone(s.admitted, rule);
    InFlightAlone(Next(s, step).admitted, rule);
  }

  lemma StartLimited(rules: seq<Rule>, start: nat, rule: nat)
    requires rule < |rules|
    ensures Inv(Init(rules, start))
    ensures var s := Init(rules, start);
            StampInv(s.engine, rule, Limit(rules[rule]), s.clock) && AdmissionInv(s, rule, Limit(rules[rule]))
  {
    hide Limit;
    InitInv(rules, start);
  }

  /** The limit holds in every run in which at most n of the rule's events overlap. */
  ghost predicate AlwaysLimited(rules: seq<Rule>, rule: nat, n: nat)
    requires rule < |rules|
  {
    forall start: nat, steps :: BoundedRun(Init(rules, start), steps, rule, n) ==>
      Run(Init(rules, start), steps) && Limited(After(Init(rules, start), steps).engine.log, rule, Limit(rules[rule]))
  }

  /** When one thread enqueues a rule's events, the first actions of any two of them are at least
      the fire limit apart, whatever the acks, sweeps and other rules' events do in between. */
  lemma FireLimitHolds(rules: seq<Rule>, start: nat, steps: seq<Step>, rule: nat)
    requires rule < |rules| && BoundedRun(Init(rules, start), steps, rule, 1)
    ensures Run(Init(rules, start), steps)
    ensures Limited(After(Init(rules, start), steps).engine.log, rule, Limit(rules[rule]))
  {
    hide BoundedRun, Limit, Init, Inv, StampInv, AdmissionInv;
    StartLimited(rules, start, rule);
    BoundedRunInv(Init(rules, start), steps, rule, 1, Limit(rules[rule]));
  }

  /** For every rule: its fire limit holds in all runs in which at most n of its events are between
      check and commit, exactly when n is at most one or there is nothing to keep, because the limit
      rounds to no time at all or the rule is disabled. */
  lemma FireLimitIff(rules: seq<Rule>, rule: nat, n: nat)
    requires rule < |rules|
    ensures AlwaysLimited(rules, rule, n) <==> n <= 1 || Limit(rules[rule]) <= 0 || rules[rule].isDisabled
  {
    hide BoundedRun, Limit, Init, Inv, StampInv, AdmissionInv, Limited, Run, After;
    if n <= 1 || Limit(rules[rule]) <= 0 || rules[rule].isDisabled {
      forall start: nat, steps | BoundedRun(Init(rules, start), steps, rule, n)
        ensures Run(Init(rules, start), steps)
        ensures Limited(After(Init(rules, start), steps).engine.log, rule, Limit(rules[rule])) {
        BoundedIsRun(Init(rules, start), steps, rule, n);
        StartLimited(rules, start, rule);
        if rules[rule].isDisabled {
          NoneAtStart(rules, start, rule);
          DisabledBounded(Init(rules, start), steps, rule);
          FireLimitHolds(rules, start, steps, rule);
        } else {
          BoundedRunInv(Init(rules, start), steps, rule, n, Limit(rules[rule]));
        }
      }
    } else {
      var steps := Race(rules, rule, n);
      assert BoundedRun(Init(rules, 0), steps, rule, n);
    }
  }

  lemma NoneAtStart(rules: seq<Rule>, start: nat, rule: nat)
    ensures Init(rules, start).engine.rules == rules && InFlight(Init(rules, start).admitted, rule) == 0
  {}

  lemma BoundedCons(s: Sys, step: Step, rest: seq<Step>, rule: nat, n: nat)
    requires InFlight(s.admitted, rule) <= n && Enabled(s, step)
    requires Run(Next(s, step), rest) && BoundedRun(Next(s, step), rest, rule, n)
    ensures Run(s, [step] + rest) && BoundedRun(s, [step] + rest, rule, n)
    ensures After(s, [step] + rest) == After(Next(s, step), rest)
  {
    hide Enabled, Next, InFlight;
    RunCons(s, step, rest);
    assert ([step] + rest)[1..] == rest;
  }

  /** Two checks before two commits, all at the moment the limit allows the first. */
  lemma Race(rules: seq<Rule>, rule: nat, n: nat) returns (steps: seq<Step>)
    requires rule < |rules| && !rules[rule].isDisabled && Limit(rules[rule]) > 0 && n >= 2
    ensures Run(Init(rules, 0), steps) && BoundedRun(Init(rules, 0), steps, rule, n)
    ensures !Limited(After(Init(rules, 0), steps).engine.log, rule, Limit(rules[rule]))
  {
    hide Limit, Given;
    var t := Limit(rules[rule]);
    var check, commit := CheckEvent(0, rule, "", t), CommitEvent(0, Reading(t, t));
    assert Given(rules, 0, rule) by { ReceivedGiven(rules, rule); }
    var s0 := Init(rules, 0);
    var s1 := Next(s0, check);
    var s2 := Next(s1, check);
    var s3 := Next(s2, commit);
    var s4 := Next(s3, commit);
    var x := Admission(rule, "", t);
    assert s1.admitted == [] + [x] && s2.admitted == s1.admitted + [x] && s3.admitted == [x] && s4.admitted == [];
    InFlightTwo(x, rule);
    BoundedCons(s3, commit, [], rule, n);
    BoundedCons(s2, commit, [commit] + [], rule, n);
    BoundedCons(s1, check, [commit] + ([commit] + []), rule, n);
    BoundedCons(s0, check, [check] + ([commit] + ([commit] + [])), rule, n);
    steps := [check] + ([check] + ([commit] + ([commit] + [])));
    assert First(s4.engine.log[0], rule) && First(s4.engine.log[1], rule);
  }

  lemma ReceivedGiven(rules: seq<Rule>, rule: nat)
    ensures Given(rules, RECEIVED_ID, rule)
  {}

  lemma InFlightTwo(x: Admission, rule: nat)
    ensures InFlight([], rule) == 0 && InFlight([x], rule) <= 1 && InFlight([x, x], rule) <= 2
  {
    assert [x][..0] == [] && [x, x][..1] == [x];
  }

  /** A rule about system messages, which the message loop and the watchdog both enqueue, can miss
      its limit of five seconds: two events overlap and both actions go out at one instant. */
  lemma RaceBreaksLimit() returns (rules: seq<Rule>, steps: seq<Step>)
    ensures |rules| == 1 && ForSystemMessages(rules[0]) && rules[0].fireLimit == 5.0
    ensures Run(Init(rules, 0), steps) && BoundedRun(Init(rules, 0), steps, 0, 2)
    ensures !Limited(After(Init(rules, 0), steps).engine.log, 0, Limit(rules[0]))
  {
    hide Run, BoundedRun, Limited;
    rules := [Rule(SYSTEM_MESSAGE_MODULE, SYSTEM_MESSAGE, "module_mail", 5.0, false)];
    assert Limit(rules[0]) == 5_000_000_000;
    steps := Race(rules, 0, 2);
  }
}
