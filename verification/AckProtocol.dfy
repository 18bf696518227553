/** The rule engine under any number of threads. A run interleaves the unlocked checks, the locked
    commits and removals, the replies sent after unlocking, and sweeps whose clock is read before
    they get the lock. */
module AckProtocol {
  import opened Text
  import opened RuleEngine

  /** An event that passed the check and waits for the lock. */
  datatype Admission = Admission(ruleId: nat, vars: string, checkedAt: int)

  /** replies: entries taken off the queue whose ack is not sent yet; sweeps: clock readings of
      sweeps waiting for the lock; clock: the latest reading; lastSweep: that of the last sweep. */
  datatype Sys = Sys(engine: Engine, admitted: seq<Admission>, replies: seq<Entry>, sweeps: seq<int>,
                     clock: int, lastSweep: int)

  datatype Step =
    | CheckEvent(given: nat, ruleId: nat, vars: string, now: int)
    | CommitEvent(i: nat, r: Reading)
    | TakeAck(id: nat)
    | SendAck(i: nat)
    | ReadClock(now: int)
    | RunSweep(i: nat, readings: seq<Reading>)

  /** The core at its start, when the clock shows start and the stamps are at the epoch. */
  function Init(rules: seq<Rule>, start: nat): Sys {
    Sys(Engine(rules, seq(|rules|, _ => 0), [], 0, []), [], [], [], start, start)
  }

  /** Readings in the order they are taken, none before t. */
  predicate Monotone(t: int, readings: seq<Reading>)
    decreases |readings|
  {
    readings == [] || (t <= readings[0].stamp <= readings[0].sent && Monotone(readings[0].sent, readings[1..]))
  }

  function Latest(t: int, readings: seq<Reading>): int {
    if readings == [] then t else readings[|readings| - 1].sent
  }

  /** The ids entries come in with: that of the message loop, or the rule's own for a system message. */
  predicate Given(rules: seq<Rule>, given: nat, ruleId: nat) {
    given == RECEIVED_ID || (given == ruleId < |rules| && ForSystemMessages(rules[ruleId]))
  }

  predicate Enabled(s: Sys, step: Step) {
    && |s.engine.stamps| == |s.engine.rules|
    && match step
       case CheckEvent(given, ruleId, _, now) => s.clock <= now && Given(s.engine.rules, given, ruleId)
       case CommitEvent(i, r) => i < |s.admitted| && s.clock <= r.stamp <= r.sent
       case TakeAck(_) => true
       case SendAck(i) => i < |s.replies|
       case ReadClock(now) => s.clock <= now
       case RunSweep(i, readings) =>
         i < |s.sweeps| && |readings| == |s.engine.queue| && Monotone(s.clock, readings)
  }

  function Next(s: Sys, step: Step): Sys
    requires Enabled(s, step)
  {
    match step
    case CheckEvent(given, ruleId, vars, now) =>
      (match Check(s.engine, ruleId, now)
       case Unknown => s.(clock := now)
       case Reject => s.(engine := Refuse(s.engine, given, ruleId, vars), clock := now)
       case Accept => s.(admitted := s.admitted + [Admission(ruleId, vars, now)], clock := now))
    case CommitEvent(i, r) =>
      s.(engine := Commit(s.engine, s.admitted[i].ruleId, s.admitted[i].vars, r),
         admitted := Without(s.admitted, i), clock := r.sent)
    case TakeAck(id) =>
      var (entry, e) := Unqueue(s.engine, id);
      if entry.Some? then s.(engine := e, replies := s.replies + [entry.value]) else s
    case SendAck(i) =>
      s.(engine := Reply(s.engine, s.replies[i]), replies := Without(s.replies, i))
    case ReadClock(now) => s.(sweeps := s.sweeps + [now], clock := now)
    case RunSweep(i, readings) =>
      s.(engine := RuleEngine.Sweep(s.engine, 0, s.sweeps[i], readings), sweeps := Without(s.sweeps, i),
         clock := Latest(s.clock, readings), lastSweep := s.sweeps[i])
  }

  ghost predicate Run(s: Sys, steps: seq<Step>)
    decreases |steps|
  {
    steps == [] || (Enabled(s, steps[0]) && Run(Next(s, steps[0]), steps[1..]))
  }

  ghost function After(s: Sys, steps: seq<Step>): Sys
    requires Run(s, steps)
    decreases |steps|
  {
    if steps == [] then s else After(Next(s, steps[0]), steps[1..])
  }

  lemma RunCons(s: Sys, step: Step, rest: seq<Step>)
    requires Enabled(s, step) && Run(Next(s, step), rest)
    ensures Run(s, [step] + rest) && After(s, [step] + rest) == After(Next(s, step), rest)
  {
    hide Enabled, Next;
    assert ([step] + rest)[1..] == rest;
  }

  /** A run of one step more. */
  lemma {:induction false} RunSnoc(s: Sys, steps: seq<Step>, step: Step)
    requires Run(s, steps) && Enabled(After(s, steps), step)
    ensures Run(s, steps + [step]) && After(s, steps + [step]) == Next(After(s, steps), step)
    decreases |steps|
  {
    hide Enabled, Next;
    if steps == [] {
      assert Run(Next(s, step), []);
      RunCons(s, step, []);
      assert steps + [step] == [step] + [];
    } else {
      RunSnoc(Next(s, steps[0]), steps[1..], step);
      RunCons(s, steps[0], steps[1..] + [step]);
      assert steps + [step] == [steps[0]] + (steps[1..] + [step]);
    }
  }

  // ---------- the operations are runs ----------

  lemma LastWithout<T>(s: seq<T>, x: T)
    ensures Without(s + [x], |s|) == s
  {}

  /** enqueueEvent is a check, and then, if the rule is due, a commit; between the two other threads
      may run, but these two steps alone do what it does. */
  lemma EnqueueIsRun(s: Sys, given: nat, ruleId: nat, vars: string, now: int, r: Reading) returns (steps: seq<Step>)
    requires Stamped(s.engine) && Given(s.engine.rules, given, ruleId)
    requires s.clock <= now <= r.stamp <= r.sent
    ensures var check := CheckEvent(given, ruleId, vars, now);
            steps == if ruleId < |s.engine.rules| && Due(s.engine.rules[ruleId], LastStamp(s.engine.log, ruleId), now)
                     then [check, CommitEvent(|s.admitted|, r)] else [check]
    ensures Run(s, steps)
    ensures After(s, steps).engine == Enqueue(s.engine, given, ruleId, vars, now, r)
    ensures After(s, steps).admitted == s.admitted && After(s, steps).replies == s.replies
    ensures After(s, steps).sweeps == s.sweeps
  {
    hide LastStamp, Limit, Given;
    var check, commit := CheckEvent(given, ruleId, vars, now), CommitEvent(|s.admitted|, r);
    var s1 := Next(s, check);
    if ruleId < |s.engine.rules| && Due(s.engine.rules[ruleId], LastStamp(s.engine.log, ruleId), now) {
      var x := Admission(ruleId, vars, now);
      assert s1.admitted == s.admitted + [x];
      LastWithout(s.admitted, x);
      RunCons(s1, commit, []);
      RunCons(s, check, [commit] + []);
      steps := [check] + ([commit] + []);
    } else {
      RunCons(s, check, []);
      steps := [check] + [];
    }
  }

  /** acceptAck takes the entry and then, if there was one, replies. */
  lemma AckIsRun(s: Sys, id: nat) returns (steps: seq<Step>)
    requires |s.engine.stamps| == |s.engine.rules|
    ensures Run(s, steps)
    ensures var (entry, e) := Unqueue(s.engine, id);
            && steps == (if entry.Some? then [TakeAck(id), SendAck(|s.replies|)] else [TakeAck(id)])
            && After(s, steps) == s.(engine := if entry.Some? then Reply(e, entry.value) else e)
  {
    var (entry, e) := Unqueue(s.engine, id);
    var s1 := Next(s, TakeAck(id));
    if entry.Some? {
      LastWithout(s.replies, entry.value);
      RunCons(s1, SendAck(|s.replies|), []);
      RunCons(s, TakeAck(id), [SendAck(|s.replies|)] + []);
      steps := [TakeAck(id)] + ([SendAck(|s.replies|)] + []);
    } else {
      RunCons(s, TakeAck(id), []);
      steps := [TakeAck(id)] + [];
    }
  }

  /** In every run the time stamps are those of the last actions. */
  lemma {:induction false} RunStamped(s: Sys, steps: seq<Step>)
    requires Stamped(s.engine) && Run(s, steps)
    requires forall i :: 0 <= i < |s.admitted| ==> s.admitted[i].ruleId < |s.engine.rules|
    ensures Stamped(After(s, steps).engine)
    decreases |steps|
  {
    hide Stamped, Enabled, Next;
    if steps != [] {
      NextStamped(s, steps[0]);
      RunStamped(Next(s, steps[0]), steps[1..]);
    }
  }

  lemma NextStamped(s: Sys, step: Step)
    requires Stamped(s.engine) && Enabled(s, step)
    requires forall i :: 0 <= i < |s.admitted| ==> s.admitted[i].ruleId < |s.engine.rules|
    ensures var r := Next(s, step);
            Stamped(r.engine) && forall i :: 0 <= i < |r.admitted| ==> r.admitted[i].ruleId < |r.engine.rules|
  {
    hide LastStamp, Limit, Given;
    var e, f := s.engine, Next(s, step).engine;
    if step.RunSweep? {
      SweepDoes(e, 0, s.sweeps[step.i], step.readings);
    } else if f.log != e.log {
      assert f.log == e.log + [f.log[|e.log|]];
      MessageStamped(e, f.log[|e.log|]);
    }
  }

  // ---------- what the log says about one event ----------

  function Queued(q: seq<Entry>, id: nat): nat {
    if q == [] then 0 else Queued(q[..|q| - 1], id) + (if q[|q| - 1].id == id then 1 else 0)
  }

  predicate Terminal(m: Sent, id: nat) {
    (m.Ack? || m.Abort?) && m.eventId == id
  }

  /** How many terminal replies were sent for an event. */
  function Replied(log: seq<Sent>, id: nat): nat {
    if log == [] then 0 else Replied(log[..|log| - 1], id) + (if Terminal(log[|log| - 1], id) then 1 else 0)
  }

  /** When the actions for an event were sent. */
  function Actions(log: seq<Sent>, id: nat): seq<int> {
    if log == [] then []
    else
      var m := log[|log| - 1];
      Actions(log[..|log| - 1], id) + (if m.Action? && m.eventId == id then [m.at] else [])
  }

  lemma QueuedAppend(q: seq<Entry>, x: Entry, id: nat)
    ensures Queued(q + [x], id) == Queued(q, id) + (if x.id == id then 1 else 0)
  {
    assert (q + [x])[..|q|] == q;
  }

  lemma LogAppend(log: seq<Sent>, m: Sent, id: nat)
    ensures Replied(log + [m], id) == Replied(log, id) + (if Terminal(m, id) then 1 else 0)
    ensures Actions(log + [m], id) == Actions(log, id) + (if m.Action? && m.eventId == id then [m.at] else [])
  {
    assert (log + [m])[..|log|] == log;
  }

  lemma {:induction false} QueuedConcat(a: seq<Entry>, b: seq<Entry>, id: nat)
    ensures Queued(a + b, id) == Queued(a, id) + Queued(b, id)
    decreases |b|
  {
    if b == [] {
      assert a + b == a;
    } else {
      assert a + b == (a + b[..|b| - 1]) + [b[|b| - 1]];
      QueuedAppend(a + b[..|b| - 1], b[|b| - 1], id);
      QueuedConcat(a, b[..|b| - 1], id);
    }
  }

  lemma QueuedOne(x: Entry, id: nat)
    ensures Queued([x], id) == if x.id == id then 1 else 0
  {
    assert [x] == [] + [x];
    QueuedAppend([], x, id);
  }

  lemma QueuedWithout(q: seq<Entry>, k: nat, id: nat)
    requires k < |q|
    ensures Queued(q, id) == Queued(Without(q, k), id) + (if q[k].id == id then 1 else 0)
  {
    assert q == q[..k] + ([q[k]] + q[k + 1..]);
    QueuedConcat(q[..k], [q[k]] + q[k + 1..], id);
    QueuedConcat([q[k]], q[k + 1..], id);
    QueuedConcat(q[..k], q[k + 1..], id);
    QueuedOne(q[k], id);
  }

  lemma QueuedUpdate(q: seq<Entry>, k: nat, x: Entry, id: nat)
    requires k < |q| && x.id == q[k].id
    ensures Queued(q[k := x], id) == Queued(q, id)
  {
    QueuedWithout(q, k, id);
    QueuedWithout(q[k := x], k, id);
    assert Without(q[k := x], k) == Without(q, k);
  }

  lemma {:induction false} QueuedZero(q: seq<Entry>, id: nat)
    ensures Queued(q, id) == 0 <==> forall i :: 0 <= i < |q| ==> q[i].id != id
  {
    if q != [] {
      QueuedZero(q[..|q| - 1], id);
      assert q == q[..|q| - 1] + [q[|q| - 1]];
    }
  }

  // ---------- the invariant ----------

  const ATTEMPTS := NUM_ACTION_RETRIES + 1

  /** Times at least one timeout apart. */
  predicate Spaced(times: seq<int>) {
    forall i :: 0 < i < |times| ==> times[i - 1] + Timeout() <= times[i]
  }

  /** Ids grow along the queue and are all below the next one. */
  predicate Increasing(q: seq<Entry>, nextId: nat) {
    && (forall i :: 0 <= i < |q| ==> q[i].id < nextId)
    && (forall i, j :: 0 <= i < j < |q| ==> q[i].id < q[j].id)
  }

  /** Each id ever given out is once in the queue, among the replies to come or in the log of
      terminal replies; an id not given out is nowhere. */
  ghost predicate Fates(q: seq<Entry>, replies: seq<Entry>, log: seq<Sent>, nextId: nat) {
    forall id: nat :: Queued(q, id) + Queued(replies, id) + Replied(log, id) == if id < nextId then 1 else 0
  }

  predicate Known(rules: seq<Rule>, q: seq<Entry>) {
    forall i :: 0 <= i < |q| ==> q[i].ruleId < |rules|
  }

  /** The entry counts and times its own actions. */
  predicate Tracked(log: seq<Sent>, x: Entry) {
    var times := Actions(log, x.id);
    1 <= x.numTries <= ATTEMPTS && |times| == x.numTries && times[|times| - 1] == x.actionSent
  }

  predicate AllTracked(log: seq<Sent>, q: seq<Entry>) {
    forall i :: 0 <= i < |q| ==> Tracked(log, q[i])
  }

  ghost predicate History(log: seq<Sent>, nextId: nat) {
    forall id: nat :: Spaced(Actions(log, id)) && |Actions(log, id)| <= ATTEMPTS
                      && (id >= nextId ==> Actions(log, id) == [])
  }

  /** An abort comes after all attempts, and no action follows it. */
  predicate Aborts(log: seq<Sent>) {
    forall i :: 0 <= i < |log| && log[i].Abort? ==> Exhausted(log, log[i])
  }

  predicate Exhausted(log: seq<Sent>, m: Sent)
    requires m.Abort?
  {
    var times := Actions(log, m.eventId);
    |times| == ATTEMPTS && times[ATTEMPTS - 1] + Timeout() <= m.at
  }

  ghost predicate EngineInv(e: Engine, replies: seq<Entry>) {
    && |e.stamps| == |e.rules|
    && Increasing(e.queue, e.nextId)
    && Fates(e.queue, replies, e.log, e.nextId)
    && Known(e.rules, e.queue) && Known(e.rules, replies)
    && AllTracked(e.log, e.queue)
    && History(e.log, e.nextId)
    && Aborts(e.log)
  }

  ghost predicate Inv(s: Sys) {
    && EngineInv(s.engine, s.replies)
    && (forall i :: 0 <= i < |s.admitted| ==> s.admitted[i].ruleId < |s.engine.rules|)
    && (forall i :: 0 <= i < |s.sweeps| ==> s.sweeps[i] <= s.clock)
  }

  lemma {:induction false} TerminalCounts(log: seq<Sent>, i: nat, id: nat)
    requires i < |log| && Terminal(log[i], id)
    ensures Replied(log, id) >= 1
  {
    if i < |log| - 1 { TerminalCounts(log[..|log| - 1], i, id); }
  }

  /** A message that is no action changes no action history. */
  lemma OtherMessage(e: Engine, m: Sent)
    requires !m.Action? && AllTracked(e.log, e.queue) && History(e.log, e.nextId) && Aborts(e.log)
    requires m.Abort? ==> Exhausted(e.log, m)
    ensures AllTracked(e.log + [m], e.queue) && History(e.log + [m], e.nextId) && Aborts(e.log + [m])
  {
    hide Actions, Spaced;
    var log := e.log + [m];
    forall id: nat ensures Actions(log, id) == Actions(e.log, id) {
      LogAppend(e.log, m, id);
    }
    forall i | 0 <= i < |log| && log[i].Abort? ensures Exhausted(log, log[i]) {
      if i < |e.log| { assert Exhausted(e.log, e.log[i]); }
    }
    forall i | 0 <= i < |e.queue| ensures Tracked(log, e.queue[i]) {
      assert Tracked(e.log, e.queue[i]);
    }
  }

  lemma RefuseInv(e: Engine, replies: seq<Entry>, given: nat, ruleId: nat, vars: string)
    requires EngineInv(e, replies)
    ensures EngineInv(Refuse(e, given, ruleId, vars), replies)
  {
    hide Actions, Spaced, Replied, Queued, Tracked;
    if ruleId < |e.rules| {
      var m := Refused(given, ruleId, e.rules[ruleId].eventModule, vars);
      OtherMessage(e, m);
      forall id: nat ensures Replied(e.log + [m], id) == Replied(e.log, id) {
        LogAppend(e.log, m, id);
      }
    }
  }

  lemma ReplyInv(e: Engine, replies: seq<Entry>, i: nat)
    requires EngineInv(e, replies) && i < |replies|
    ensures EngineInv(Reply(e, replies[i]), Without(replies, i))
  {
    hide Actions, Spaced, Replied, Queued, Tracked;
    var x := replies[i];
    var m := Ack(x.id, x.ruleId, e.rules[x.ruleId].eventModule, x.vars);
    OtherMessage(e, m);
    forall id: nat ensures Replied(e.log + [m], id) == Replied(e.log, id) + (if id == x.id then 1 else 0)
                   ensures Queued(replies, id) == Queued(Without(replies, i), id) + (if id == x.id then 1 else 0) {
      LogAppend(e.log, m, id);
      QueuedWithout(replies, i, id);
    }
  }

  lemma UnqueueInv(e: Engine, replies: seq<Entry>, k: nat)
    requires EngineInv(e, replies) && k < |e.queue|
    ensures EngineInv(e.(queue := Without(e.queue, k)), replies + [e.queue[k]])
  {
    hide Actions, Spaced, Replied, Queued, Tracked;
    forall id: nat
      ensures Queued(Without(e.queue, k), id) + Queued(replies + [e.queue[k]], id)
           == Queued(e.queue, id) + Queued(replies, id) {
      QueuedWithout(e.queue, k, id);
      QueuedAppend(replies, e.queue[k], id);
    }
  }

  /** One more action for the id, at a time when it is due, or the first. */
  lemma ActionMessage(e: Engine, m: Sent)
    requires m.Action? && History(e.log, e.nextId) && Aborts(e.log)
    requires Replied(e.log, m.eventId) == 0 && |Actions(e.log, m.eventId)| < ATTEMPTS
    requires var times := Actions(e.log, m.eventId); times != [] ==> times[|times| - 1] + Timeout() <= m.at
    ensures Aborts(e.log + [m])
    ensures History(e.log + [m], if m.eventId < e.nextId then e.nextId else m.eventId + 1)
    ensures Actions(e.log + [m], m.eventId) == Actions(e.log, m.eventId) + [m.at]
    ensures forall id: nat :: id != m.eventId ==> Actions(e.log + [m], id) == Actions(e.log, id)
  {
    hide Actions;
    var log := e.log + [m];
    forall id: nat ensures Actions(log, id) == Actions(e.log, id) + (if id == m.eventId then [m.at] else []) {
      LogAppend(e.log, m, id);
    }
    forall i | 0 <= i < |log| && log[i].Abort? ensures Exhausted(log, log[i]) {
      assert Exhausted(e.log, e.log[i]);
      TerminalCounts(e.log, i, e.log[i].eventId);
    }
  }

  lemma CommitInv(e: Engine, replies: seq<Entry>, ruleId: nat, vars: string, r: Reading)
    requires EngineInv(e, replies) && ruleId < |e.rules|
    ensures EngineInv(Commit(e, ruleId, vars, r), replies)
  {
    hide Actions, Spaced, Replied, Queued;
    var f := Commit(e, ruleId, vars, r);
    var x, m := f.queue[|e.queue|], f.log[|e.log|];
    assert f.queue == e.queue + [x] && f.log == e.log + [m];
    assert Actions(e.log, e.nextId) == [];
    assert Queued(e.queue, e.nextId) + Queued(replies, e.nextId) + Replied(e.log, e.nextId) == 0;
    ActionMessage(e, m);
    forall id: nat ensures Queued(f.queue, id) == Queued(e.queue, id) + (if id == e.nextId then 1 else 0)
                   ensures Replied(f.log, id) == Replied(e.log, id) {
      QueuedAppend(e.queue, x, id);
      LogAppend(e.log, m, id);
    }
    forall i | 0 <= i < |f.queue| ensures Tracked(f.log, f.queue[i]) {
      if i < |e.queue| { assert Tracked(e.log, e.queue[i]); }
    }
  }

  lemma SweepOneInv(e: Engine, replies: seq<Entry>, k: nat, now: int, r: Reading)
    requires EngineInv(e, replies) && k < |e.queue| && now <= r.stamp <= r.sent
    ensures EngineInv(SweepOne(e, k, now, r), replies)
  {
    hide Actions, Spaced, Replied, Queued;
    var x := e.queue[k];
    if now - x.actionSent >= Timeout() {
      QueuedWithout(e.queue, k, x.id);
      assert Queued(e.queue, x.id) + Queued(replies, x.id) + Replied(e.log, x.id) <= 1;
      assert Tracked(e.log, x);
      if x.numTries <= NUM_ACTION_RETRIES {
        RetryInv(e, replies, k, now, r);
      } else {
        AbortInv(e, replies, k, now, r);
      }
    }
  }

  lemma RetryInv(e: Engine, replies: seq<Entry>, k: nat, now: int, r: Reading)
    requires EngineInv(e, replies) && k < |e.queue| && now <= r.stamp <= r.sent
    requires now - e.queue[k].actionSent >= Timeout() && e.queue[k].numTries <= NUM_ACTION_RETRIES
    requires Replied(e.log, e.queue[k].id) == 0 && Tracked(e.log, e.queue[k])
    ensures EngineInv(SweepOne(e, k, now, r), replies)
  {
    hide Actions, Spaced, Replied, Queued;
    var x, f := e.queue[k], SweepOne(e, k, now, r);
    var y, m := f.queue[k], f.log[|e.log|];
    assert f.queue == e.queue[k := y] && f.log == e.log + [m];
    ActionMessage(e, m);
    forall id: nat ensures Queued(f.queue, id) == Queued(e.queue, id) && Replied(f.log, id) == Replied(e.log, id) {
      QueuedUpdate(e.queue, k, y, id);
      LogAppend(e.log, m, id);
    }
    forall i | 0 <= i < |f.queue| ensures Tracked(f.log, f.queue[i]) {
      if i != k { assert Tracked(e.log, e.queue[i]); }
    }
  }

  lemma AbortInv(e: Engine, replies: seq<Entry>, k: nat, now: int, r: Reading)
    requires EngineInv(e, replies) && k < |e.queue| && now <= r.stamp <= r.sent
    requires now - e.queue[k].actionSent >= Timeout() && e.queue[k].numTries > NUM_ACTION_RETRIES
    requires Tracked(e.log, e.queue[k])
    ensures EngineInv(SweepOne(e, k, now, r), replies)
  {
    hide Actions, Spaced, Replied, Queued;
    var x, f := e.queue[k], SweepOne(e, k, now, r);
    var m := f.log[|e.log|];
    assert f.queue == Without(e.queue, k) && f.log == e.log + [m];
    OtherMessage(e, m);
    forall id: nat ensures Queued(e.queue, id) == Queued(f.queue, id) + (if id == x.id then 1 else 0)
                   ensures Replied(f.log, id) == Replied(e.log, id) + (if id == x.id then 1 else 0) {
      QueuedWithout(e.queue, k, id);
      LogAppend(e.log, m, id);
    }
    forall i | 0 <= i < |f.queue| ensures Tracked(f.log, f.queue[i]) {
      assert Tracked(f.log, e.queue[if i < k then i else i + 1]);
    }
  }

  lemma {:induction false} SweepInv(e: Engine, replies: seq<Entry>, k: nat, now: int, readings: seq<Reading>, t: int)
    requires EngineInv(e, replies) && k <= |e.queue| && |readings| == |e.queue| - k
    requires now <= t && Monotone(t, readings)
    ensures EngineInv(RuleEngine.Sweep(e, k, now, readings), replies)
    ensures t <= Latest(t, readings)
    decreases |readings|
  {
    hide EngineInv, SweepOne;
    StampsMatch(e, replies);
    if k < |e.queue| {
      SweepOneInv(e, replies, k, now, readings[0]);
      var f := SweepOne(e, k, now, readings[0]);
      SweepInv(f, replies, if |f.queue| == |e.queue| then k + 1 else k, now, readings[1..], readings[0].sent);
    }
  }

  lemma StampsMatch(e: Engine, replies: seq<Entry>)
    requires EngineInv(e, replies)
    ensures |e.stamps| == |e.rules|
  {}

  lemma InitInv(rules: seq<Rule>, start: nat)
    ensures Inv(Init(rules, start))
  {}

  lemma NextInv(s: Sys, step: Step)
    requires Inv(s) && Enabled(s, step)
    ensures Inv(Next(s, step))
  {
    hide Fates, History, Aborts, AllTracked, Increasing, Actions, Queued, Replied;
    match step {
      case CheckEvent(given, ruleId, vars, now) =>
        RefuseInv(s.engine, s.replies, given, ruleId, vars);
      case CommitEvent(i, r) =>
        CommitInv(s.engine, s.replies, s.admitted[i].ruleId, s.admitted[i].vars, r);
      case TakeAck(id) =>
        var k := Find(s.engine.queue, id);
        if k < |s.engine.queue| { UnqueueInv(s.engine, s.replies, k); }
      case SendAck(i) =>
        ReplyInv(s.engine, s.replies, i);
      case ReadClock(_) =>
      case RunSweep(i, readings) =>
        SweepInv(s.engine, s.replies, 0, s.sweeps[i], readings, s.clock);
        var sweeps := Without(s.sweeps, i);
        forall j | 0 <= j < |sweeps| ensures sweeps[j] <= s.clock {
          assert sweeps[j] == s.sweeps[if j < i then j else j + 1];
        }
    }
  }

  /** Every step of every interleaving keeps the invariant. */
  lemma {:induction false} RunInv(s: Sys, steps: seq<Step>)
    requires Inv(s) && Run(s, steps)
    ensures Inv(After(s, steps))
    decreases |steps|
  {
    hide Inv, Enabled, Next;
    if steps != [] {
      NextInv(s, steps[0]);
      RunInv(Next(s, steps[0]), steps[1..]);
    }
  }
}
