/** What the invariant of AckProtocol says about whole runs: outcomes, attempts and times. */
module AckOutcomes {
  import opened Text
  import opened RuleEngine
  import opened AckProtocol

  predicate InQueue(s: Sys, id: nat) {
    exists i :: 0 <= i < |s.engine.queue| && s.engine.queue[i].id == id
  }

  predicate AwaitsReply(s: Sys, id: nat) {
    exists i :: 0 <= i < |s.replies| && s.replies[i].id == id
  }

  lemma QueuedIff(q: seq<Entry>, id: nat)
    ensures Queued(q, id) > 0 <==> exists i :: 0 <= i < |q| && q[i].id == id
  {
    QueuedZero(q, id);
  }

  /** At every moment of every run, an accepted event is in the queue, or on the way to its reply,
      or has been answered by exactly one ack or abort of its own, and only one of these. What else
      its module is told under its id is the subject of AckAnswers. */
  lemma OneOutcome(rules: seq<Rule>, start: nat, steps: seq<Step>, id: nat)
    requires Run(Init(rules, start), steps)
    ensures var s := After(Init(rules, start), steps);
            && Replied(s.engine.log, id) <= 1
            && (id < s.engine.nextId <==> InQueue(s, id) || AwaitsReply(s, id) || Replied(s.engine.log, id) == 1)
            && !(InQueue(s, id) && AwaitsReply(s, id))
            && (Replied(s.engine.log, id) == 1 ==> !InQueue(s, id) && !AwaitsReply(s, id))
  {
    hide Queued, Replied;
    InitInv(rules, start);
    RunInv(Init(rules, start), steps);
    var s := After(Init(rules, start), steps);
    assert Queued(s.engine.queue, id) + Queued(s.replies, id) + Replied(s.engine.log, id)
        == if id < s.engine.nextId then 1 else 0;
    QueuedIff(s.engine.queue, id);
    QueuedIff(s.replies, id);
  }

  /** A late, repeated or made-up acknowledgement changes nothing. */
  lemma LateAckIgnored(rules: seq<Rule>, start: nat, steps: seq<Step>, id: nat)
    requires Run(Init(rules, start), steps)
    ensures var s := After(Init(rules, start), steps);
            && Enabled(s, TakeAck(id))
            && (id >= s.engine.nextId || AwaitsReply(s, id) || Replied(s.engine.log, id) == 1 ==>
                Next(s, TakeAck(id)) == s)
  {
    hide Run, After, Init, Replied, Queued, Fates, History, Aborts, AllTracked, Increasing;
    InitInv(rules, start);
    RunInv(Init(rules, start), steps);
    OneOutcome(rules, start, steps, id);
    var s := After(Init(rules, start), steps);
    if Find(s.engine.queue, id) < |s.engine.queue| {
      assert s.engine.queue[Find(s.engine.queue, id)].id == id;
    }
  }

  /** An acknowledgement of a queued event is taken: exactly its entry leaves the queue, wherever it
      stands, and waits for its reply, which goes to the event's module with its variables. */
  lemma AckTaken(rules: seq<Rule>, start: nat, steps: seq<Step>, id: nat) returns (k: nat)
    requires Run(Init(rules, start), steps) && InQueue(After(Init(rules, start), steps), id)
    ensures var s := After(Init(rules, start), steps);
            && k < |s.engine.queue| && s.engine.queue[k].id == id && s.engine.queue[k].ruleId < |s.engine.rules|
            && Enabled(s, TakeAck(id))
            && var r, x, n := Next(s, TakeAck(id)), s.engine.queue[k], |s.replies|;
               && r == s.(engine := s.engine.(queue := s.engine.queue[..k] + s.engine.queue[k + 1..]),
                          replies := s.replies + [x])
               && !InQueue(r, id) && AwaitsReply(r, id) && Enabled(r, SendAck(n))
               && Next(r, SendAck(n)).engine.log
                    == s.engine.log + [Ack(id, x.ruleId, s.engine.rules[x.ruleId].eventModule, x.vars)]
  {
    hide Run, After, Init, Replied, Queued, Fates, History, Aborts, AllTracked;
    InitInv(rules, start);
    RunInv(Init(rules, start), steps);
    var s := After(Init(rules, start), steps);
    k := Find(s.engine.queue, id);
    var r := Next(s, TakeAck(id));
    assert r.replies[|s.replies|].id == id;
    forall i | 0 <= i < |r.engine.queue| ensures r.engine.queue[i].id != id {
      assert r.engine.queue[i] == s.engine.queue[if i < k then i else i + 1];
    }
  }

  /** Queue order is id order, and no entry was tried less than once or more than four times. */
  lemma QueueShape(rules: seq<Rule>, start: nat, steps: seq<Step>)
    requires Run(Init(rules, start), steps)
    ensures var s := After(Init(rules, start), steps);
            && Increasing(s.engine.queue, s.engine.nextId)
            && forall i :: 0 <= i < |s.engine.queue| ==>
                 var x := s.engine.queue[i];
                 1 <= x.numTries <= ATTEMPTS && |Actions(s.engine.log, x.id)| == x.numTries
  {
    hide Actions, Fates, History, Aborts, Increasing;
    InitInv(rules, start);
    RunInv(Init(rules, start), steps);
    var s := After(Init(rules, start), steps);
    forall i | 0 <= i < |s.engine.queue| ensures Tracked(s.engine.log, s.engine.queue[i]) {}
  }

  lemma {:induction false} SpacedSpan(times: seq<int>, k: nat)
    requires Spaced(times) && k < |times|
    ensures times[0] + k * Timeout() <= times[k]
  {
    if k > 0 { SpacedSpan(times, k - 1); }
  }

  /** An event that is aborted had exactly four actions, and the abort comes no earlier than four
      timeouts after the first of them. */
  lemma AbortNotEarly(rules: seq<Rule>, start: nat, steps: seq<Step>, i: nat)
    requires Run(Init(rules, start), steps)
    requires var log := After(Init(rules, start), steps).engine.log; i < |log| && log[i].Abort?
    ensures var log := After(Init(rules, start), steps).engine.log;
            var times := Actions(log, log[i].eventId);
            |times| == ATTEMPTS && times[0] + ATTEMPTS * Timeout() <= log[i].at
  {
    hide Actions, Fates, AllTracked, Increasing, Known;
    InitInv(rules, start);
    RunInv(Init(rules, start), steps);
    var log := After(Init(rules, start), steps).engine.log;
    assert Exhausted(log, log[i]);
    SpacedSpan(Actions(log, log[i].eventId), ATTEMPTS - 1);
  }

  // ---------- prompt sweeps ----------

  /** Sweeps take no time, and no reading is later than gap after the last sweep. */
  predicate Prompt(s: Sys, step: Step, gap: nat)
    requires Enabled(s, step)
  {
    match step
    case CheckEvent(_, _, _, now) => now <= s.lastSweep + gap
    case CommitEvent(_, r) => r.sent <= s.lastSweep + gap
    case ReadClock(now) => now <= s.lastSweep + gap
    case RunSweep(i, readings) =>
      s.sweeps[i] == s.clock
      && forall k :: 0 <= k < |readings| ==> readings[k].stamp == s.clock && readings[k].sent == s.clock
    case _ => true
  }

  ghost predicate PromptRun(s: Sys, steps: seq<Step>, gap: nat)
    decreases |steps|
  {
    steps == [] || (Enabled(s, steps[0]) && Prompt(s, steps[0], gap) && PromptRun(Next(s, steps[0]), steps[1..], gap))
  }

  lemma {:induction false} PromptIsRun(s: Sys, steps: seq<Step>, gap: nat)
    requires PromptRun(s, steps, gap)
    ensures Run(s, steps)
    decreases |steps|
  {
    hide Enabled, Next, Prompt;
    if steps != [] { PromptIsRun(Next(s, steps[0]), steps[1..], gap); }
  }

  /** Times less than a timeout and a gap apart. */
  predicate Close(times: seq<int>, gap: nat) {
    forall i :: 0 < i < |times| ==> times[i] < times[i - 1] + Timeout() + gap
  }

  predicate AbortSoon(log: seq<Sent>, m: Sent, gap: nat)
    requires m.Abort?
  {
    var times := Actions(log, m.eventId);
    times != [] && m.at < times[|times| - 1] + Timeout() + gap
  }

  ghost predicate Timely(log: seq<Sent>, gap: nat) {
    && (forall id: nat :: Close(Actions(log, id), gap))
    && forall i :: 0 <= i < |log| && log[i].Abort? ==> AbortSoon(log, log[i], gap)
  }

  /** No entry at or after k was due at time t. */
  predicate NotDue(q: seq<Entry>, k: nat, t: int) {
    forall i :: k <= i < |q| ==> q[i].actionSent + Timeout() > t
  }

  predicate SentBy(q: seq<Entry>, t: int) {
    forall i :: 0 <= i < |q| ==> q[i].actionSent <= t
  }

  ghost predicate PromptInv(s: Sys, gap: nat) {
    && s.lastSweep <= s.clock <= s.lastSweep + gap
    && NotDue(s.engine.queue, 0, s.lastSweep) && SentBy(s.engine.queue, s.clock)
    && Timely(s.engine.log, gap)
  }

  lemma OtherTimely(log: seq<Sent>, m: Sent, gap: nat)
    requires Timely(log, gap) && !m.Action?
    requires m.Abort? ==> AbortSoon(log, m, gap)
    ensures Timely(log + [m], gap)
  {
    hide Actions, Close;
    forall id: nat ensures Actions(log + [m], id) == Actions(log, id) { LogAppend(log, m, id); }
    forall i | 0 <= i < |log + [m]| && (log + [m])[i].Abort? ensures AbortSoon(log + [m], (log + [m])[i], gap) {
      if i < |log| { assert AbortSoon(log, log[i], gap); }
    }
  }

  lemma ActionTimely(e: Engine, m: Sent, gap: nat)
    requires Timely(e.log, gap) && m.Action? && Replied(e.log, m.eventId) == 0
    requires var times := Actions(e.log, m.eventId);
             times != [] ==> m.at < times[|times| - 1] + Timeout() + gap
    ensures Timely(e.log + [m], gap)
  {
    hide Actions;
    var log := e.log + [m];
    forall id: nat ensures Actions(log, id) == Actions(e.log, id) + (if id == m.eventId then [m.at] else []) {
      LogAppend(e.log, m, id);
    }
    forall i | 0 <= i < |log| && log[i].Abort? ensures AbortSoon(log, log[i], gap) {
      assert AbortSoon(e.log, e.log[i], gap);
      TerminalCounts(e.log, i, e.log[i].eventId);
    }
  }

  /** One entry of an instantaneous sweep at time now, with the ones before k already done. */
  lemma SweepOneTimely(e: Engine, replies: seq<Entry>, k: nat, last: int, now: int, gap: nat)
    requires EngineInv(e, replies) && k < |e.queue|
    requires last <= now <= last + gap && Timely(e.log, gap)
    requires NotDue(e.queue, k, last) && SentBy(e.queue, now)
    requires NotDue(e.queue[..k], 0, now)
    ensures var f := SweepOne(e, k, now, Reading(now, now));
            var next := if |f.queue| == |e.queue| then k + 1 else k;
            && Timely(f.log, gap) && NotDue(f.queue, next, last) && SentBy(f.queue, now)
            && NotDue(f.queue[..next], 0, now)
  {
    hide Actions, Replied, Queued, Timely, Increasing, History, Aborts;
    var x := e.queue[k];
    var f := SweepOne(e, k, now, Reading(now, now));
    if now - x.actionSent >= Timeout() {
      assert Tracked(e.log, x);
      QueuedWithout(e.queue, k, x.id);
      assert Queued(e.queue, x.id) + Queued(replies, x.id) + Replied(e.log, x.id) <= 1;
      var m := f.log[|e.log|];
      assert f.log == e.log + [m];
      if x.numTries <= NUM_ACTION_RETRIES {
        ActionTimely(e, m, gap);
      } else {
        OtherTimely(e.log, m, gap);
      }
    }
  }

  lemma {:induction false} SweepTimely(e: Engine, replies: seq<Entry>, k: nat, last: int, now: int,
                                       readings: seq<Reading>, gap: nat)
    requires EngineInv(e, replies) && k <= |e.queue| && |readings| == |e.queue| - k
    requires forall i :: 0 <= i < |readings| ==> readings[i] == Reading(now, now)
    requires last <= now <= last + gap && Timely(e.log, gap)
    requires NotDue(e.queue, k, last) && SentBy(e.queue, now) && NotDue(e.queue[..k], 0, now)
    ensures var f := RuleEngine.Sweep(e, k, now, readings);
            Timely(f.log, gap) && NotDue(f.queue, 0, now) && SentBy(f.queue, now)
    decreases |readings|
  {
    hide EngineInv, SweepOne, Timely, NotDue, SentBy;
    StampsMatch(e, replies);
    if k < |e.queue| {
      SweepOneInv(e, replies, k, now, readings[0]);
      SweepOneTimely(e, replies, k, last, now, gap);
      var f := SweepOne(e, k, now, readings[0]);
      SweepTimely(f, replies, if |f.queue| == |e.queue| then k + 1 else k, last, now, readings[1..], gap);
    } else {
      assert e.queue[..k] == e.queue;
    }
  }

  lemma NextPrompt(s: Sys, step: Step, gap: nat)
    requires Inv(s) && PromptInv(s, gap) && Enabled(s, step) && Prompt(s, step, gap)
    ensures PromptInv(Next(s, step), gap)
  {
    hide Fates, History, Aborts, AllTracked, Increasing, Timely, Known, Actions;
    match step {
      case CheckEvent(given, ruleId, vars, now) =>
        if ruleId < |s.engine.rules| {
          OtherTimely(s.engine.log, Refused(given, ruleId, s.engine.rules[ruleId].eventModule, vars), gap);
        }
      case CommitEvent(i, r) => CommitTimely(s, i, r, gap);
      case TakeAck(_) =>
      case SendAck(i) =>
        var x := s.replies[i];
        if x.ruleId < |s.engine.rules| {
          OtherTimely(s.engine.log, Ack(x.id, x.ruleId, s.engine.rules[x.ruleId].eventModule, x.vars), gap);
        }
      case ReadClock(_) =>
      case RunSweep(i, readings) =>
        SweepTimely(s.engine, s.replies, 0, s.lastSweep, s.clock, readings, gap);
    }
  }

  lemma CommitTimely(s: Sys, i: nat, r: Reading, gap: nat)
    requires Inv(s) && PromptInv(s, gap) && Enabled(s, CommitEvent(i, r)) && Prompt(s, CommitEvent(i, r), gap)
    ensures PromptInv(Next(s, CommitEvent(i, r)), gap)
  {
    hide Aborts, AllTracked, Increasing, Timely, Actions, Queued, Replied, Spaced;
    var e, f := s.engine, Next(s, CommitEvent(i, r)).engine;
    assert Actions(e.log, e.nextId) == [];
    assert Queued(e.queue, e.nextId) + Queued(s.replies, e.nextId) + Replied(e.log, e.nextId) == 0;
    assert f.log == e.log + [f.log[|e.log|]];
    ActionTimely(e, f.log[|e.log|], gap);
  }

  lemma InitPrompt(rules: seq<Rule>, start: nat, gap: nat)
    ensures Inv(Init(rules, start)) && PromptInv(Init(rules, start), gap)
  {}

  lemma {:induction false} PromptRunInv(s: Sys, steps: seq<Step>, gap: nat)
    requires Inv(s) && PromptInv(s, gap) && PromptRun(s, steps, gap)
    ensures Run(s, steps) && Inv(After(s, steps)) && PromptInv(After(s, steps), gap)
    decreases |steps|
  {
    hide Inv, PromptInv, Enabled, Next, Prompt;
    if steps != [] {
      NextInv(s, steps[0]);
      NextPrompt(s, steps[0], gap);
      PromptRunInv(Next(s, steps[0]), steps[1..], gap);
    }
  }

  lemma {:induction false} CloseSpan(times: seq<int>, k: nat, gap: nat)
    requires Close(times, gap) && k < |times|
    ensures times[k] <= times[0] + k * (Timeout() + gap)
  {
    if k > 0 { CloseSpan(times, k - 1, gap); }
  }

  /** With sweeps at most gap apart, an abort comes less than four timeouts and gaps after the
      first action. */
  lemma AbortNotLate(rules: seq<Rule>, start: nat, steps: seq<Step>, gap: nat, i: nat)
    requires PromptRun(Init(rules, start), steps, gap)
    requires Run(Init(rules, start), steps)
    requires var log := After(Init(rules, start), steps).engine.log; i < |log| && log[i].Abort?
    ensures var log := After(Init(rules, start), steps).engine.log;
            var times := Actions(log, log[i].eventId);
            |times| == ATTEMPTS && log[i].at < times[0] + ATTEMPTS * (Timeout() + gap)
  {
    hide Actions;
    InitPrompt(rules, start, gap);
    PromptRunInv(Init(rules, start), steps, gap);
    AbortNotEarly(rules, start, steps, i);
    var log := After(Init(rules, start), steps).engine.log;
    assert AbortSoon(log, log[i], gap);
    CloseSpan(Actions(log, log[i].eventId), ATTEMPTS - 1, gap);
  }

  /** With sweeps at most gap apart, no event stays in the queue longer than that. */
  lemma QueueDrains(rules: seq<Rule>, start: nat, steps: seq<Step>, gap: nat, k: nat)
    requires PromptRun(Init(rules, start), steps, gap)
    requires Run(Init(rules, start), steps)
    requires k < |After(Init(rules, start), steps).engine.queue|
    ensures var s := After(Init(rules, start), steps);
            var times := Actions(s.engine.log, s.engine.queue[k].id);
            times != [] && s.clock < times[0] + ATTEMPTS * (Timeout() + gap)
  {
    hide Actions, Fates, History, Aborts, Increasing;
    InitPrompt(rules, start, gap);
    PromptRunInv(Init(rules, start), steps, gap);
    var s := After(Init(rules, start), steps);
    var x := s.engine.queue[k];
    assert Tracked(s.engine.log, x);
    var times := Actions(s.engine.log, x.id);
    CloseSpan(times, |times| - 1, gap);
    assert (|times| - 1) * (Timeout() + gap) <= (ATTEMPTS - 1) * (Timeout() + gap);
  }
}
