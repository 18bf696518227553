/** Who is told what about which event: each event has one owner, the module of its rule, and the
    replies a module is sent under an event's id are those of the event and, under id 0, the aborts
    of every refused event of the module. The messenger sends nothing to the module of system
    messages, which does not exist. */
module AckAnswers {
  import opened RuleEngine
  import opened AckProtocol
  import opened AckOutcomes
  import opened Text

  // ---------- the rule and the variables of an event ----------

  datatype Origin = Origin(ruleId: nat, vars: string)

  /** What the first action for an event says about it. */
  function Raised(log: seq<Sent>, id: nat): Option<Origin> {
    if log == [] then None
    else
      var before, m := Raised(log[..|log| - 1], id), log[|log| - 1];
      if before.Some? then before
      else if m.Action? && m.eventId == id then Some(Origin(m.ruleId, m.vars))
      else None
  }

  lemma RaisedAppend(log: seq<Sent>, m: Sent, id: nat)
    ensures Raised(log + [m], id) ==
              if Raised(log, id).Some? then Raised(log, id)
              else if m.Action? && m.eventId == id then Some(Origin(m.ruleId, m.vars))
              else None
  {
    assert (log + [m])[..|log|] == log;
  }

  predicate Owned(rules: seq<Rule>, log: seq<Sent>, x: Entry) {
    x.ruleId < |rules| && Raised(log, x.id) == Some(Origin(x.ruleId, x.vars))
  }

  /** A message goes to the right module of its rule; about an accepted event it has the event's rule
      and variables, about a refused one the id the event came in with. */
  predicate About(rules: seq<Rule>, log: seq<Sent>, m: Sent) {
    && m.ruleId < |rules|
    && m.dest == (if m.Action? then rules[m.ruleId].actionModule else rules[m.ruleId].eventModule)
    && if m.Refused? then Given(rules, m.eventId, m.ruleId)
       else Raised(log, m.eventId) == Some(Origin(m.ruleId, m.vars))
  }

  predicate AllOwned(rules: seq<Rule>, log: seq<Sent>, q: seq<Entry>) {
    forall i :: 0 <= i < |q| ==> Owned(rules, log, q[i])
  }

  predicate AllAbout(rules: seq<Rule>, log: seq<Sent>, ms: seq<Sent>) {
    forall i :: 0 <= i < |ms| ==> About(rules, log, ms[i])
  }

  ghost predicate Owners(e: Engine, replies: seq<Entry>) {
    && |e.stamps| == |e.rules|
    && (forall id: nat :: Raised(e.log, id).Some? <==> id < e.nextId)
    && AllOwned(e.rules, e.log, e.queue) && AllOwned(e.rules, e.log, replies)
    && AllAbout(e.rules, e.log, e.log)
  }

  /** A message about an event that is known, or about the next one, keeps every owner. */
  lemma MessageOwners(e: Engine, replies: seq<Entry>, m: Sent)
    requires Owners(e, replies)
    requires About(e.rules, e.log + [m], m) && (m.Action? ==> m.eventId <= e.nextId)
    ensures var next := if m.Action? && m.eventId == e.nextId then e.nextId + 1 else e.nextId;
            Owners(e.(log := e.log + [m], nextId := next), replies)
    ensures forall id: nat :: id < e.nextId ==> Raised(e.log + [m], id) == Raised(e.log, id)
  {
    hide Raised, Given;
    forall id: nat
      ensures Raised(e.log + [m], id) == if Raised(e.log, id).Some? then Raised(e.log, id)
                                         else if m.Action? && m.eventId == id then Some(Origin(m.ruleId, m.vars))
                                         else None {
      RaisedAppend(e.log, m, id);
    }
    forall i | 0 <= i < |e.log + [m]| ensures About(e.rules, e.log + [m], (e.log + [m])[i]) {
      if i < |e.log| { assert About(e.rules, e.log, e.log[i]); }
    }
    forall i | 0 <= i < |e.queue| ensures Owned(e.rules, e.log + [m], e.queue[i]) {
      assert Owned(e.rules, e.log, e.queue[i]);
    }
    forall i | 0 <= i < |replies| ensures Owned(e.rules, e.log + [m], replies[i]) {
      assert Owned(e.rules, e.log, replies[i]);
    }
  }

  lemma CommitOwners(e: Engine, replies: seq<Entry>, ruleId: nat, vars: string, r: Reading)
    requires Owners(e, replies) && ruleId < |e.rules|
    ensures Owners(Commit(e, ruleId, vars, r), replies)
  {
    hide Raised;
    var f := Commit(e, ruleId, vars, r);
    var x, m := f.queue[|e.queue|], f.log[|e.log|];
    assert f.queue == e.queue + [x] && f.log == e.log + [m];
    RaisedAppend(e.log, m, e.nextId);
    MessageOwners(e, replies, m);
  }

  lemma WithoutOwned(rules: seq<Rule>, log: seq<Sent>, q: seq<Entry>, k: nat)
    requires k < |q| && AllOwned(rules, log, q)
    ensures AllOwned(rules, log, Without(q, k))
  {
    hide Owned;
    forall i | 0 <= i < |q| - 1 ensures Owned(rules, log, Without(q, k)[i]) {
      assert Owned(rules, log, q[if i < k then i else i + 1]);
    }
  }

  lemma SweepOneOwners(e: Engine, replies: seq<Entry>, k: nat, now: int, r: Reading)
    requires Owners(e, replies) && k < |e.queue|
    ensures Owners(SweepOne(e, k, now, r), replies)
  {
    hide Raised;
    var x, f := e.queue[k], SweepOne(e, k, now, r);
    assert Owned(e.rules, e.log, x) && x.id < e.nextId;
    if now - x.actionSent >= Timeout() {
      var m := f.log[|e.log|];
      assert f.log == e.log + [m];
      RaisedAppend(e.log, m, x.id);
      MessageOwners(e, replies, m);
      if x.numTries > NUM_ACTION_RETRIES {
        WithoutOwned(e.rules, f.log, e.queue, k);
      }
    }
  }

  lemma {:induction false} SweepOwners(e: Engine, replies: seq<Entry>, k: nat, now: int, readings: seq<Reading>)
    requires Owners(e, replies) && |e.stamps| == |e.rules|
    requires k <= |e.queue| && |readings| == |e.queue| - k
    ensures Owners(RuleEngine.Sweep(e, k, now, readings), replies)
    decreases |readings|
  {
    hide Owners, SweepOne;
    if k < |e.queue| {
      SweepOneOwners(e, replies, k, now, readings[0]);
      var f := SweepOne(e, k, now, readings[0]);
      SweepOwners(f, replies, if |f.queue| == |e.queue| then k + 1 else k, now, readings[1..]);
    }
  }

  ghost predicate OwnInv(s: Sys) {
    Owners(s.engine, s.replies) && forall i :: 0 <= i < |s.admitted| ==> s.admitted[i].ruleId < |s.engine.rules|
  }

  lemma NextOwners(s: Sys, step: Step)
    requires OwnInv(s) && Enabled(s, step)
    ensures OwnInv(Next(s, step))
  {
    hide Raised, About, Owned;
    var e := s.engine;
    match step {
      case CheckEvent(given, ruleId, vars, now) =>
        if Check(e, ruleId, now) == Reject { RefuseOwners(e, s.replies, given, ruleId, vars); }
      case CommitEvent(i, r) => CommitOwners(e, s.replies, s.admitted[i].ruleId, s.admitted[i].vars, r);
      case TakeAck(id) =>
        var k := Find(e.queue, id);
        if k < |e.queue| { WithoutOwned(e.rules, e.log, e.queue, k); }
      case SendAck(i) => ReplyOwners(e, s.replies, i);
      case ReadClock(_) =>
      case RunSweep(i, readings) => SweepOwners(e, s.replies, 0, s.sweeps[i], readings);
    }
  }

  lemma RefuseOwners(e: Engine, replies: seq<Entry>, given: nat, ruleId: nat, vars: string)
    requires Owners(e, replies) && ruleId < |e.rules| && Given(e.rules, given, ruleId)
    ensures Owners(Refuse(e, given, ruleId, vars), replies)
  {
    hide Raised, Given;
    MessageOwners(e, replies, Refused(given, ruleId, e.rules[ruleId].eventModule, vars));
  }

  lemma ReplyOwners(e: Engine, replies: seq<Entry>, i: nat)
    requires Owners(e, replies) && i < |replies|
    ensures Owners(Reply(e, replies[i]), Without(replies, i))
  {
    hide Raised;
    var x := replies[i];
    assert Owned(e.rules, e.log, x) && x.id < e.nextId;
    var m := Ack(x.id, x.ruleId, e.rules[x.ruleId].eventModule, x.vars);
    RaisedAppend(e.log, m, x.id);
    MessageOwners(e, replies, m);
    WithoutOwned(e.rules, e.log + [m], replies, i);
  }

  lemma {:induction false} RunOwners(s: Sys, steps: seq<Step>)
    requires OwnInv(s) && Run(s, steps)
    ensures OwnInv(After(s, steps)) && After(s, steps).engine.rules == s.engine.rules
    decreases |steps|
  {
    hide OwnInv, Enabled, Next;
    if steps != [] {
      NextOwners(s, steps[0]);
      NextRules(s, steps[0]);
      RunOwners(Next(s, steps[0]), steps[1..]);
    }
  }

  lemma NextRules(s: Sys, step: Step)
    requires Enabled(s, step)
    ensures Next(s, step).engine.rules == s.engine.rules
  {}

  /** In every run, an event has had an action exactly when it was accepted, and every action, ack and
      abort that carries its id carries its rule and variables and goes to that rule's modules. */
  lemma EventsOwned(rules: seq<Rule>, start: nat, steps: seq<Step>, id: nat)
    requires Run(Init(rules, start), steps)
    ensures var s := After(Init(rules, start), steps);
            && s.engine.rules == rules
            && (Raised(s.engine.log, id).Some? <==> id < s.engine.nextId)
            && (id < s.engine.nextId ==> Raised(s.engine.log, id).value.ruleId < |rules|)
            && AllAbout(rules, s.engine.log, s.engine.log)
  {
    hide About, Owned;
    RunOwners(Init(rules, start), steps);
    RaisedRule(After(Init(rules, start), steps).engine.log, rules, id);
  }

  lemma RaisedRule(log: seq<Sent>, rules: seq<Rule>, id: nat)
    requires AllAbout(rules, log, log)
    ensures Raised(log, id).Some? ==> Raised(log, id).value.ruleId < |rules|
  {
    RaisedFrom(log, id);
    if Raised(log, id).Some? {
      var i :| 0 <= i < |log| && log[i].Action? && Raised(log, id) == Some(Origin(log[i].ruleId, log[i].vars));
      assert About(rules, log, log[i]);
    }
  }

  lemma {:induction false} RaisedFrom(log: seq<Sent>, id: nat)
    ensures Raised(log, id).Some? ==>
              exists i :: 0 <= i < |log| && log[i].Action? &&
                Raised(log, id) == Some(Origin(log[i].ruleId, log[i].vars))
  {
    if log != [] {
      RaisedFrom(log[..|log| - 1], id);
      if Raised(log[..|log| - 1], id).Some? {
        var i :| 0 <= i < |log| - 1 && log[i].Action? && Raised(log, id) == Some(Origin(log[i].ruleId, log[i].vars));
      }
    }
  }

  // ---------- counting what a module is told ----------

  predicate Tells(m: Sent, dest: string, id: nat) {
    !m.Action? && m.dest == dest && m.eventId == id
  }

  /** How many acks and aborts with an event id go to a module. */
  function Answers(log: seq<Sent>, dest: string, id: nat): nat {
    if log == [] then 0
    else Answers(log[..|log| - 1], dest, id) + (if Tells(log[|log| - 1], dest, id) then 1 else 0)
  }

  predicate Refuses(m: Sent, dest: string) {
    m.Refused? && m.dest == dest
  }

  /** How many events of a module were refused. */
  function Refusals(log: seq<Sent>, dest: string): nat {
    if log == [] then 0
    else Refusals(log[..|log| - 1], dest) + (if Refuses(log[|log| - 1], dest) then 1 else 0)
  }

  /** The messages about an owned event, and the refused events of a module that gets messages. */
  lemma {:induction false} AnswersSplit(rules: seq<Rule>, log: seq<Sent>, ms: seq<Sent>, id: nat, dest: string)
    requires AllAbout(rules, log, ms) && dest != SYSTEM_MESSAGE_MODULE
    requires Raised(log, id).Some? && Raised(log, id).value.ruleId < |rules|
    ensures Answers(ms, dest, id) ==
              (if dest == rules[Raised(log, id).value.ruleId].eventModule then Replied(ms, id) else 0) +
              (if id == RECEIVED_ID then Refusals(ms, dest) else 0)
    decreases |ms|
  {
    hide Raised;
    if ms != [] {
      assert About(rules, log, ms[|ms| - 1]);
      AnswersSplit(rules, log, ms[..|ms| - 1], id, dest);
    }
  }

  /** The module whose event it is. */
  function Owner(rules: seq<Rule>, log: seq<Sent>, id: nat): string
    requires Raised(log, id).Some? && Raised(log, id).value.ruleId < |rules|
  {
    rules[Raised(log, id).value.ruleId].eventModule
  }

  // ---------- refusals, seen from the run ----------

  /** This step refuses an event of the module. */
  predicate RefusedHere(s: Sys, step: Step, dest: string)
    requires Enabled(s, step)
  {
    && step.CheckEvent? && Check(s.engine, step.ruleId, step.now).Reject?
    && s.engine.rules[step.ruleId].eventModule == dest
  }

  /** No event of the module is refused in the run. */
  ghost predicate NoneRefused(s: Sys, steps: seq<Step>, dest: string)
    requires Run(s, steps)
    decreases |steps|
  {
    steps == [] || (!RefusedHere(s, steps[0], dest) && NoneRefused(Next(s, steps[0]), steps[1..], dest))
  }

  lemma RefusalsAppend(log: seq<Sent>, m: Sent, dest: string)
    ensures Refusals(log + [m], dest) == Refusals(log, dest) + (if Refuses(m, dest) then 1 else 0)
  {
    assert (log + [m])[..|log|] == log;
  }

  lemma SweepOneRefusals(e: Engine, k: nat, now: int, r: Reading, dest: string)
    requires |e.stamps| == |e.rules| && k < |e.queue|
    ensures Refusals(SweepOne(e, k, now, r).log, dest) == Refusals(e.log, dest)
  {
    hide Refusals;
    var f := SweepOne(e, k, now, r);
    if f.log != e.log {
      assert f.log == e.log + [f.log[|e.log|]];
      RefusalsAppend(e.log, f.log[|e.log|], dest);
    }
  }

  lemma {:induction false} SweepRefusals(e: Engine, k: nat, now: int, readings: seq<Reading>, dest: string)
    requires |e.stamps| == |e.rules| && k <= |e.queue| && |readings| == |e.queue| - k
    ensures Refusals(RuleEngine.Sweep(e, k, now, readings).log, dest) == Refusals(e.log, dest)
    decreases |readings|
  {
    hide SweepOne, Refusals;
    if k < |e.queue| {
      SweepOneRefusals(e, k, now, readings[0], dest);
      var f := SweepOne(e, k, now, readings[0]);
      SweepRefusals(f, if |f.queue| == |e.queue| then k + 1 else k, now, readings[1..], dest);
    }
  }

  lemma NextRefusals(s: Sys, step: Step, dest: string)
    requires Enabled(s, step)
    ensures Refusals(Next(s, step).engine.log, dest)
         == Refusals(s.engine.log, dest) + (if RefusedHere(s, step, dest) then 1 else 0)
  {
    hide Refusals, Given;
    var e, f := s.engine, Next(s, step).engine;
    if step.RunSweep? {
      SweepRefusals(e, 0, s.sweeps[step.i], step.readings, dest);
    } else if f.log != e.log {
      assert f.log == e.log + [f.log[|e.log|]];
      RefusalsAppend(e.log, f.log[|e.log|], dest);
    }
  }

  lemma {:induction false} RunRefusals(s: Sys, steps: seq<Step>, dest: string)
    requires Run(s, steps)
    ensures Refusals(After(s, steps).engine.log, dest) >= Refusals(s.engine.log, dest)
    ensures NoneRefused(s, steps, dest) <==> Refusals(After(s, steps).engine.log, dest) == Refusals(s.engine.log, dest)
    decreases |steps|
  {
    hide Enabled, Next, Refusals, RefusedHere;
    if steps != [] {
      NextRefusals(s, steps[0], dest);
      RunRefusals(Next(s, steps[0]), steps[1..], dest);
    }
  }

  // ---------- exactly one reply ----------

  predicate Settled(s: Sys, id: nat) {
    id < s.engine.nextId && !InQueue(s, id) && !AwaitsReply(s, id)
  }

  /** What any module is told under the id of an accepted event, at any moment of any run: the
      event's own reply if it is the owner and the event is settled, and under id 0 each of its
      refused events. Nothing goes to the module of system messages, which does not exist. */
  lemma AnswersCounted(rules: seq<Rule>, start: nat, steps: seq<Step>, id: nat, dest: string)
    requires Run(Init(rules, start), steps) && dest != SYSTEM_MESSAGE_MODULE
    requires id < After(Init(rules, start), steps).engine.nextId
    ensures var s := After(Init(rules, start), steps);
            && Raised(s.engine.log, id).Some? && Raised(s.engine.log, id).value.ruleId < |rules|
            && Answers(s.engine.log, dest, id) ==
                 (if dest == Owner(rules, s.engine.log, id) && Settled(s, id) then 1 else 0) +
                 (if id == RECEIVED_ID then Refusals(s.engine.log, dest) else 0)
  {
    hide Run, After, Init, Raised, Replied, Refusals, Answers, About, InQueue, AwaitsReply;
    EventsOwned(rules, start, steps, id);
    OneOutcome(rules, start, steps, id);
    var log := After(Init(rules, start), steps).engine.log;
    AnswersSplit(rules, log, log, id, dest);
  }

  /** Once an event has left the core, its module has been sent exactly one reply under its id, and
      before that none, exactly when the id is not 0 or no event of the module was refused. */
  lemma OneAnswerIff(rules: seq<Rule>, start: nat, steps: seq<Step>, id: nat)
    requires Run(Init(rules, start), steps) && id < After(Init(rules, start), steps).engine.nextId
    ensures var s := After(Init(rules, start), steps);
            && Raised(s.engine.log, id).Some? && Raised(s.engine.log, id).value.ruleId < |rules|
            && var owner := Owner(rules, s.engine.log, id);
               owner != SYSTEM_MESSAGE_MODULE ==>
                 (Answers(s.engine.log, owner, id) == (if Settled(s, id) then 1 else 0)
                  <==> id != RECEIVED_ID || NoneRefused(Init(rules, start), steps, owner))
  {
    hide Run, After, Raised, Refusals, Answers, Settled, NoneRefused;
    EventsOwned(rules, start, steps, id);
    var owner := Owner(rules, After(Init(rules, start), steps).engine.log, id);
    if owner != SYSTEM_MESSAGE_MODULE {
      AnswersCounted(rules, start, steps, id, owner);
      RunRefusals(Init(rules, start), steps, owner);
      NoRefusals(owner);
    }
  }

  lemma NoRefusals(dest: string)
    ensures Refusals([], dest) == 0
  {}

  lemma AnswersAppend(log: seq<Sent>, m: Sent, dest: string, id: nat)
    ensures Answers(log + [m], dest, id) == Answers(log, dest, id) + (if Tells(m, dest, id) then 1 else 0)
  {
    assert (log + [m])[..|log|] == log;
  }

  /** Every enabled rule with a fire limit can bring the other case about: an event is accepted under
      id 0, the next comes too early and is refused, and the module is told of an abort under id 0
      while its event 0 is still queued, and of the ack later. */
  lemma TwoAnswers(rules: seq<Rule>, rule: nat) returns (early: seq<Step>, steps: seq<Step>)
    requires rule < |rules| && !rules[rule].isDisabled && rules[rule].fireLimit > 0.0 && Limit(rules[rule]) > 0
    ensures Run(Init(rules, 0), early) && Run(Init(rules, 0), steps)
    ensures var s, r, dest := After(Init(rules, 0), early), After(Init(rules, 0), steps), rules[rule].eventModule;
            && InQueue(s, 0) && Answers(s.engine.log, dest, 0) == 1
            && Settled(r, 0) && Answers(r.engine.log, dest, 0) == 2
  {
    hide Limit, Answers, Given;
    var t, dest := Limit(rules[rule]), rules[rule].eventModule;
    var check, commit := CheckEvent(0, rule, "", t), CommitEvent(0, Reading(t, t));
    var s0 := Init(rules, 0);
    CheckedGiven(rules, rule);
    var s1 := Next(s0, check);
    assert s1.admitted == [Admission(rule, "", t)];
    var s2 := Next(s1, commit);
    assert s2.engine.queue == [Entry(rule, "", 0, t, 1)];
    var s3 := Next(s2, check);
    var s4 := Next(s3, TakeAck(0));
    assert s4.engine.queue == [] && s4.replies == [s3.engine.queue[0]];
    var s5 := Next(s4, SendAck(0));
    early := [check] + ([commit] + ([check] + []));
    steps := early + [TakeAck(0)] + [SendAck(0)];
    RunCons(s2, check, []);
    RunCons(s1, commit, [check] + []);
    RunCons(s0, check, [commit] + ([check] + []));
    RunSnoc(s0, early, TakeAck(0));
    RunSnoc(s0, early + [TakeAck(0)], SendAck(0));
    var action, refused := s2.engine.log[0], Refused(0, rule, dest, "");
    assert s2.engine.log == [] + [action] && s3.engine.log == s2.engine.log + [refused];
    assert s5.engine.log == s3.engine.log + [Ack(0, rule, dest, "")];
    AnswersAppend([], action, dest, 0);
    AnswersAppend(s2.engine.log, refused, dest, 0);
    AnswersAppend(s3.engine.log, Ack(0, rule, dest, ""), dest, 0);
    NoAnswers(dest);
    assert s3.engine.queue[0].id == 0;
  }

  lemma CheckedGiven(rules: seq<Rule>, rule: nat)
    ensures Given(rules, RECEIVED_ID, rule)
  {}

  lemma NoAnswers(dest: string)
    ensures Answers([], dest, 0) == 0
  {}
}
