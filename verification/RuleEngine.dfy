/** The core's rule engine: the queue of unacknowledged events, the rule time stamps and the
    messages handed to the messenger. Time is in nanoseconds; clock readings are parameters. */
module RuleEngine {
  import opened Text

  const ACK_TIMEOUT := 60_000
  const NUM_ACTION_RETRIES := 3
  const MILLISECOND := 1_000_000
  const SYSTEM_MESSAGE := "system_message"
  const SYSTEM_MESSAGE_MODULE := "module_system_message"
  const MSG_VAR_SIZE := 1016

  datatype Rule = Rule(eventModule: string, eventKey: string, actionModule: string,
                       fireLimit: real, isDisabled: bool)

  datatype Entry = Entry(ruleId: nat, vars: string, id: nat, actionSent: int, numTries: nat)

  /** The two clock readings of takeAction: for the rule and for the entry. */
  datatype Reading = Reading(stamp: int, sent: int)

  /** The id of the entry the message loop makes for a received event. */
  const RECEIVED_ID := 0

  /** A message handed to the messenger. Refused is the abort for an event that was not queued: it
      carries the id the event came in with. */
  datatype Sent =
    | Action(eventId: nat, ruleId: nat, dest: string, vars: string, attempt: nat, stamp: int, at: int)
    | Ack(eventId: nat, ruleId: nat, dest: string, vars: string)
    | Abort(eventId: nat, ruleId: nat, dest: string, vars: string, at: int)
    | Refused(eventId: nat, ruleId: nat, dest: string, vars: string)

  datatype Engine = Engine(rules: seq<Rule>, stamps: seq<int>, queue: seq<Entry>, nextId: nat, log: seq<Sent>)

  datatype Verdict = Unknown | Reject | Accept

  /** std::lround: half away from zero. */
  function Lround(x: real): int {
    if x >= 0.0 then (x + 0.5).Floor else -((0.5 - x).Floor)
  }

  function Limit(rule: Rule): int {
    Lround(rule.fireLimit * 1000.0) * MILLISECOND
  }

  function Timeout(): int {
    ACK_TIMEOUT * MILLISECOND
  }

  /** The unlocked part of enqueueEvent. */
  function Check(e: Engine, ruleId: nat, now: int): Verdict
    requires |e.stamps| == |e.rules|
  {
    if ruleId >= |e.rules| then Unknown
    else if e.rules[ruleId].isDisabled then Reject
    else if e.rules[ruleId].fireLimit > 0.0 && e.stamps[ruleId] + Limit(e.rules[ruleId]) > now then Reject
    else Accept
  }

  function TakeAction(e: Engine, entry: Entry, r: Reading): (Engine, Entry)
    requires |e.stamps| == |e.rules|
  {
    if entry.ruleId >= |e.rules| then (e, entry)
    else
      var sent := entry.(numTries := entry.numTries + 1, actionSent := r.sent);
      (e.(stamps := e.stamps[entry.ruleId := r.stamp],
          log := e.log + [Action(entry.id, entry.ruleId, e.rules[entry.ruleId].actionModule, entry.vars,
                                 sent.numTries, r.stamp, r.sent)]),
       sent)
  }

  /** The locked part of enqueueEvent. */
  function Commit(e: Engine, ruleId: nat, vars: string, r: Reading): Engine
    requires |e.stamps| == |e.rules|
  {
    var (e1, entry) := TakeAction(e, Entry(ruleId, vars, e.nextId, 0, 0), r);
    e1.(queue := e1.queue + [entry], nextId := e.nextId + 1)
  }

  function Refuse(e: Engine, given: nat, ruleId: nat, vars: string): Engine {
    if ruleId >= |e.rules| then e
    else e.(log := e.log + [Refused(given, ruleId, e.rules[ruleId].eventModule, vars)])
  }

  /** enqueueEvent of an entry that comes with the id given. */
  function Enqueue(e: Engine, given: nat, ruleId: nat, vars: string, now: int, r: Reading): Engine
    requires |e.stamps| == |e.rules|
  {
    match Check(e, ruleId, now)
    case Unknown => e
    case Reject => Refuse(e, given, ruleId, vars)
    case Accept => Commit(e, ruleId, vars, r)
  }

  /** The position of an event in the queue, or the queue's length. */
  function Find(queue: seq<Entry>, id: nat): (k: nat)
    ensures k <= |queue|
    ensures k < |queue| ==> queue[k].id == id
    ensures forall i :: 0 <= i < k ==> queue[i].id != id
  {
    if queue == [] || queue[0].id == id then 0 else 1 + Find(queue[1..], id)
  }

  function Without<T>(s: seq<T>, k: nat): seq<T>
    requires k < |s|
  {
    s[..k] + s[k + 1..]
  }

  /** The locked part of acceptAck: the entry, if it was still queued, leaves the queue. */
  function Unqueue(e: Engine, id: nat): (Option<Entry>, Engine) {
    var k := Find(e.queue, id);
    if k < |e.queue| then (Some(e.queue[k]), e.(queue := Without(e.queue, k))) else (None, e)
  }

  /** The rest of acceptAck, after the lock. */
  function Reply(e: Engine, entry: Entry): Engine {
    if entry.ruleId >= |e.rules| then e
    else e.(log := e.log + [Ack(entry.id, entry.ruleId, e.rules[entry.ruleId].eventModule, entry.vars)])
  }

  /** What the sweep does to the entry at position k. */
  function SweepOne(e: Engine, k: nat, now: int, r: Reading): (f: Engine)
    requires |e.stamps| == |e.rules| && k < |e.queue|
    ensures |f.stamps| == |f.rules| && f.rules == e.rules
    ensures |f.queue| == |e.queue| || |f.queue| + 1 == |e.queue|
  {
    var entry := e.queue[k];
    if now - entry.actionSent < Timeout() then e
    else if entry.numTries <= NUM_ACTION_RETRIES then
      var (e1, sent) := TakeAction(e, entry, r);
      e1.(queue := e1.queue[k := sent])
    else
      var e1 := e.(queue := Without(e.queue, k));
      if entry.ruleId >= |e.rules| then e1
      else e1.(log := e1.log + [Abort(entry.id, entry.ruleId, e.rules[entry.ruleId].eventModule, entry.vars, r.stamp)])
  }

  /** One turn of the acknowledgement thread from position k on; readings are used in order. */
  function Sweep(e: Engine, k: nat, now: int, readings: seq<Reading>): (f: Engine)
    requires |e.stamps| == |e.rules| && k <= |e.queue|
    requires |readings| == |e.queue| - k
    ensures f.rules == e.rules && |f.stamps| == |f.rules|
    decreases |readings|
  {
    if k == |e.queue| then e
    else
      var f := SweepOne(e, k, now, readings[0]);
      Sweep(f, if |f.queue| == |e.queue| then k + 1 else k, now, readings[1..])
  }

  predicate ForSystemMessages(rule: Rule) {
    rule.eventModule == SYSTEM_MESSAGE_MODULE && rule.eventKey == SYSTEM_MESSAGE
  }

  /** The clock readings of one enqueueEvent: at the check and, if it comes to that, at the action. */
  datatype Times = Times(checkAt: int, actionAt: Reading)

  /** systemMessage from rule i on: the entries come with the rule's id; times holds the readings for each rule. */
  function SystemMessage(e: Engine, i: nat, vars: string, times: seq<Times>): (f: Engine)
    requires |e.stamps| == |e.rules| == |times| && i <= |times|
    ensures f.rules == e.rules && |f.stamps| == |f.rules|
    decreases |times| - i
  {
    if i == |times| then e
    else
      var e1 := if ForSystemMessages(e.rules[i]) then Enqueue(e, i, i, vars, times[i].checkAt, times[i].actionAt)
                else e;
      SystemMessage(e1, i + 1, vars, times)
  }

  /** Whatever a system message sends or stamps is for a rule about system messages. */
  lemma {:induction false} SystemMessageScope(e: Engine, i: nat, vars: string, times: seq<Times>)
    requires |e.stamps| == |e.rules| == |times| && i <= |times|
    ensures var f := SystemMessage(e, i, vars, times);
            && |e.log| <= |f.log| && f.log[..|e.log|] == e.log
            && (forall k :: |e.log| <= k < |f.log| ==>
                  f.log[k].ruleId < |e.rules| && ForSystemMessages(e.rules[f.log[k].ruleId]) && f.log[k].vars == vars)
            && (forall k :: 0 <= k < |e.rules| && !ForSystemMessages(e.rules[k]) ==> f.stamps[k] == e.stamps[k])
    decreases |times| - i
  {
    hide Limit, ForSystemMessages;
    if i < |times| {
      var e1 := if ForSystemMessages(e.rules[i]) then Enqueue(e, i, i, vars, times[i].checkAt, times[i].actionAt)
                else e;
      SystemMessageScope(e1, i + 1, vars, times);
      var f := SystemMessage(e1, i + 1, vars, times);
      assert f.log[..|e.log|] == f.log[..|e1.log|][..|e.log|];
    }
  }

  // ---------- what the operations do, said without them ----------

  /** The nearest whole number, halves away from zero. */
  lemma LroundNearest(x: real)
    ensures -0.5 <= Lround(x) as real - x <= 0.5 && Lround(-x) == -Lround(x)
    ensures Lround(x) as real - x == -0.5 ==> x < 0.0
    ensures Lround(x) as real - x == 0.5 ==> x > 0.0
  {}

  /** The fire limit in nanoseconds, to within half a millisecond. */
  lemma LimitNearest(rule: Rule)
    ensures -500_000.0 <= Limit(rule) as real - rule.fireLimit * 1_000_000_000.0 <= 500_000.0
  {
    LroundNearest(rule.fireLimit * 1000.0);
  }

  /** When the last action of a rule was sent, or the epoch. */
  function LastStamp(log: seq<Sent>, rule: nat): int {
    if log == [] then 0
    else
      var m := log[|log| - 1];
      if m.Action? && m.ruleId == rule then m.stamp else LastStamp(log[..|log| - 1], rule)
  }

  lemma LastStampAppend(log: seq<Sent>, m: Sent, rule: nat)
    ensures LastStamp(log + [m], rule) == if m.Action? && m.ruleId == rule then m.stamp else LastStamp(log, rule)
  {
    assert (log + [m])[..|log|] == log;
  }

  /** The time stamps are those of the last actions. */
  ghost predicate Stamped(e: Engine) {
    |e.stamps| == |e.rules| && forall rule :: 0 <= rule < |e.rules| ==> e.stamps[rule] == LastStamp(e.log, rule)
  }

  /** An enabled rule whose last action, if it has a fire limit, is that long ago. */
  predicate Due(rule: Rule, last: int, now: int) {
    !rule.isDisabled && (rule.fireLimit <= 0.0 || now - last >= Limit(rule))
  }

  lemma MessageStamped(e: Engine, m: Sent)
    requires Stamped(e) && (m.Action? ==> m.ruleId < |e.rules|)
    ensures var stamps := if m.Action? then e.stamps[m.ruleId := m.stamp] else e.stamps;
            Stamped(e.(stamps := stamps, log := e.log + [m]))
  {
    hide LastStamp;
    forall rule | 0 <= rule < |e.rules|
      ensures LastStamp(e.log + [m], rule)
           == if m.Action? && m.ruleId == rule then m.stamp else LastStamp(e.log, rule) {
      LastStampAppend(e.log, m, rule);
    }
  }

  /** One event: nothing for an unknown rule; if the rule is due, a new id, an entry at the end of the
      queue, and one action; otherwise one abort, and nothing else changes. */
  lemma EnqueueDoes(e: Engine, given: nat, ruleId: nat, vars: string, now: int, r: Reading)
    requires Stamped(e)
    ensures Stamped(Enqueue(e, given, ruleId, vars, now, r))
    ensures Enqueue(e, given, ruleId, vars, now, r) ==
              if ruleId >= |e.rules| then e
              else if Due(e.rules[ruleId], LastStamp(e.log, ruleId), now) then
                Engine(e.rules, e.stamps[ruleId := r.stamp], e.queue + [Entry(ruleId, vars, e.nextId, r.sent, 1)],
                       e.nextId + 1,
                       e.log + [Action(e.nextId, ruleId, e.rules[ruleId].actionModule, vars, 1, r.stamp, r.sent)])
              else e.(log := e.log + [Refused(given, ruleId, e.rules[ruleId].eventModule, vars)])
  {
    hide LastStamp, Limit;
    if ruleId < |e.rules| {
      MessageStamped(e, Action(e.nextId, ruleId, e.rules[ruleId].actionModule, vars, 1, r.stamp, r.sent));
      MessageStamped(e, Refused(given, ruleId, e.rules[ruleId].eventModule, vars));
    }
  }

  /** What a sweep makes of one entry: what stays in the queue and what is sent. */
  function Treated(rules: seq<Rule>, x: Entry, now: int, r: Reading): (seq<Entry>, seq<Sent>) {
    if now - x.actionSent < Timeout() then ([x], [])
    else if x.numTries <= NUM_ACTION_RETRIES then
      if x.ruleId >= |rules| then ([x], [])
      else ([Entry(x.ruleId, x.vars, x.id, r.sent, x.numTries + 1)],
            [Action(x.id, x.ruleId, rules[x.ruleId].actionModule, x.vars, x.numTries + 1, r.stamp, r.sent)])
    else if x.ruleId >= |rules| then ([], [])
    else ([], [Abort(x.id, x.ruleId, rules[x.ruleId].eventModule, x.vars, r.stamp)])
  }

  function Remaining(rules: seq<Rule>, q: seq<Entry>, now: int, readings: seq<Reading>): seq<Entry>
    requires |readings| == |q|
  {
    if q == [] then []
    else Treated(rules, q[0], now, readings[0]).0 + Remaining(rules, q[1..], now, readings[1..])
  }

  function SweepSends(rules: seq<Rule>, q: seq<Entry>, now: int, readings: seq<Reading>): seq<Sent>
    requires |readings| == |q|
  {
    if q == [] then []
    else Treated(rules, q[0], now, readings[0]).1 + SweepSends(rules, q[1..], now, readings[1..])
  }

  lemma SweepOneDoes(e: Engine, k: nat, now: int, r: Reading)
    requires Stamped(e) && k < |e.queue|
    ensures var f, (stay, sent) := SweepOne(e, k, now, r), Treated(e.rules, e.queue[k], now, r);
            && Stamped(f) && f.nextId == e.nextId && |stay| <= 1
            && f.queue == e.queue[..k] + stay + e.queue[k + 1..] && f.log == e.log + sent
  {
    hide LastStamp;
    var (_, sent) := Treated(e.rules, e.queue[k], now, r);
    if sent != [] { MessageStamped(e, sent[0]); }
  }

  /** Erasing while iterating, a sweep treats every entry once, with the entry's own reading, and
      keeps the order. */
  lemma {:induction false} SweepDoes(e: Engine, k: nat, now: int, readings: seq<Reading>)
    requires Stamped(e) && k <= |e.queue| && |readings| == |e.queue| - k
    ensures var f := Sweep(e, k, now, readings);
            && Stamped(f) && f.nextId == e.nextId
            && f.queue == e.queue[..k] + Remaining(e.rules, e.queue[k..], now, readings)
            && f.log == e.log + SweepSends(e.rules, e.queue[k..], now, readings)
    decreases |readings|
  {
    hide SweepOne, Stamped, Treated;
    if k == |e.queue| {
      assert e.queue[..k] + [] == e.queue && e.log + [] == e.log;
    } else {
      StampedMatch(e);
      SweepOneDoes(e, k, now, readings[0]);
      var f := SweepOne(e, k, now, readings[0]);
      var (stay, sent) := Treated(e.rules, e.queue[k], now, readings[0]);
      var next := if |f.queue| == |e.queue| then k + 1 else k;
      SweepDoes(f, next, now, readings[1..]);
      assert e.queue[k..][1..] == e.queue[k + 1..] == f.queue[next..];
      assert f.queue[..next] == e.queue[..k] + stay;
    }
  }

  lemma StampedMatch(e: Engine)
    requires Stamped(e)
    ensures |e.stamps| == |e.rules|
  {}

  function SystemRules(rules: seq<Rule>, i: nat): seq<nat>
    requires i <= |rules|
    decreases |rules| - i
  {
    if i == |rules| then [] else (if ForSystemMessages(rules[i]) then [i] else []) + SystemRules(rules, i + 1)
  }

  /** One message for one rule: the action if it is due, otherwise the abort, which carries the rule's
      id as the event's. */
  predicate Notified(e: Engine, m: Sent, rule: nat, vars: string, now: int)
    requires rule < |e.rules|
  {
    && m.ruleId == rule && m.vars == vars
    && if Due(e.rules[rule], LastStamp(e.log, rule), now)
       then m.Action? && m.dest == e.rules[rule].actionModule && m.attempt == 1
       else m == Refused(rule, rule, e.rules[rule].eventModule, vars)
  }

  lemma {:induction false} RulesFrom(rules: seq<Rule>, i: nat)
    requires i <= |rules|
    ensures forall rule :: rule in SystemRules(rules, i) ==> i <= rule < |rules| && ForSystemMessages(rules[rule])
    decreases |rules| - i
  {
    hide ForSystemMessages;
    if i < |rules| { RulesFrom(rules, i + 1); }
  }

  lemma RuleNotified(e: Engine, rule: nat, vars: string, now: int, r: Reading) returns (m: Sent)
    requires Stamped(e) && rule < |e.rules|
    ensures var f := Enqueue(e, rule, rule, vars, now, r);
            && Stamped(f) && f.rules == e.rules && f.log == e.log + [m] && Notified(e, m, rule, vars, now)
    ensures forall other: nat :: other < |e.rules| && other != rule ==>
              LastStamp(Enqueue(e, rule, rule, vars, now, r).log, other) == LastStamp(e.log, other)
  {
    hide Due, LastStamp;
    EnqueueDoes(e, rule, rule, vars, now, r);
    var f := Enqueue(e, rule, rule, vars, now, r);
    m := f.log[|e.log|];
    forall other: nat | other != rule ensures LastStamp(f.log, other) == LastStamp(e.log, other) {
      LastStampAppend(e.log, m, other);
    }
  }

  /** The messages are for these rules, in this order. */
  predicate AllNotified(e: Engine, ms: seq<Sent>, ids: seq<nat>, vars: string, times: seq<Times>) {
    && |ms| == |ids|
    && forall j :: 0 <= j < |ids| ==>
         ids[j] < |e.rules| && ids[j] < |times| && Notified(e, ms[j], ids[j], vars, times[ids[j]].checkAt)
  }

  lemma NotifiedBefore(e: Engine, f: Engine, ms: seq<Sent>, ids: seq<nat>, vars: string, times: seq<Times>)
    requires f.rules == e.rules && AllNotified(f, ms, ids, vars, times)
    requires forall rule :: rule in ids ==> LastStamp(f.log, rule) == LastStamp(e.log, rule)
    ensures AllNotified(e, ms, ids, vars, times)
  {
    hide Due, LastStamp;
    forall j | 0 <= j < |ids| ensures Notified(e, ms[j], ids[j], vars, times[ids[j]].checkAt) {
      assert ids[j] in ids && Notified(f, ms[j], ids[j], vars, times[ids[j]].checkAt);
    }
  }

  /** A system message sends each rule about system messages, in their order, exactly one message. */
  lemma {:induction false} SystemMessageSends(e: Engine, i: nat, vars: string, times: seq<Times>)
    returns (ms: seq<Sent>)
    requires Stamped(e) && |e.rules| == |times| == |e.stamps| && i <= |times|
    ensures var f := SystemMessage(e, i, vars, times);
            Stamped(f) && f.log == e.log + ms && AllNotified(e, ms, SystemRules(e.rules, i), vars, times)
    decreases |times| - i
  {
    hide ForSystemMessages, Enqueue, Notified, LastStamp;
    if i == |times| {
      ms := [];
    } else if ForSystemMessages(e.rules[i]) {
      RulesFrom(e.rules, i + 1);
      var rest := SystemRules(e.rules, i + 1);
      var m := RuleNotified(e, i, vars, times[i].checkAt, times[i].actionAt);
      var e1 := Enqueue(e, i, i, vars, times[i].checkAt, times[i].actionAt);
      var more := SystemMessageSends(e1, i + 1, vars, times);
      NotifiedBefore(e, e1, more, rest, vars, times);
      ms := [m] + more;
      assert e.log + [m] + more == e.log + ms;
    } else {
      ms := SystemMessageSends(e, i + 1, vars, times);
    }
  }

  class Core {
    const rules: seq<Rule>
    var stamps: seq<int>
    var queue: seq<Entry>
    var nextId: nat
    var log: seq<Sent>

    constructor (rules: seq<Rule>)
      ensures Valid() && State() == Engine(rules, seq(|rules|, _ => 0), [], 0, [])
    {
      this.rules := rules;
      stamps := seq(|rules|, _ => 0);
      queue, nextId, log := [], 0, [];
    }

    /** The stamps are those of the last actions. */
    ghost predicate Valid()
      reads this
    {
      Stamped(State())
    }

    function State(): Engine
      reads this
    {
      Engine(rules, stamps, queue, nextId, log)
    }

    method TakeActionFor(entry: Entry, r: Reading) returns (sent: Entry)
      requires Valid()
      modifies this
      ensures Valid() && (State(), sent) == TakeAction(old(State()), entry, r)
    {
      hide LastStamp;
      sent := entry;
      if entry.ruleId < |rules| {
        stamps := stamps[entry.ruleId := r.stamp];
        sent := entry.(numTries := entry.numTries + 1, actionSent := r.sent);
        log := log + [Action(entry.id, entry.ruleId, rules[entry.ruleId].actionModule, entry.vars,
                             sent.numTries, r.stamp, r.sent)];
        MessageStamped(old(State()), log[|log| - 1]);
      }
    }

    /** enqueueEvent of an entry that comes with the id given. */
    method EnqueueEvent(given: nat, ruleId: nat, vars: string, now: int, r: Reading)
      requires Valid()
      modifies this
      ensures Valid() && State() == Enqueue(old(State()), given, ruleId, vars, now, r)
      ensures ruleId >= |rules| ==> State() == old(State())
      ensures ruleId < |rules| && Due(rules[ruleId], LastStamp(old(log), ruleId), now) ==>
                && queue == old(queue) + [Entry(ruleId, vars, old(nextId), r.sent, 1)] && nextId == old(nextId) + 1
                && log == old(log) + [Action(old(nextId), ruleId, rules[ruleId].actionModule, vars, 1, r.stamp, r.sent)]
      ensures ruleId < |rules| && !Due(rules[ruleId], LastStamp(old(log), ruleId), now) ==>
                && queue == old(queue) && nextId == old(nextId) && stamps == old(stamps)
                && log == old(log) + [Refused(given, ruleId, rules[ruleId].eventModule, vars)]
    {
      hide LastStamp, Limit;
      EnqueueDoes(State(), given, ruleId, vars, now, r);
      if ruleId >= |rules| {
        return;
      }
      var rule := rules[ruleId];
      var trigger := true;
      if trigger && rule.isDisabled {
        trigger := false;
      }
      if trigger && rule.fireLimit > 0.0 {
        if stamps[ruleId] + Limit(rule) > now {
          trigger := false;
        }
      }
      if trigger {
        var entry := Entry(ruleId, vars, nextId, 0, 0);
        nextId := nextId + 1;
        var sent := TakeActionFor(entry, r);
        queue := queue + [sent];
      } else {
        log := log + [Refused(given, ruleId, rule.eventModule, vars)];
      }
    }

    method AcceptAck(id: nat)
      requires Valid()
      modifies this
      ensures Valid()
      ensures var (entry, e) := Unqueue(old(State()), id);
              State() == if entry.Some? then Reply(e, entry.value) else e
      ensures (forall k :: 0 <= k < |old(queue)| ==> old(queue)[k].id != id) ==> State() == old(State())
      ensures forall k :: 0 <= k < |old(queue)| && old(queue)[k].id == id
                          && (forall j :: 0 <= j < k ==> old(queue)[j].id != id) ==>
                var x := old(queue)[k];
                && queue == old(queue)[..k] + old(queue)[k + 1..] && stamps == old(stamps) && nextId == old(nextId)
                && (x.ruleId < |rules| ==> log == old(log) + [Ack(id, x.ruleId, rules[x.ruleId].eventModule, x.vars)])
    {
      hide LastStamp;
      var k := 0;
      while k < |queue| && queue[k].id != id
        invariant k <= |queue| && Find(queue, id) == k + Find(queue[k..], id)
      {
        assert queue[k..][1..] == queue[k + 1..];
        k := k + 1;
      }
      if k < |queue| {
        var entry := queue[k];
        queue := Without(queue, k);
        if entry.ruleId < |rules| {
          log := log + [Ack(entry.id, entry.ruleId, rules[entry.ruleId].eventModule, entry.vars)];
          MessageStamped(old(State()), log[|log| - 1]);
        }
      }
    }

    method SweepQueue(now: int, readings: seq<Reading>)
      requires Valid() && |readings| == |queue|
      modifies this
      ensures Valid() && State() == Sweep(old(State()), 0, now, readings)
      ensures queue == Remaining(rules, old(queue), now, readings) && nextId == old(nextId)
      ensures log == old(log) + SweepSends(rules, old(queue), now, readings)
    {
      hide LastStamp, Treated;
      SweepDoes(State(), 0, now, readings);
      assert old(queue)[..0] == [] && old(queue)[0..] == old(queue);
      var k, i := 0, 0;
      while k < |queue|
        invariant Valid() && k <= |queue| && i <= |readings| && |readings| - i == |queue| - k
        invariant Sweep(State(), k, now, readings[i..]) == Sweep(old(State()), 0, now, readings)
        decreases |readings| - i
      {
        var entry := queue[k];
        assert readings[i..][1..] == readings[i + 1..];
        if now - entry.actionSent >= Timeout() {
          if entry.numTries <= NUM_ACTION_RETRIES {
            var sent := TakeActionFor(entry, readings[i]);
            queue := queue[k := sent];
            k := k + 1;
          } else {
            queue := Without(queue, k);
            if entry.ruleId < |rules| {
              ghost var before := State();
              log := log + [Abort(entry.id, entry.ruleId, rules[entry.ruleId].eventModule, entry.vars,
                                  readings[i].stamp)];
              MessageStamped(before, log[|log| - 1]);
            }
          }
        } else {
          k := k + 1;
        }
        i := i + 1;
      }
    }

    /** systemMessage; buffer is the uninitialised message buffer. */
    method SendSystemMessage(message: string, buffer: string, times: seq<Times>)
      requires Valid() && |buffer| == MSG_VAR_SIZE && |times| == |rules|
      modifies this
      ensures Valid()
      ensures State() == SystemMessage(old(State()), 0, Snprintf(buffer, SYSTEM_MESSAGE + "=" + message), times)
    {
      hide Enqueue, Snprintf;
      ghost var all := Snprintf(buffer, SYSTEM_MESSAGE + "=" + message);
      for i := 0 to |rules|
        invariant Valid()
        invariant SystemMessage(State(), i, all, times) == SystemMessage(old(State()), 0, all, times)
      {
        if rules[i].eventModule == SYSTEM_MESSAGE_MODULE && rules[i].eventKey == SYSTEM_MESSAGE {
          var vars := Snprintf(buffer, SYSTEM_MESSAGE + "=" + message);
          EnqueueEvent(i, i, vars, times[i].checkAt, times[i].actionAt);
        }
      }
    }
  }
}
