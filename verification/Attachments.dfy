/** The attachment counts of the video module composed with the rule engine: a file is deleted only
    when no event carrying its name is outstanding any more. */
module Attachments {
  import opened Text
  import opened RuleEngine
  import opened AckProtocol
  import opened MessageVars
  import V = VideoOutput

  // ---------- the counts alone ----------

  function Occurrences(names: seq<string>, name: string): nat {
    if names == [] then 0 else (if names[0] == name then 1 else 0) + Occurrences(names[1..], name)
  }

  lemma {:induction false} OccurrencesConcat(a: seq<string>, b: seq<string>, name: string)
    ensures Occurrences(a + b, name) == Occurrences(a, name) + Occurrences(b, name)
  {
    if a == [] {
      assert a + b == b;
    } else {
      assert (a + b)[1..] == a[1..] + b;
      OccurrencesConcat(a[1..], b, name);
    }
  }

  lemma ReleaseOneCounts(f: V.Files, released: string, name: string)
    ensures var g := V.ReleaseOne(f, released);
            var hit := if released == name then 1 else 0;
            && V.Pending(g.pending, name) == V.Pending(f.pending, name) - hit
            && Occurrences(g.deleted, name) == Occurrences(f.deleted, name)
               + (if hit == 1 && V.Pending(f.pending, name) == 1 then 1 else 0)
  {
    OccurrencesConcat(f.deleted, [released], name);
    assert [released][1..] == [];
  }

  /** Whatever other names come in between: each reply takes one off the name's count, below zero
      too, and the file is deleted once, by the reply that takes a positive count to zero. */
  lemma {:induction false} ReleaseCounts(f: V.Files, names: seq<string>, name: string)
    ensures var g := V.ReleaseAll(f, names);
            var c, n := V.Pending(f.pending, name), Occurrences(names, name);
            && V.Pending(g.pending, name) == c - n
            && Occurrences(g.deleted, name) == Occurrences(f.deleted, name) + (if 1 <= c <= n then 1 else 0)
    decreases |names|
  {
    hide V.ReleaseOne, V.Pending;
    if names != [] {
      ReleaseOneCounts(f, names[0], name);
      ReleaseCounts(V.ReleaseOne(f, names[0]), names[1..], name);
    }
  }

  /** What happens to the counts of one handler: attachments are counted, replies come in. */
  datatype Op = Attach(name: string, rules: nat) | Answer(names: seq<string>)

  function Apply(f: V.Files, op: Op): V.Files {
    match op
    case Attach(name, n) => f.(pending := V.AddPending(f.pending, name, n))
    case Answer(names) => V.ReleaseAll(f, names)
  }

  function ApplyAll(f: V.Files, ops: seq<Op>): V.Files
    decreases |ops|
  {
    if ops == [] then f else ApplyAll(Apply(f, ops[0]), ops[1..])
  }

  function Answers(ops: seq<Op>, name: string): nat {
    if ops == [] then 0
    else (if ops[0].Answer? then Occurrences(ops[0].names, name) else 0) + Answers(ops[1..], name)
  }

  predicate NoAttach(ops: seq<Op>, name: string) {
    forall i :: 0 <= i < |ops| && ops[i].Attach? ==> ops[i].name != name
  }

  lemma {:induction false} OpsCount(f: V.Files, ops: seq<Op>, name: string)
    requires NoAttach(ops, name)
    ensures var g := ApplyAll(f, ops);
            var c, n := V.Pending(f.pending, name), Answers(ops, name);
            && V.Pending(g.pending, name) == c - n
            && Occurrences(g.deleted, name) == Occurrences(f.deleted, name) + (if 1 <= c <= n then 1 else 0)
    decreases |ops|
  {
    hide V.ReleaseAll;
    if ops != [] {
      if ops[0].Answer? { ReleaseCounts(f, ops[0].names, name); }
      OpsCount(Apply(f, ops[0]), ops[1..], name);
    }
  }

  /** A name counted once, for k rules, before any reply carries it: its file is deleted exactly when
      k replies have carried it, whatever other names are counted and answered. */
  lemma DeletedAtLastReply(name: string, k: nat, earlier: seq<Op>, ops: seq<Op>)
    requires NoAttach(earlier, name) && Answers(earlier, name) == 0
    requires NoAttach(ops, name)
    ensures var f := ApplyAll(Apply(ApplyAll(V.Files(map[], []), earlier), Attach(name, k)), ops);
            Occurrences(f.deleted, name) == if 1 <= k <= Answers(ops, name) then 1 else 0
  {
    OpsCount(V.Files(map[], []), earlier, name);
    OpsCount(Apply(ApplyAll(V.Files(map[], []), earlier), Attach(name, k)), ops, name);
  }

  /** A name this handler never counts only ever goes negative, and is never deleted. */
  lemma ForeignNeverDeleted(name: string, ops: seq<Op>)
    requires NoAttach(ops, name)
    ensures var f := ApplyAll(V.Files(map[], []), ops);
            V.Pending(f.pending, name) + Answers(ops, name) == 0 && Occurrences(f.deleted, name) == 0
  {
    OpsCount(V.Files(map[], []), ops, name);
  }

  // ---------- events and replies that carry a name ----------

  /** How often a message with these variables takes one off the name's count. */
  function Weight(vars: string, name: string): nat {
    Occurrences(V.Carried(ParseText(CString(vars))), name)
  }

  function Total(vs: seq<string>, name: string): nat {
    if vs == [] then 0 else Total(vs[..|vs| - 1], name) + Weight(vs[|vs| - 1], name)
  }

  lemma TotalAppend(vs: seq<string>, v: string, name: string)
    ensures Total(vs + [v], name) == Total(vs, name) + Weight(v, name)
  {
    assert (vs + [v])[..|vs|] == vs;
  }

  lemma {:induction false} TotalConcat(a: seq<string>, b: seq<string>, name: string)
    ensures Total(a + b, name) == Total(a, name) + Total(b, name)
    decreases |b|
  {
    hide Weight;
    if b == [] {
      assert a + b == a;
    } else {
      assert a + b == (a + b[..|b| - 1]) + [b[|b| - 1]];
      TotalAppend(a + b[..|b| - 1], b[|b| - 1], name);
      TotalConcat(a, b[..|b| - 1], name);
    }
  }

  lemma TotalWithout(vs: seq<string>, k: nat, name: string)
    requires k < |vs|
    ensures Total(vs, name) == Total(Without(vs, k), name) + Weight(vs[k], name)
  {
    hide Weight;
    assert vs == (vs[..k] + [vs[k]]) + vs[k + 1..];
    TotalConcat(vs[..k] + [vs[k]], vs[k + 1..], name);
    TotalAppend(vs[..k], vs[k], name);
    TotalConcat(vs[..k], vs[k + 1..], name);
  }

  function EntryVars(q: seq<Entry>): seq<string> {
    seq(|q|, i requires 0 <= i < |q| => q[i].vars)
  }

  function AdmittedVars(q: seq<Admission>): seq<string> {
    seq(|q|, i requires 0 <= i < |q| => q[i].vars)
  }

  /** The variables of the replies sent to event modules. */
  function ReplyVars(log: seq<Sent>): seq<string> {
    if log == [] then []
    else ReplyVars(log[..|log| - 1]) + (if log[|log| - 1].Action? then [] else [log[|log| - 1].vars])
  }

  lemma ReplyAppend(log: seq<Sent>, m: Sent, name: string)
    ensures Total(ReplyVars(log + [m]), name)
         == Total(ReplyVars(log), name) + (if m.Action? then 0 else Weight(m.vars, name))
  {
    hide Weight, Total;
    assert (log + [m])[..|log|] == log;
    if m.Action? {
      assert ReplyVars(log) + [] == ReplyVars(log);
    } else {
      TotalAppend(ReplyVars(log), m.vars, name);
    }
  }

  /** Events with the name that are admitted, queued or about to be replied to. */
  function Outstanding(s: Sys, name: string): nat {
    Total(AdmittedVars(s.admitted), name) + Total(EntryVars(s.engine.queue), name) + Total(EntryVars(s.replies), name)
  }

  /** Replies with the name that the core has sent. */
  function Replies(s: Sys, name: string): nat {
    Total(ReplyVars(s.engine.log), name)
  }

  function SubmittedBy(s: Sys, step: Step, name: string): nat {
    if step.CheckEvent? && step.ruleId < |s.engine.rules| then Weight(step.vars, name) else 0
  }

  /** Events with the name handed to the engine under existing rules. */
  ghost function Submitted(s: Sys, steps: seq<Step>, name: string): nat
    requires Run(s, steps)
    decreases |steps|
  {
    if steps == [] then 0 else SubmittedBy(s, steps[0], name) + Submitted(Next(s, steps[0]), steps[1..], name)
  }

  function EngineTotal(e: Engine, name: string): nat {
    Total(EntryVars(e.queue), name) + Total(ReplyVars(e.log), name)
  }

  lemma SweepOneTotal(e: Engine, replies: seq<Entry>, k: nat, now: int, r: Reading, name: string)
    requires EngineInv(e, replies) && k < |e.queue|
    ensures EngineTotal(SweepOne(e, k, now, r), name) == EngineTotal(e, name)
  {
    hide Total, Weight, ReplyVars, Fates, History, Aborts, AllTracked, Increasing;
    var f := SweepOne(e, k, now, r);
    if now - e.queue[k].actionSent >= Timeout() {
      var m := f.log[|e.log|];
      assert f.log == e.log + [m];
      ReplyAppend(e.log, m, name);
      if e.queue[k].numTries <= NUM_ACTION_RETRIES {
        assert EntryVars(f.queue) == EntryVars(e.queue);
      } else {
        assert EntryVars(f.queue) == Without(EntryVars(e.queue), k);
        TotalWithout(EntryVars(e.queue), k, name);
      }
    }
  }

  lemma {:induction false} SweepTotal(e: Engine, replies: seq<Entry>, k: nat, now: int, readings: seq<Reading>,
                                      t: int, name: string)
    requires EngineInv(e, replies) && k <= |e.queue| && |readings| == |e.queue| - k
    requires now <= t && Monotone(t, readings)
    ensures EngineTotal(RuleEngine.Sweep(e, k, now, readings), name) == EngineTotal(e, name)
    decreases |readings|
  {
    hide EngineInv, SweepOne, EngineTotal;
    StampsMatch(e, replies);
    if k < |e.queue| {
      SweepOneInv(e, replies, k, now, readings[0]);
      SweepOneTotal(e, replies, k, now, readings[0], name);
      var f := SweepOne(e, k, now, readings[0]);
      SweepTotal(f, replies, if |f.queue| == |e.queue| then k + 1 else k, now, readings[1..], readings[0].sent, name);
    }
  }

  /** Each step moves events between the stations and loses none. */
  lemma NextTotal(s: Sys, step: Step, name: string)
    requires Inv(s) && Enabled(s, step)
    ensures var r := Next(s, step);
            Outstanding(r, name) + Replies(r, name)
            == Outstanding(s, name) + Replies(s, name) + SubmittedBy(s, step, name)
  {
    hide Total, Weight, ReplyVars, Fates, History, Aborts, AllTracked, Increasing;
    var e, r := s.engine, Next(s, step);
    match step {
      case CheckEvent(given, ruleId, vars, now) =>
        match Check(e, ruleId, now) {
          case Unknown =>
          case Reject => ReplyAppend(e.log, Refused(given, ruleId, e.rules[ruleId].eventModule, vars), name);
          case Accept =>
            assert AdmittedVars(r.admitted) == AdmittedVars(s.admitted) + [vars];
            TotalAppend(AdmittedVars(s.admitted), vars, name);
        }
      case CommitEvent(i, reading) =>
        var x := s.admitted[i];
        assert AdmittedVars(r.admitted) == Without(AdmittedVars(s.admitted), i);
        TotalWithout(AdmittedVars(s.admitted), i, name);
        assert EntryVars(r.engine.queue) == EntryVars(e.queue) + [x.vars];
        TotalAppend(EntryVars(e.queue), x.vars, name);
        assert r.engine.log == e.log + [r.engine.log[|e.log|]];
        ReplyAppend(e.log, r.engine.log[|e.log|], name);
      case TakeAck(id) =>
        var k := Find(e.queue, id);
        if k < |e.queue| {
          assert EntryVars(r.engine.queue) == Without(EntryVars(e.queue), k);
          TotalWithout(EntryVars(e.queue), k, name);
          assert EntryVars(r.replies) == EntryVars(s.replies) + [e.queue[k].vars];
          TotalAppend(EntryVars(s.replies), e.queue[k].vars, name);
        }
      case SendAck(i) =>
        var x := s.replies[i];
        assert EntryVars(r.replies) == Without(EntryVars(s.replies), i);
        TotalWithout(EntryVars(s.replies), i, name);
        ReplyAppend(e.log, Ack(x.id, x.ruleId, e.rules[x.ruleId].eventModule, x.vars), name);
      case ReadClock(_) =>
      case RunSweep(i, readings) =>
        SweepTotal(e, s.replies, 0, s.sweeps[i], readings, s.clock, name);
    }
  }

  /** In every run, every event handed to the engine under an existing rule is outstanding or has been
      answered, once. */
  lemma {:induction false} Conservation(s: Sys, steps: seq<Step>, name: string)
    requires Inv(s) && Run(s, steps)
    ensures var r := After(s, steps);
            Outstanding(r, name) + Replies(r, name)
            == Outstanding(s, name) + Replies(s, name) + Submitted(s, steps, name)
    decreases |steps|
  {
    hide Inv, Enabled, Next, Outstanding, Replies, SubmittedBy;
    if steps != [] {
      NextInv(s, steps[0]);
      NextTotal(s, steps[0], name);
      Conservation(Next(s, steps[0]), steps[1..], name);
    }
  }

  // ---------- events of the handler ----------

  /** Each event a handler hands out for a kind carries the name once, when the name has no comma or
      NUL and fits the buffer. There is one event for each rule it counts. */
  lemma EventsCarry(rules: seq<V.Attached>, kind: string, name: string, e: V.Event, buffer: string)
    requires kind == "video" || kind == "image"
    requires ',' !in name && '\0' !in name && |name| < MSG_VAR_SIZE - 6
    requires e in V.EventsFor(rules, kind, name) && |buffer| == MSG_VAR_SIZE
    ensures |V.EventsFor(rules, kind, name)| == V.Attaching(rules, kind)
    ensures Weight(Snprintf(buffer, e.vars), name) == 1
  {
    hide Weight, Snprintf, V.Contains;
    EventCarries(kind, name, buffer);
  }

  lemma EventCarries(kind: string, name: string, buffer: string)
    requires kind == "video" || kind == "image"
    requires ',' !in name && '\0' !in name && |buffer| == MSG_VAR_SIZE && |name| < MSG_VAR_SIZE - 6
    ensures Weight(Snprintf(buffer, kind + "=" + name), name) == 1
  {
    hide Snprintf, CString, ParseText;
    BufferCarries(buffer, kind + "=" + name);
    FieldParses(kind, name);
    assert CString(Snprintf(buffer, kind + "=" + name)) == kind + "=" + name;
    assert V.Carried(map[kind := name]) == [name];
    assert [name][1..] == [] && Occurrences([name], name) == 1;
  }

  /** The message buffers of the events the handler hands out. */
  function Handed(events: seq<V.Event>, buffers: seq<string>): seq<string>
    requires |buffers| == |events| && forall i :: 0 <= i < |buffers| ==> |buffers[i]| == MSG_VAR_SIZE
  {
    seq(|events|, i requires 0 <= i < |events| => Snprintf(buffers[i], events[i].vars))
  }

  /** The events with the name among those the core receives. */
  function Received(steps: seq<Step>, name: string): seq<string> {
    if steps == [] then []
    else (if steps[0].CheckEvent? && Weight(steps[0].vars, name) > 0 then [steps[0].vars] else [])
         + Received(steps[1..], name)
  }

  lemma {:induction false} SubmittedReceived(s: Sys, steps: seq<Step>, name: string)
    requires Run(s, steps) && forall v :: v in Received(steps, name) ==> Weight(v, name) == 1
    ensures Submitted(s, steps, name) <= |Received(steps, name)|
    decreases |steps|
  {
    hide Weight, Enabled, Next;
    if steps != [] {
      SubmittedReceived(Next(s, steps[0]), steps[1..], name);
      if steps[0].CheckEvent? && Weight(steps[0].vars, name) > 0 {
        assert steps[0].vars in Received(steps, name);
      }
    }
  }

  /** The core receives no more of a handler's events than it handed out. */
  lemma SubmittedBounded(rules: seq<V.Attached>, kind: string, name: string, buffers: seq<string>,
                         s: Sys, steps: seq<Step>)
    requires kind == "video" || kind == "image"
    requires ',' !in name && '\0' !in name && |name| < MSG_VAR_SIZE - 6
    requires |buffers| == V.Attaching(rules, kind) && forall i :: 0 <= i < |buffers| ==> |buffers[i]| == MSG_VAR_SIZE
    requires Run(s, steps)
    requires multiset(Received(steps, name)) <= multiset(Handed(V.EventsFor(rules, kind, name), buffers))
    ensures Submitted(s, steps, name) <= V.Attaching(rules, kind)
  {
    hide Weight, Snprintf, V.EventsFor, Submitted, V.Attaching, Received, Run;
    var events := V.EventsFor(rules, kind, name);
    var handed, received := Handed(events, buffers), Received(steps, name);
    forall v | v in received ensures Weight(v, name) == 1 {
      assert v in multiset(received) && v in handed;
      var i :| 0 <= i < |handed| && handed[i] == v;
      EventsCarry(rules, kind, name, events[i], buffers[i]);
    }
    SubmittedReceived(s, steps, name);
    assert multiset(handed) == multiset(received) + (multiset(handed) - multiset(received));
  }

  // ---------- both together ----------

  /** A handler counts a new name for the rules that attach it and hands out their events; the core
      receives at most those events with the name, and of its replies at most all arrive. When the
      file has been deleted, every one of the events has been received and answered, and none is
      outstanding in the core. */
  lemma DeletedOnlyWhenDone(rules: seq<Rule>, start: nat, steps: seq<Step>, attached: seq<V.Attached>, kind: string,
                            name: string, buffers: seq<string>, earlier: seq<Op>, ops: seq<Op>)
    requires kind == "video" || kind == "image"
    requires ',' !in name && '\0' !in name && |name| < MSG_VAR_SIZE - 6
    requires |buffers| == V.Attaching(attached, kind) && forall i :: 0 <= i < |buffers| ==> |buffers[i]| == MSG_VAR_SIZE
    requires Run(Init(rules, start), steps)
    requires multiset(Received(steps, name)) <= multiset(Handed(V.EventsFor(attached, kind, name), buffers))
    requires NoAttach(earlier, name) && Answers(earlier, name) == 0 && NoAttach(ops, name)
    requires Answers(ops, name) <= Replies(After(Init(rules, start), steps), name)
    requires var attach := Attach(name, V.Attaching(attached, kind));
             Occurrences(ApplyAll(Apply(ApplyAll(V.Files(map[], []), earlier), attach), ops).deleted, name) > 0
    ensures Outstanding(After(Init(rules, start), steps), name) == 0
    ensures Submitted(Init(rules, start), steps, name) == V.Attaching(attached, kind) == Answers(ops, name)
  {
    hide Run, After, ApplyAll, Apply, Outstanding, Replies, Init, Submitted, Received, V.EventsFor, V.Attaching,
         Answers, Occurrences, NoAttach;
    InitInv(rules, start);
    InitTotals(rules, start, name);
    Conservation(Init(rules, start), steps, name);
    SubmittedBounded(attached, kind, name, buffers, Init(rules, start), steps);
    DeletedAtLastReply(name, V.Attaching(attached, kind), earlier, ops);
  }

  lemma InitTotals(rules: seq<Rule>, start: nat, name: string)
    ensures Outstanding(Init(rules, start), name) == 0 && Replies(Init(rules, start), name) == 0
  {}
}
