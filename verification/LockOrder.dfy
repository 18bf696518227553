/** The three mutexes of the core, the data they guard and the threads that take them: the message
    loop, the acknowledgement sweep and the watchdog, in any number. modules_mtx_ guards the modules'
    data, ack_mtx_ the event queue and the event id, queue_mtx_ the message queues. */
module LockOrder {
  import opened RuleEngine

  datatype Mutex = ModulesMtx | AckMtx | QueueMtx

  function Rank(m: Mutex): nat {
    match m
    case ModulesMtx => 0
    case AckMtx => 1
    case QueueMtx => 2
  }

  /** Use is an access to the data that a mutex guards. */
  datatype Op = Lock(m: Mutex) | Unlock(m: Mutex) | Use(m: Mutex)

  // ---------- what each piece of code locks, uses and unlocks ----------

  /** Messenger::sendMessage; nothing is locked for the system message pseudo-module. */
  function SendMessage(toSystem: bool): seq<Op> {
    if toSystem then [] else [Lock(QueueMtx), Use(QueueMtx), Unlock(QueueMtx)]
  }

  function RemoveQueue(): seq<Op> {
    [Lock(QueueMtx), Use(QueueMtx), Unlock(QueueMtx)]
  }

  /** RuleEngine::enqueueEvent: an abort outside the lock, or an action inside it. */
  function EnqueueEvent(v: Verdict, toSystem: bool): seq<Op> {
    match v
    case Unknown => []
    case Reject => SendMessage(toSystem)
    case Accept => [Lock(AckMtx), Use(AckMtx)] + SendMessage(toSystem) + [Unlock(AckMtx)]
  }

  function AcceptAck(queued: bool, toSystem: bool): seq<Op> {
    [Lock(AckMtx), Use(AckMtx), Unlock(AckMtx)] + if queued then SendMessage(toSystem) else []
  }

  /** The entries of one sweep of the acknowledgement thread, each with a send or none: true for the
      system pseudo-module. */
  function Sends(toSystem: seq<bool>): seq<Op> {
    if toSystem == [] then [] else [Use(AckMtx)] + SendMessage(toSystem[0]) + Sends(toSystem[1..])
  }

  function AckSweep(toSystem: seq<bool>): seq<Op> {
    [Lock(AckMtx)] + Sends(toSystem) + [Unlock(AckMtx)]
  }

  /** RuleEngine::systemMessage: one event for each rule about system messages. */
  function SystemMessage(events: seq<(Verdict, bool)>): seq<Op> {
    if events == [] then [] else EnqueueEvent(events[0].0, events[0].1) + SystemMessage(events[1..])
  }

  /** Watchdog::buryModule: the queue goes, the module is marked and a system message is enqueued. */
  function BuryModule(events: seq<(Verdict, bool)>): seq<Op> {
    RemoveQueue() + [Use(ModulesMtx)] + SystemMessage(events)
  }

  function Burials(buried: seq<seq<(Verdict, bool)>>): seq<Op> {
    if buried == [] then [Use(ModulesMtx)] else [Use(ModulesMtx)] + BuryModule(buried[0]) + Burials(buried[1..])
  }

  datatype Task =
    | HeartbeatTask
    | IntervalTask
    | EventTask(v: Verdict, toSystem: bool)
    | AckTask(queued: bool, toSystem: bool)
    | SystemTask(events: seq<(Verdict, bool)>)
    | AckSweepTask(sends: seq<bool>)
    | WatchdogTask(buried: seq<seq<(Verdict, bool)>>)

  /** One message of the loop, one sweep of the acknowledgement thread, or one of the watchdog. */
  function Ops(task: Task): seq<Op> {
    match task
    case HeartbeatTask => [Lock(ModulesMtx), Use(ModulesMtx), Unlock(ModulesMtx)]
    case IntervalTask => [Lock(ModulesMtx), Use(ModulesMtx), Unlock(ModulesMtx)]
    case EventTask(v, toSystem) => EnqueueEvent(v, toSystem)
    case AckTask(queued, toSystem) => AcceptAck(queued, toSystem)
    case SystemTask(events) => SystemMessage(events)
    case AckSweepTask(sends) => AckSweep(sends)
    case WatchdogTask(buried) => [Lock(ModulesMtx)] + Burials(buried) + [Unlock(ModulesMtx)]
  }

  /** What a task uses, in order. */
  function Uses(ops: seq<Op>): seq<Mutex> {
    if ops == [] then [] else (if ops[0].Use? then [ops[0].m] else []) + Uses(ops[1..])
  }

  /** A heartbeat uses the modules' data, an acknowledgement the event queue, an accepted event too,
      and every message to a module its queue. */
  lemma TaskUses(v: Verdict, queued: bool, toSystem: bool)
    ensures Uses(Ops(HeartbeatTask)) == Uses(Ops(IntervalTask)) == [ModulesMtx]
    ensures Uses(Ops(EventTask(v, toSystem))) ==
              (if v == Accept then [AckMtx] else []) + (if v == Unknown || toSystem then [] else [QueueMtx])
    ensures Uses(Ops(AckTask(queued, toSystem))) == [AckMtx] + if queued && !toSystem then [QueueMtx] else []
  {
    hide Uses;
    UsesNone();
    UsesSection(ModulesMtx, []);
    UsesSection(QueueMtx, []);
    assert [Lock(QueueMtx), Use(QueueMtx), Unlock(QueueMtx)] + [] == [Lock(QueueMtx), Use(QueueMtx), Unlock(QueueMtx)];
    assert [Lock(ModulesMtx), Use(ModulesMtx), Unlock(ModulesMtx)] + []
        == [Lock(ModulesMtx), Use(ModulesMtx), Unlock(ModulesMtx)];
    var send := SendMessage(toSystem);
    UsesSection(AckMtx, if queued then send else []);
    UsesCons(Unlock(AckMtx), []);
    UsesConcat(send, [Unlock(AckMtx)] + []);
    UsesCons(Use(AckMtx), send + ([Unlock(AckMtx)] + []));
    UsesCons(Lock(AckMtx), [Use(AckMtx)] + (send + ([Unlock(AckMtx)] + [])));
    assert [Lock(AckMtx), Use(AckMtx)] + send + [Unlock(AckMtx)]
        == [Lock(AckMtx)] + ([Use(AckMtx)] + (send + ([Unlock(AckMtx)] + [])));
  }

  lemma UsesNone()
    ensures Uses([]) == []
  {}

  lemma UsesCons(op: Op, rest: seq<Op>)
    ensures Uses([op] + rest) == (if op.Use? then [op.m] else []) + Uses(rest)
  {
    assert ([op] + rest)[1..] == rest;
  }

  lemma UsesSection(m: Mutex, rest: seq<Op>)
    ensures Uses([Lock(m), Use(m), Unlock(m)] + rest) == [m] + Uses(rest)
  {
    hide Uses;
    UsesCons(Unlock(m), rest);
    UsesCons(Use(m), [Unlock(m)] + rest);
    UsesCons(Lock(m), [Use(m)] + ([Unlock(m)] + rest));
    assert [Lock(m), Use(m), Unlock(m)] + rest == [Lock(m)] + ([Use(m)] + ([Unlock(m)] + rest));
  }

  lemma {:induction false} UsesConcat(a: seq<Op>, b: seq<Op>)
    ensures Uses(a + b) == Uses(a) + Uses(b)
  {
    hide Uses;
    UsesNone();
    if a == [] {
      assert a + b == b;
    } else {
      UsesConcat(a[1..], b);
      UsesCons(a[0], a[1..]);
      UsesCons(a[0], a[1..] + b);
      assert a == [a[0]] + a[1..] && a + b == [a[0]] + (a[1..] + b);
    }
  }

  // ---------- the order ----------

  predicate Below(held: set<Mutex>, rank: nat) {
    forall m :: m in held ==> Rank(m) < rank
  }

  /** Every lock is taken above all held ones, only held ones are released, none is kept, and what a
      mutex guards is used only while it is held. */
  predicate WellOrdered(ops: seq<Op>, held: set<Mutex>)
    decreases |ops|
  {
    if ops == [] then held == {}
    else
      match ops[0]
      case Lock(m) => Below(held, Rank(m)) && WellOrdered(ops[1..], held + {m})
      case Unlock(m) => m in held && WellOrdered(ops[1..], held - {m})
      case Use(m) => m in held && WellOrdered(ops[1..], held)
  }

  lemma Bracket(m: Mutex, rest: seq<Op>, held: set<Mutex>)
    requires Below(held, Rank(m)) && WellOrdered(rest, held)
    ensures WellOrdered([Lock(m), Use(m), Unlock(m)] + rest, held)
  {
    var ops := [Lock(m), Use(m), Unlock(m)] + rest;
    assert ops[1..] == [Use(m), Unlock(m)] + rest && ops[1..][1..] == [Unlock(m)] + rest;
    assert ops[1..][1..][1..] == rest;
    assert held + {m} - {m} == held;
  }

  lemma SendOrdered(toSystem: bool, rest: seq<Op>, held: set<Mutex>)
    requires Below(held, 2) && WellOrdered(rest, held)
    ensures WellOrdered(SendMessage(toSystem) + rest, held)
  {
    if toSystem {
      assert [] + rest == rest;
    } else {
      Bracket(QueueMtx, rest, held);
    }
  }

  lemma {:induction false} SendsOrdered(toSystem: seq<bool>, rest: seq<Op>, held: set<Mutex>)
    requires Below(held, 2) && AckMtx in held && WellOrdered(rest, held)
    ensures WellOrdered(Sends(toSystem) + rest, held)
  {
    hide WellOrdered, SendMessage;
    if toSystem == [] {
      assert [] + rest == rest;
    } else {
      SendsOrdered(toSystem[1..], rest, held);
      var after := Sends(toSystem[1..]) + rest;
      SendOrdered(toSystem[0], after, held);
      Used(AckMtx, SendMessage(toSystem[0]) + after, held);
      Grouped([Use(AckMtx)], SendMessage(toSystem[0]), Sends(toSystem[1..]), rest);
    }
  }

  lemma Grouped(a: seq<Op>, b: seq<Op>, c: seq<Op>, d: seq<Op>)
    ensures a + b + c + d == a + (b + (c + d))
  {}

  lemma Used(m: Mutex, rest: seq<Op>, held: set<Mutex>)
    requires m in held && WellOrdered(rest, held)
    ensures WellOrdered([Use(m)] + rest, held)
  {
    assert ([Use(m)] + rest)[1..] == rest;
  }

  /** A section under a lock whose inside is well ordered with that lock held. */
  lemma Section(m: Mutex, inside: seq<Op>, rest: seq<Op>, held: set<Mutex>)
    requires Below(held, Rank(m)) && m !in held && WellOrdered(inside + ([Unlock(m)] + rest), held + {m})
    ensures WellOrdered([Lock(m)] + inside + [Unlock(m)] + rest, held)
  {
    var ops := [Lock(m)] + inside + [Unlock(m)] + rest;
    assert ops[1..] == inside + ([Unlock(m)] + rest);
  }

  lemma Release(m: Mutex, rest: seq<Op>, held: set<Mutex>)
    requires m !in held && WellOrdered(rest, held)
    ensures WellOrdered([Unlock(m)] + rest, held + {m})
  {
    assert ([Unlock(m)] + rest)[1..] == rest && held + {m} - {m} == held;
  }

  lemma EnqueueOrdered(v: Verdict, toSystem: bool, rest: seq<Op>, held: set<Mutex>)
    requires Below(held, 1) && WellOrdered(rest, held)
    ensures WellOrdered(EnqueueEvent(v, toSystem) + rest, held)
  {
    match v {
      case Unknown => assert [] + rest == rest;
      case Reject => SendOrdered(toSystem, rest, held);
      case Accept =>
        Release(AckMtx, rest, held);
        SendOrdered(toSystem, [Unlock(AckMtx)] + rest, held + {AckMtx});
        Used(AckMtx, SendMessage(toSystem) + ([Unlock(AckMtx)] + rest), held + {AckMtx});
        var inside := [Use(AckMtx)] + SendMessage(toSystem);
        assert inside + ([Unlock(AckMtx)] + rest)
            == [Use(AckMtx)] + (SendMessage(toSystem) + ([Unlock(AckMtx)] + rest));
        Section(AckMtx, inside, rest, held);
        assert EnqueueEvent(v, toSystem) == [Lock(AckMtx)] + inside + [Unlock(AckMtx)];
    }
  }

  lemma {:induction false} SystemOrdered(events: seq<(Verdict, bool)>, rest: seq<Op>, held: set<Mutex>)
    requires Below(held, 1) && WellOrdered(rest, held)
    ensures WellOrdered(SystemMessage(events) + rest, held)
  {
    hide EnqueueEvent, WellOrdered, Below;
    if events == [] {
      assert [] + rest == rest;
    } else {
      SystemOrdered(events[1..], rest, held);
      EnqueueOrdered(events[0].0, events[0].1, SystemMessage(events[1..]) + rest, held);
      assert SystemMessage(events) + rest
          == EnqueueEvent(events[0].0, events[0].1) + (SystemMessage(events[1..]) + rest);
    }
  }

  lemma {:induction false} BurialsOrdered(buried: seq<seq<(Verdict, bool)>>, rest: seq<Op>, held: set<Mutex>)
    requires Below(held, 1) && ModulesMtx in held && WellOrdered(rest, held)
    ensures WellOrdered(Burials(buried) + rest, held)
  {
    hide WellOrdered, Burials;
    if buried == [] {
      Used(ModulesMtx, rest, held);
      NoBurials();
    } else {
      BurialsOrdered(buried[1..], rest, held);
      var after := Burials(buried[1..]) + rest;
      SystemOrdered(buried[0], after, held);
      var message := SystemMessage(buried[0]) + after;
      Used(ModulesMtx, message, held);
      var marked := [Use(ModulesMtx)] + message;
      Bracket(QueueMtx, marked, held);
      Used(ModulesMtx, RemoveQueue() + marked, held);
      BurialsUnfold(buried, rest);
    }
  }

  lemma NoBurials()
    ensures Burials([]) == [Use(ModulesMtx)]
  {}

  lemma BurialsUnfold(buried: seq<seq<(Verdict, bool)>>, rest: seq<Op>)
    requires buried != []
    ensures Burials(buried) + rest
         == [Use(ModulesMtx)] + (RemoveQueue() + ([Use(ModulesMtx)] +
              (SystemMessage(buried[0]) + (Burials(buried[1..]) + rest))))
  {
    hide SystemMessage, RemoveQueue;
    Regroup([Use(ModulesMtx)], RemoveQueue(), [Use(ModulesMtx)], SystemMessage(buried[0]), Burials(buried[1..]), rest);
  }

  lemma Regroup(a: seq<Op>, b: seq<Op>, c: seq<Op>, d: seq<Op>, e: seq<Op>, f: seq<Op>)
    ensures a + (b + c + d) + e + f == a + (b + (c + (d + (e + f))))
  {}

  /** Every task of every thread respects modules_mtx_ before ack_mtx_ before queue_mtx_, the burial
      of a module inside a watchdog sweep included. */
  lemma TaskOrdered(task: Task)
    ensures WellOrdered(Ops(task), {})
  {
    var end: seq<Op> := [];
    assert WellOrdered(end, {});
    assert Ops(task) + end == Ops(task);
    match task {
      case HeartbeatTask => Bracket(ModulesMtx, end, {});
      case IntervalTask => Bracket(ModulesMtx, end, {});
      case EventTask(v, toSystem) => EnqueueOrdered(v, toSystem, end, {});
      case AckTask(queued, toSystem) =>
        var send := if queued then SendMessage(toSystem) else [];
        if queued { SendOrdered(toSystem, end, {}); }
        assert send + end == send;
        Bracket(AckMtx, send, {});
      case SystemTask(events) => SystemOrdered(events, end, {});
      case AckSweepTask(sends) =>
        Release(AckMtx, end, {});
        SendsOrdered(sends, [Unlock(AckMtx)] + end, {} + {AckMtx});
        Section(AckMtx, Sends(sends), end, {});
      case WatchdogTask(buried) =>
        Release(ModulesMtx, end, {});
        BurialsOrdered(buried, [Unlock(ModulesMtx)] + end, {} + {ModulesMtx});
        Section(ModulesMtx, Burials(buried), end, {});
    }
  }

  // ---------- threads ----------

  /** What a thread has still to do in its task, and the mutexes it holds. */
  datatype Thread = Thread(rest: seq<Op>, held: set<Mutex>)

  datatype Move = Start(i: nat, task: Task) | Advance(i: nat)

  predicate Free(threads: seq<Thread>, m: Mutex) {
    forall i :: 0 <= i < |threads| ==> m !in threads[i].held
  }

  /** The thread has an operation that does not block. */
  predicate CanAdvance(threads: seq<Thread>, i: nat) {
    && i < |threads| && threads[i].rest != []
    && (threads[i].rest[0].Lock? ==> Free(threads, threads[i].rest[0].m))
  }

  predicate Enabled(threads: seq<Thread>, move: Move) {
    match move
    case Start(i, _) => i < |threads| && threads[i].rest == []
    case Advance(i) => CanAdvance(threads, i)
  }

  function Next(threads: seq<Thread>, move: Move): seq<Thread>
    requires Enabled(threads, move)
  {
    match move
    case Start(i, task) => threads[i := threads[i].(rest := Ops(task))]
    case Advance(i) =>
      var t := threads[i];
      var m := t.rest[0].m;
      var held := if t.rest[0].Lock? then t.held + {m} else if t.rest[0].Unlock? then t.held - {m} else t.held;
      threads[i := Thread(t.rest[1..], held)]
  }

  function Idle(n: nat): seq<Thread> {
    seq(n, _ => Thread([], {}))
  }

  ghost predicate Run(threads: seq<Thread>, moves: seq<Move>)
    decreases |moves|
  {
    moves == [] || (Enabled(threads, moves[0]) && Run(Next(threads, moves[0]), moves[1..]))
  }

  ghost function After(threads: seq<Thread>, moves: seq<Move>): seq<Thread>
    requires Run(threads, moves)
    decreases |moves|
  {
    if moves == [] then threads else After(Next(threads, moves[0]), moves[1..])
  }

  /** Threads are well ordered, and no mutex is held twice. */
  predicate ThreadsInv(threads: seq<Thread>) {
    && (forall i :: 0 <= i < |threads| ==> WellOrdered(threads[i].rest, threads[i].held))
    && (forall i, j :: 0 <= i < j < |threads| ==> threads[i].held !! threads[j].held)
  }

  lemma NextThreads(threads: seq<Thread>, move: Move)
    requires ThreadsInv(threads) && Enabled(threads, move)
    ensures ThreadsInv(Next(threads, move))
  {
    match move {
      case Start(i, task) =>
        hide Ops;
        TaskOrdered(task);
        assert WellOrdered(threads[i].rest, threads[i].held);
      case Advance(i) =>
        hide Ops;
        assert WellOrdered(threads[i].rest, threads[i].held);
    }
  }

  lemma {:induction false} RunThreads(threads: seq<Thread>, moves: seq<Move>)
    requires ThreadsInv(threads) && Run(threads, moves)
    ensures ThreadsInv(After(threads, moves))
    decreases |moves|
  {
    hide Enabled, Next, ThreadsInv;
    if moves != [] {
      NextThreads(threads, moves[0]);
      RunThreads(Next(threads, moves[0]), moves[1..]);
    }
  }

  lemma IdleThreads(n: nat)
    ensures ThreadsInv(Idle(n))
  {}

  /** No thread ever waits for a mutex it holds itself. */
  lemma NoSelfRelock(n: nat, moves: seq<Move>, i: nat)
    requires Run(Idle(n), moves)
    ensures var threads := After(Idle(n), moves);
            i < |threads| && threads[i].rest != [] && threads[i].rest[0].Lock? ==>
            threads[i].rest[0].m !in threads[i].held
  {
    RunThreads(Idle(n), moves);
  }

  /** No two threads are ever about to use what the same mutex guards. */
  lemma NoRace(n: nat, moves: seq<Move>, i: nat, j: nat)
    requires Run(Idle(n), moves)
    requires i < j < |After(Idle(n), moves)|
    ensures var a, b := After(Idle(n), moves)[i].rest, After(Idle(n), moves)[j].rest;
            a != [] && b != [] && a[0].Use? && b[0].Use? ==> a[0].m != b[0].m
  {
    hide Run, After;
    IdleThreads(n);
    RunThreads(Idle(n), moves);
    var threads := After(Idle(n), moves);
    assert WellOrdered(threads[i].rest, threads[i].held) && WellOrdered(threads[j].rest, threads[j].held);
  }

  /** The holder of the highest held mutex can go on. */
  lemma HolderAdvances(threads: seq<Thread>, i: nat, m: Mutex)
    requires ThreadsInv(threads) && i < |threads| && m in threads[i].held
    requires forall h :: Rank(h) > Rank(m) ==> Free(threads, h)
    ensures CanAdvance(threads, i)
  {
    assert WellOrdered(threads[i].rest, threads[i].held);
  }

  /** In every reachable state, if some thread is inside a task then some thread inside a task can do
      its next operation: there is no deadlock. */
  lemma NoDeadlock(n: nat, moves: seq<Move>, i: nat)
    requires Run(Idle(n), moves)
    requires i < |After(Idle(n), moves)| && After(Idle(n), moves)[i].rest != []
    ensures exists j :: 0 <= j < |After(Idle(n), moves)| && CanAdvance(After(Idle(n), moves), j)
  {
    hide WellOrdered, Run, After, ThreadsInv, Ops;
    IdleThreads(n);
    RunThreads(Idle(n), moves);
    var threads := After(Idle(n), moves);
    if !Free(threads, QueueMtx) {
      var j :| 0 <= j < |threads| && QueueMtx in threads[j].held;
      HolderAdvances(threads, j, QueueMtx);
    } else if !Free(threads, AckMtx) {
      var j :| 0 <= j < |threads| && AckMtx in threads[j].held;
      HolderAdvances(threads, j, AckMtx);
    } else if !Free(threads, ModulesMtx) {
      var j :| 0 <= j < |threads| && ModulesMtx in threads[j].held;
      HolderAdvances(threads, j, ModulesMtx);
    } else {
      forall h ensures Free(threads, h) {
        match h { case QueueMtx => case AckMtx => case ModulesMtx => }
      }
      assert CanAdvance(threads, i);
    }
  }
}
