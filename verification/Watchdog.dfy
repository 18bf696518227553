/** The watchdog: the life cycle of each module process. What the operating system answers and what
    the clock shows are parameters. Time is in nanoseconds. */
module Watchdog {
  const MILLISECOND := 1_000_000
  const MORTALITY_STEP := 10
  const MORTALITY_DECREASE := 1
  const CRITICAL_MORTALITY_RATE := 100
  const MAX_MISSED_HEARTBEATS := 5
  const CHECK_INTERVAL := 10_000
  const STABILITY_CHECK_INTERVAL := 60_000
  const DEFAULT_HEARTBEAT_INTERVAL := 10_000

  datatype Data = Data(running: bool, buried: bool, interval: nat, lastHeartbeat: int, missed: nat,
                       lastCheck: int, mortality: nat)

  /** One sweep's view of one module: whether its process lives, whether a kill and a fork work, the
      same at burial, and the clock readings in the order in which they may be taken. */
  datatype World = World(alive: bool, killed: bool, forked: bool, aliveAtBurial: bool, killedAtBurial: bool,
                         now: int, spawnedAt: int, checkedAt: int, stableAt: int, stampedAt: int)

  function Fresh(now: int): Data {
    Data(false, false, DEFAULT_HEARTBEAT_INTERVAL, now, 0, 0, 0)
  }

  function Kill(d: Data, killed: bool): Data {
    if killed then d.(running := false) else d
  }

  function Spawn(d: Data, forked: bool, spawnedAt: int, checkedAt: int): (r: Data)
    ensures r.buried == d.buried
  {
    if d.running || d.buried || !forked then d
    else d.(running := true, lastHeartbeat := spawnedAt, missed := 0, lastCheck := checkedAt)
  }

  function Bury(d: Data, w: World): Data {
    (if w.aliveAtBurial then Kill(d, w.killedAtBurial) else d).(buried := true)
  }

  function Resurrect(d: Data, w: World): Data {
    var d1 := Kill(d, w.killed);
    if d1.mortality < CRITICAL_MORTALITY_RATE then
      Spawn(d1, w.forked, w.spawnedAt, w.checkedAt).(mortality := d1.mortality + MORTALITY_STEP)
    else Bury(d1, w)
  }

  /** The heartbeat was due. */
  predicate Silent(d: Data, w: World) {
    w.now - d.lastHeartbeat > d.interval * MILLISECOND
  }

  function MissBeat(d: Data, w: World): Data {
    if !Silent(d, w) then d
    else
      var d1 := d.(missed := d.missed + 1);
      if d1.missed >= MAX_MISSED_HEARTBEATS then Resurrect(d1, w) else d1
  }

  predicate StableAgain(d: Data, w: World) {
    w.stableAt - d.lastCheck >= STABILITY_CHECK_INTERVAL * MILLISECOND
  }

  function Recover(d: Data, w: World): Data {
    if !StableAgain(d, w) then d
    else
      d.(mortality := if d.mortality >= MORTALITY_DECREASE then d.mortality - MORTALITY_DECREASE else 0,
         lastCheck := w.stampedAt)
  }

  /** The body of the sweep loop for one module. */
  function CheckModule(d: Data, w: World): (r: Data)
    ensures d.buried ==> r == d
  {
    if d.buried || !d.running then d
    else if w.alive then Recover(MissBeat(d, w), w)
    else Resurrect(d, w)
  }

  function Beat(d: Data, now: int): Data {
    d.(lastHeartbeat := now, missed := 0)
  }

  class Guard {
    const names: seq<string>
    var modules: map<string, Data>
    var queues: set<string>

    ghost predicate Valid()
      reads this
    {
      && (forall i, j :: 0 <= i < j < |names| ==> names[i] != names[j])
      && modules.Keys == (set n | n in names)
      && forall n :: n in modules && modules[n].buried ==> n !in queues
    }

    constructor (names: seq<string>, now: int)
      requires forall i, j :: 0 <= i < j < |names| ==> names[i] != names[j]
      ensures Valid() && this.names == names
      ensures modules == map n | n in names :: Fresh(now)
      ensures queues == set n | n in names
    {
      this.names := names;
      modules := map n | n in names :: Fresh(now);
      queues := set n | n in names;
    }

    /** start(): spawn every module; failed forks are logged only. */
    method Start(forked: map<string, bool>, now: map<string, int>)
      requires Valid() && forked.Keys == now.Keys == modules.Keys
      modifies this`modules
      ensures Valid()
      ensures modules == map n | n in old(modules) :: Spawn(old(modules[n]), forked[n], now[n], now[n])
    {
      hide Spawn;
      ghost var before := modules;
      for i := 0 to |names|
        invariant modules.Keys == before.Keys
        invariant forall j :: 0 <= j < i ==>
                    modules[names[j]] == Spawn(before[names[j]], forked[names[j]], now[names[j]], now[names[j]])
        invariant forall j :: i <= j < |names| ==> modules[names[j]] == before[names[j]]
      {
        var n := names[i];
        modules := modules[n := Spawn(modules[n], forked[n], now[n], now[n])];
      }
    }

    /** One turn of the watchdog thread, under modules_mtx_. */
    method Sweep(world: map<string, World>)
      requires Valid() && world.Keys == modules.Keys
      modifies this
      ensures Valid()
      ensures modules == map n | n in old(modules) :: CheckModule(old(modules[n]), world[n])
      ensures queues == old(queues) - set n | n in old(modules) && !old(modules[n]).buried && modules[n].buried
    {
      hide CheckModule;
      ghost var before, held := modules, queues;
      for i := 0 to |names|
        invariant modules.Keys == before.Keys
        invariant forall j :: 0 <= j < i ==> modules[names[j]] == CheckModule(before[names[j]], world[names[j]])
        invariant forall j :: i <= j < |names| ==> modules[names[j]] == before[names[j]]
        invariant queues == held - set n | n in before && !before[n].buried && modules[n].buried
      {
        var n := names[i];
        if !modules[n].buried {
          var d := CheckRunning(n, modules[n], world[n]);
          modules := modules[n := d];
        }
      }
    }

    method CheckRunning(n: string, data: Data, w: World) returns (d: Data)
      requires !data.buried
      modifies this`queues
      ensures d == CheckModule(data, w)
      ensures queues == if d.buried then old(queues) - {n} else old(queues)
    {
      d := data;
      if d.running && w.alive {
        if w.now - d.lastHeartbeat > d.interval * MILLISECOND {
          d := d.(missed := d.missed + 1);
          if d.missed >= MAX_MISSED_HEARTBEATS {
            d := ResurrectModule(n, d, w);
          }
        }
        if w.stableAt - d.lastCheck >= STABILITY_CHECK_INTERVAL * MILLISECOND {
          if d.mortality >= MORTALITY_DECREASE {
            d := d.(mortality := d.mortality - MORTALITY_DECREASE);
          } else {
            d := d.(mortality := 0);
          }
          d := d.(lastCheck := w.stampedAt);
        }
      } else if d.running {
        d := ResurrectModule(n, d, w);
      }
    }

    method ResurrectModule(n: string, d: Data, w: World) returns (r: Data)
      requires !d.buried
      modifies this`queues
      ensures r == Resurrect(d, w)
      ensures queues == if r.buried then old(queues) - {n} else old(queues)
    {
      r := Kill(d, w.killed);
      if r.mortality < CRITICAL_MORTALITY_RATE {
        r := Spawn(r, w.forked, w.spawnedAt, w.checkedAt);
        r := r.(mortality := r.mortality + MORTALITY_STEP);
      } else {
        if w.aliveAtBurial {
          r := Kill(r, w.killedAtBurial);
        }
        queues := queues - {n};
        r := r.(buried := true);
      }
    }

    method Heartbeat(n: string, now: int)
      requires Valid()
      modifies this`modules
      ensures Valid()
      ensures modules == if n in old(modules) then old(modules)[n := Beat(old(modules)[n], now)] else old(modules)
    {
      if n in modules {
        var d := modules[n].(lastHeartbeat := now);
        if d.missed > 0 {
          d := d.(missed := 0);
        }
        modules := modules[n := d];
      }
    }

    method SetHeartbeatInterval(n: string, interval: nat)
      requires Valid()
      modifies this`modules
      ensures Valid()
      ensures modules == if n in old(modules) then old(modules)[n := old(modules)[n].(interval := interval)]
                         else old(modules)
    {
      if n in modules {
        modules := modules[n := modules[n].(interval := interval)];
      }
    }
  }
}
