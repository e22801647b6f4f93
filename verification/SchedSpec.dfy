/**
 * The scheduler and its mutexes as values: what every operation does to the queues and the
 * states of the processes.
 */
module SchedSpec {
  import opened Words

  type Pid = nat

  datatype Status = New | Running | Blocked | Sleeping(wake: nat) | Zombie

  // `owner` is the process that has the mutex; the kernel does not store it.
  datatype Lock = Lock(locked: bool, blocked: seq<Pid>, owner: Option<Pid>)

  // `cleanup` lists the processes handed over to the cleanup routine.
  datatype System = System(running: Option<Pid>, ready: seq<Pid>, status: map<Pid, Status>, cleanup: seq<Pid>, locks: seq<Lock>)

  predicate Dispatchable(st: Status, tick: nat) {
    st.Running? || st.New? || (st.Sleeping? && st.wake < tick)
  }

  predicate Known(status: map<Pid, Status>, ps: seq<Pid>) {
    forall i :: 0 <= i < |ps| ==> ps[i] in status
  }

  // The position of the first process that can be dispatched; the length if there is none.
  function First(status: map<Pid, Status>, ready: seq<Pid>, tick: nat): (i: nat)
    requires Known(status, ready)
    ensures i <= |ready| && forall j :: 0 <= j < i ==> !Dispatchable(status[ready[j]], tick)
    ensures i < |ready| ==> Dispatchable(status[ready[i]], tick)
  {
    if |ready| == 0 || Dispatchable(status[ready[0]], tick) then 0
    else 1 + First(status, ready[1..], tick)
  }

  // Processes passed over: those that go back to the queue, and those that are cleaned up.
  function Kept(status: map<Pid, Status>, ps: seq<Pid>): seq<Pid>
    requires Known(status, ps)
  {
    if |ps| == 0 then [] else
    var n := |ps| - 1;
    Kept(status, ps[..n]) + if status[ps[n]].Zombie? then [] else [ps[n]]
  }

  function Zombies(status: map<Pid, Status>, ps: seq<Pid>): seq<Pid>
    requires Known(status, ps)
  {
    if |ps| == 0 then [] else
    var n := |ps| - 1;
    Zombies(status, ps[..n]) + if status[ps[n]].Zombie? then [ps[n]] else []
  }

  // The running process goes to the end of the queue.
  function Requeued(s: System): System {
    if s.running.Some? then s.(running := None, ready := s.ready + [s.running.value]) else s
  }

  // Some queued process can be dispatched.
  predicate CanDispatch(s: System, tick: nat) {
    Known(s.status, s.ready) && First(s.status, s.ready, tick) < |s.ready|
  }

  // The first process that can be dispatched runs; those before it go behind the others, or
  // are cleaned up.
  function Dispatch(s: System, tick: nat): System
    requires CanDispatch(s, tick)
  {
    var i := First(s.status, s.ready, tick);
    s.(running := Some(s.ready[i]),
       ready := s.ready[i + 1..] + Kept(s.status, s.ready[..i]),
       status := s.status[s.ready[i] := Running],
       cleanup := s.cleanup + Zombies(s.status, s.ready[..i]))
  }

  // A process that cannot be dispatched is popped: it goes back to the queue, or is cleaned up.
  function Pass(s: System): System
    requires |s.ready| > 0 && Known(s.status, s.ready)
  {
    var p, rest := s.ready[0], s.ready[1..];
    if s.status[p].Zombie? then s.(ready := rest, cleanup := s.cleanup + [p]) else s.(ready := rest + [p])
  }

  // A scheduling call; None when the queue is empty, which the kernel takes as a panic.
  function RoundRobin(s: System, tick: nat): Option<System>
    requires |s.ready| > 0 ==> CanDispatch(Requeued(s), tick)
  {
    if |s.ready| == 0 then None else Some(Dispatch(Requeued(s), tick))
  }

  // ----- the operations of the running process -----

  function Falling(s: System, tick: nat, time: nat): System
    requires s.running.Some?
  {
    s.(status := s.status[s.running.value := Sleeping((tick + time) % 65536)])
  }

  function Dying(s: System): System
    requires s.running.Some?
  {
    s.(status := s.status[s.running.value := Zombie])
  }

  // The running process waits for a mutex that is locked.
  function Waiting(s: System, l: nat): System
    requires s.running.Some? && l < |s.locks|
  {
    var p, k := s.running.value, s.locks[l];
    s.(running := None, status := s.status[p := Blocked], locks := s.locks[l := k.(blocked := k.blocked + [p])])
  }

  function Taken(s: System, l: nat): System
    requires s.running.Some? && l < |s.locks|
  {
    s.(locks := s.locks[l := s.locks[l].(locked := true, owner := s.running)])
  }

  // The mutex goes to the process that has waited longest, if there is one.
  function Released(s: System, l: nat): System
    requires l < |s.locks|
  {
    var k := s.locks[l];
    if |k.blocked| > 0 then
      var p := k.blocked[0];
      s.(ready := s.ready + [p], status := s.status[p := Running],
         locks := s.locks[l := k.(blocked := k.blocked[1..], owner := Some(p))])
    else s.(locks := s.locks[l := k.(locked := false, owner := None)])
  }

  // ----- runs -----

  datatype Event =
    | Yield(tick: nat)
    | Sleep(tick: nat, time: nat)
    | Exit(tick: nat)
    | Acquire(l: nat, tick: nat)
    | Release(l: nat)
    | Create(p: Pid)
    | Kill(p: Pid)          // another process marks a queued one as dead

  predicate Enabled(s: System, e: Event) {
    match e
    case Yield(tick) => s.running.Some? && CanDispatch(Requeued(s), tick)
    case Sleep(tick, time) => s.running.Some? && CanDispatch(Requeued(Falling(s, tick, time)), tick)
    case Exit(tick) => s.running.Some? && CanDispatch(Requeued(Dying(s)), tick)
    case Acquire(l, tick) =>
      s.running.Some? && l < |s.locks| && (s.locks[l].locked && |s.ready| > 0 ==> CanDispatch(Waiting(s, l), tick))
    case Release(l) => s.running.Some? && l < |s.locks| && s.locks[l].owner == s.running
    case Create(p) => p !in s.status
    case Kill(p) => p in s.ready && p in s.status
  }

  function Apply(s: System, e: Event): Option<System>
    requires Enabled(s, e)
  {
    match e
    case Yield(tick) => RoundRobin(s, tick)
    case Sleep(tick, time) => RoundRobin(Falling(s, tick, time), tick)
    case Exit(tick) => RoundRobin(Dying(s), tick)
    case Acquire(l, tick) => if s.locks[l].locked then RoundRobin(Waiting(s, l), tick) else Some(Taken(s, l))
    case Release(l) => Some(Released(s, l))
    case Create(p) => Some(s.(status := s.status[p := New], ready := s.ready + [p]))
    case Kill(p) => Some(s.(status := s.status[p := Zombie]))
  }

  predicate Step(s: System, e: Event, s': System) {
    Enabled(s, e) && Apply(s, e) == Some(s')
  }

  // The event ends in a dispatch.
  predicate Schedules(s: System, e: Event) {
    e.Yield? || e.Sleep? || e.Exit? || (e.Acquire? && e.l < |s.locks| && s.locks[e.l].locked)
  }

  predicate Run(ss: seq<System>, es: seq<Event>) {
    |ss| == |es| + 1 && forall i :: 0 <= i < |es| ==> Step(ss[i], es[i], ss[i + 1])
  }
}
