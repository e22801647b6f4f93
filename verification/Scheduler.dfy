/** The scheduler and the mutexes in place, against what the operations mean on values. */
module Scheduler {
  import opened Words
  import opened SchedSpec
  import opened SchedSleep
  import opened SchedTheorems

  class Kernel {
    var running: Option<Pid>
    var queue: seq<Pid>
    var status: map<Pid, Status>
    var work: seq<Pid>              // processes given to the cleanup routine
    var locks: seq<Lock>

    ghost function Model(): System
      reads this
    {
      System(running, queue, status, work, locks)
    }

    ghost predicate Valid()
      reads this
    {
      && Known(status, queue) && (running.Some? ==> running.value in status)
      && (forall l :: 0 <= l < |locks| ==> Known(status, locks[l].blocked))
    }

    constructor (mutexes: nat)
      ensures Valid() && Model() == System(None, [], map[], [], seq(mutexes, _ => Lock(false, [], None)))
    {
      running, queue, status, work := None, [], map[], [];
      locks := seq(mutexes, _ => Lock(false, [], None));
    }

    // Put the running process at the end of the queue, and run the first process that can be
    // dispatched. Fails on an empty queue.
    method RoundRobinNext(tick: nat) returns (ok: bool)
      requires Valid() && (|queue| > 0 ==> CanDispatch(Requeued(Model()), tick))
      modifies `running, `queue, `status, `work
      ensures ok == (|old(queue)| > 0) && Valid()
      ensures RoundRobin(old(Model()), tick) == if ok then Some(Model()) else None
      ensures !ok ==> Model() == old(Model())
    {
      if |queue| == 0 { return false; }
      if running.Some? {
        queue := queue + [running.value];
        running := None;
      }
      ghost var pops := PickNext(tick);
      ok := true;
    }

    // Pop processes until one can be dispatched, and run it. To any process that can be
    // dispatched, there are no more pops than its position and one.
    method PickNext(tick: nat) returns (ghost pops: nat)
      requires Valid() && running.None? && CanDispatch(Model(), tick)
      modifies `running, `queue, `status, `work
      ensures Valid() && Model() == Dispatch(old(Model()), tick)
      ensures 0 < pops <= |old(queue)| && running == Some(old(queue)[pops - 1])
      ensures forall k :: 0 <= k < |old(queue)| && Dispatchable(old(status)[old(queue)[k]], tick) ==> pops <= k + 1
    {
      ghost var s, i := Model(), First(status, queue, tick);
      hide First, Kept, Zombies, Passed, Picked, Pass, Dispatch, CanDispatch;
      NothingPassed(s);
      ghost var m := 0;
      pops := 0;
      var found, next := false, 0;
      while !found
        invariant pops == (if found then m + 1 else m)
        invariant 0 <= m <= i && Known(s.status, s.ready) && i == First(s.status, s.ready, tick) < |s.ready|
        invariant !found ==> Valid() && running == None && Passed(s, m, queue, status, work)
        invariant found ==> m == i && next == s.ready[i] && Picked(s, i, queue, status, work)
        decreases i - m, !found
      {
        NextPop(s, Model(), m);
        FirstIs(s, tick, m);
        found, next := PopOne(tick);
        pops := pops + 1;
        m := if found then m else m + 1;
      }
      running := Some(next);
      DispatchForm(s, tick);
    }

    // Pop one process: it can be dispatched, or goes to the cleanup routine or back to the queue.
    method PopOne(tick: nat) returns (found: bool, next: Pid)
      requires Valid() && running == None && |queue| > 0
      modifies `running, `queue, `status, `work
      ensures next == old(queue)[0] && (found <==> Dispatchable(old(status)[next], tick))
      ensures found ==> queue == old(queue)[1..] && status == old(status)[next := Running] && work == old(work)
      ensures !found ==> Model() == Pass(old(Model()))
    {
      next := queue[0];
      queue := queue[1..];
      found := false;
      var st := status[next];
      if st.Running? {
        assert status == status[next := Running];
        found := true;
      } else if st.New? {
        running := Some(next);
        status := status[next := Running];
        found := true;
      } else if st.Zombie? {
        work := work + [next];
      } else if st.Sleeping? && st.wake < tick {
        status := status[next := Running];
        found := true;
      } else {
        queue := queue + [next];
      }
    }

    // Give the processor up.
    method Schedule(tick: nat) returns (ok: bool)
      requires Valid() && running.Some? && CanDispatch(Requeued(Model()), tick)
      modifies `running, `queue, `status, `work
      ensures ok == (|old(queue)| > 0) && Valid()
      ensures RoundRobin(old(Model()), tick) == if ok then Some(Model()) else None
    {
      hide CanDispatch, Dispatch;
      ok := RoundRobinNext(tick);
    }

    method Sleep(tick: nat, time: nat) returns (ok: bool)
      requires Valid() && Enabled(Model(), Event.Sleep(tick, time))
      modifies `running, `queue, `status, `work
      ensures Valid() && Apply(old(Model()), Event.Sleep(tick, time)) == if ok then Some(Model()) else None
      ensures ok && Inv(old(Model())) && running != old(running) ==>
        Asleep(Model(), old(running).value, (tick + time) % 65536)
    {
      hide CanDispatch, Dispatch, Inv, Asleep;
      ghost var s := Model();
      status := status[running.value := Sleeping((tick + time) % 65536)];
      ok := Schedule(tick);
      if ok && Inv(s) && running != s.running {
        assert Step(s, Event.Sleep(tick, time), Model());
        SleepSets(s, tick, time, Model());
      }
    }

    method Exit(tick: nat) returns (ok: bool)
      requires Valid() && Enabled(Model(), Event.Exit(tick))
      modifies `running, `queue, `status, `work
      ensures Valid() && Apply(old(Model()), Event.Exit(tick)) == if ok then Some(Model()) else None
      ensures ok && Inv(old(Model())) ==> (
        var p := old(running).value;
        p in status && status[p] == Zombie && running != Some(p) && (p in queue || p in work))
    {
      hide CanDispatch, Dispatch, Inv;
      ghost var s := Model();
      status := status[running.value := Zombie];
      ok := RoundRobinNext(tick);
      if ok && Inv(s) {
        assert Step(s, Event.Exit(tick), Model());
        ExitSets(s, tick, Model());
      }
    }

    // Take the running process off the processor.
    method Consume() returns (p: Pid)
      requires Valid() && running.Some?
      modifies `running
      ensures running == None && old(running) == Some(p) && Valid()
    {
      p := running.value;
      running := None;
    }

    // Block a process that was taken off the processor.
    method Block(p: Pid, tick: nat) returns (ok: bool)
      requires Valid() && running.None? && p in status
      requires |queue| > 0 ==> CanDispatch(Model().(status := status[p := Blocked]), tick)
      modifies `running, `queue, `status, `work
      ensures Valid()
      ensures RoundRobin(old(Model()).(status := old(status)[p := Blocked]), tick) == if ok then Some(Model()) else None
    {
      hide CanDispatch, Dispatch;
      status := status[p := Blocked];
      ok := RoundRobinNext(tick);
    }

    method Add(p: Pid)
      requires Valid() && p in status
      modifies `queue
      ensures Valid() && queue == old(queue) + [p]
    {
      queue := queue + [p];
    }

    // Take a mutex, or wait for it.
    method Acquire(l: nat, tick: nat) returns (ok: bool)
      requires Valid() && Enabled(Model(), Event.Acquire(l, tick))
      modifies this
      ensures Valid() && Apply(old(Model()), Event.Acquire(l, tick)) == if ok then Some(Model()) else None
    {
      hide CanDispatch, Dispatch;
      if locks[l].locked {
        var current := Consume();
        locks := locks[l := locks[l].(blocked := locks[l].blocked + [current])];
        ok := Block(current, tick);
      } else {
        locks := locks[l := locks[l].(locked := true, owner := running)];
        ok := true;
      }
    }

    // Give a mutex to the process that has waited longest, or unlock it, whoever asks for it.
    method Release(l: nat)
      requires Valid() && l < |locks|
      modifies this
      ensures Valid() && Model() == Released(old(Model()), l)
    {
      hide CanDispatch, Dispatch;
      if |locks[l].blocked| > 0 {
        var p := locks[l].blocked[0];
        locks := locks[l := locks[l].(blocked := locks[l].blocked[1..], owner := Some(p))];
        Add(p);
        status := status[p := Running];
        return;
      }
      locks := locks[l := locks[l].(locked := false, owner := None)];
    }
  }

  // The queue after `m` processes were passed over.
  function Rotated(s: System, m: nat): seq<Pid>
    requires m <= |s.ready| && Known(s.status, s.ready)
  {
    s.ready[m..] + Kept(s.status, s.ready[..m])
  }

  // The fields after `m` processes were passed over.
  predicate Passed(s: System, m: nat, queue: seq<Pid>, status: map<Pid, Status>, work: seq<Pid>)
    requires Known(s.status, s.ready)
  {
    m <= |s.ready| && status == s.status && queue == Rotated(s, m) && work == s.cleanup + Zombies(s.status, s.ready[..m])
  }

  // The fields after the process at `i` was found.
  predicate Picked(s: System, i: nat, queue: seq<Pid>, status: map<Pid, Status>, work: seq<Pid>)
    requires Known(s.status, s.ready)
  {
    && i < |s.ready| && status == s.status[s.ready[i] := Running]
    && queue == s.ready[i + 1..] + Kept(s.status, s.ready[..i])
    && work == s.cleanup + Zombies(s.status, s.ready[..i])
  }

  lemma NothingPassed(s: System)
    requires Known(s.status, s.ready)
    ensures Passed(s, 0, s.ready, s.status, s.cleanup)
  {
  }

  // Up to the first one, no process can be dispatched.
  lemma FirstIs(s: System, tick: nat, m: nat)
    requires Known(s.status, s.ready) && m <= First(s.status, s.ready, tick) < |s.ready|
    ensures Dispatchable(s.status[s.ready[m]], tick) <==> m == First(s.status, s.ready, tick)
  {
  }

  // The next pop after `m` processes were passed over.
  lemma NextPop(s: System, t: System, m: nat)
    requires Known(s.status, s.ready) && m < |s.ready| && Known(t.status, t.ready)
    requires Passed(s, m, t.ready, t.status, t.cleanup)
    ensures |t.ready| > 0 && t.ready[0] == s.ready[m] && t.status == s.status
    ensures Picked(s, m, t.ready[1..], t.status[s.ready[m] := Running], t.cleanup)
    ensures Pass(t).status == t.status && Known(t.status, Pass(t).ready)
    ensures Passed(s, m + 1, Pass(t).ready, t.status, Pass(t).cleanup)
  {
    assert s.ready[..m + 1][..m] == s.ready[..m];
    assert t.ready[1..] == s.ready[m + 1..] + Kept(s.status, s.ready[..m]);
  }

  // What a dispatch leaves behind, and that all queued processes are still known.
  lemma DispatchForm(s: System, tick: nat)
    requires CanDispatch(s, tick)
    ensures var i := First(s.status, s.ready, tick);
      var x := s.ready[i];
      && Dispatch(s, tick) == s.(running := Some(x), ready := s.ready[i + 1..] + Kept(s.status, s.ready[..i]),
                                 status := s.status[x := Running], cleanup := s.cleanup + Zombies(s.status, s.ready[..i]))
      && Known(s.status, s.ready[i + 1..] + Kept(s.status, s.ready[..i]))
      && (s.status[x] == Running ==> s.status[x := Running] == s.status)
  {
    KeptKnown(s.status, s.ready[..First(s.status, s.ready, tick)]);
    hide Kept, Zombies, First;
  }

  lemma {:induction false} KeptKnown(status: map<Pid, Status>, ps: seq<Pid>)
    requires Known(status, ps)
    ensures Known(status, Kept(status, ps))
  {
    if |ps| > 0 {
      KeptKnown(status, ps[..|ps| - 1]);
    }
  }
}
