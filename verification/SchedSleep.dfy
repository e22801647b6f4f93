/**
 * What single operations of the scheduler and the mutexes do to the process that calls them,
 * and what that means over runs: who sleeps is left alone until its tick is over, and who is
 * dead never runs.
 */
module SchedSleep {
  import opened Words
  import opened SchedSpec
  import opened SchedTheorems

  // ----- which calls find a process to run -----

  // A yield always does; an exit needs a process in the queue that can run now, and so does
  // a sleep, unless the sleep itself is already over.
  lemma EnabledExactly(s: System, tick: nat, time: nat)
    requires Inv(s) && s.running.Some?
    ensures Enabled(s, Yield(tick))
    ensures Enabled(s, Exit(tick)) <==> exists k: nat :: k < |s.ready| && Runnable(s, s.ready[k], k, tick - 1)
    ensures Enabled(s, Sleep(tick, time)) <==>
      (tick + time) % 65536 < tick || exists k: nat :: k < |s.ready| && Runnable(s, s.ready[k], k, tick - 1)
  {
    hide Inv, Requeued, CanDispatch, Runnable;
    var p := s.running.value;
    AllKnown(s);
    RunningIsApart(s);
    RequeuedFinds(s, Running, tick);
    RequeuedFinds(s, Zombie, tick);
    RequeuedFinds(s, Sleeping((tick + time) % 65536), tick);
    assert s.status[p := Running] == s.status;
  }

  // A scheduling call of a process that goes to the queue in a state.
  lemma RequeuedFinds(s: System, st: Status, tick: nat)
    requires s.running.Some? && s.running.value !in s.ready && Known(s.status, s.ready)
    ensures CanDispatch(Requeued(s.(status := s.status[s.running.value := st])), tick) <==>
      (st == Running || st == New || (st.Sleeping? && st.wake < tick)
       || exists k: nat :: k < |s.ready| && Runnable(s, s.ready[k], k, tick - 1))
  {
    var t := Requeued(s.(status := s.status[s.running.value := st]));
    assert Known(t.status, t.ready);
    QueueAndOne(s, st, tick);
    hide Requeued, CanDispatch, Runnable;
    CanDispatchIs(t, tick);
  }

  lemma AllKnown(s: System)
    requires Inv(s)
    ensures Known(s.status, s.ready) && (s.running.Some? ==> s.running.value in s.status)
  {
    forall i | 0 <= i < |s.ready|
      ensures s.ready[i] in s.status
    {
      ReadyIsKnown(s, i);
    }
    ReadyIsKnown(s, |s.ready|);
  }

  lemma RunningIsApart(s: System)
    requires Inv(s) && s.running.Some?
    ensures s.running.value !in s.ready && s.running.value in s.status && s.status[s.running.value] == Running
  {
    var p := s.running.value;
    ReadyIsKnown(s, |s.ready|);
    CountIn(s.ready, p);
    hide Count, QueuedTimes;
    assert Times(s, p) == 1 && StateSound(s, p);
  }

  lemma CanDispatchIs(s: System, tick: nat)
    requires Known(s.status, s.ready)
    ensures CanDispatch(s, tick) <==> exists k: nat :: k < |s.ready| && Runnable(s, s.ready[k], k, tick - 1)
  {
    var i := First(s.status, s.ready, tick);
    if i < |s.ready| {
      assert Runnable(s, s.ready[i], i, tick - 1);
    }
    hide First;
    forall k: nat | k < |s.ready| && Runnable(s, s.ready[k], k, tick - 1)
      ensures i < |s.ready|
    {
      assert Dispatchable(s.status[s.ready[k]], tick);
    }
  }

  // Whether something can run, once the running process stands behind the queue in a state.
  lemma QueueAndOne(s: System, st: Status, tick: nat)
    requires s.running.Some? && s.running.value !in s.ready && Known(s.status, s.ready)
    ensures var t := Requeued(s.(status := s.status[s.running.value := st]));
      (exists k: nat :: k < |t.ready| && Runnable(t, t.ready[k], k, tick - 1)) <==>
      (st == Running || st == New || (st.Sleeping? && st.wake < tick)
       || exists k: nat :: k < |s.ready| && Runnable(s, s.ready[k], k, tick - 1))
  {
    var p, n := s.running.value, |s.ready|;
    var t := Requeued(s.(status := s.status[p := st]));
    assert t.ready[n] == p;
    assert Runnable(t, t.ready[n], n, tick - 1) <==> (st == Running || st == New || (st.Sleeping? && st.wake < tick));
    forall k: nat | k < n
      ensures t.ready[k] == s.ready[k]
      ensures (Runnable(t, t.ready[k], k, tick - 1) <==> Runnable(s, s.ready[k], k, tick - 1))
    {
      assert s.ready[k] in s.ready;
    }
    hide Runnable;
  }

  // ----- sleeping -----

  // The process in the queue sleeps until the tick `w` is over.
  predicate Asleep(s: System, p: Pid, w: nat) {
    p in s.ready && s.running != Some(p) && p in s.status && s.status[p] == Sleeping(w)
  }

  // No sleeper is found by a dispatch at or before its tick.
  lemma DispatchLeaves(s: System, tick: nat, p: Pid, w: nat)
    requires CanDispatch(s, tick) && Asleep(s, p, w) && tick <= w
    ensures Asleep(Dispatch(s, tick), p, w)
  {
    var i, s' := First(s.status, s.ready, tick), Dispatch(s, tick);
    var front, back := s.ready[..i], s.ready[i + 1..];
    CountSplit(s.ready, i, p);
    PassedOver(s.status, front, p);
    CountAppend(back, Kept(s.status, front), p);
    CountIn(s.ready, p);
    CountIn(s'.ready, p);
    hide First, Kept, Zombies, Count;
  }

  // The running process sleeps for a time: if it is not found at once, it waits in the queue
  // for the tick that lies so much ahead, as a number of 16 bits.
  lemma SleepSets(s: System, tick: nat, time: nat, s': System)
    requires Inv(s) && Step(s, Sleep(tick, time), s') && s'.running != s.running
    ensures Asleep(s', s.running.value, (tick + time) % 65536)
  {
    var p, t := s.running.value, Requeued(Falling(s, tick, time));
    hide Inv, First, Kept, Zombies;
    assert t.ready[|s.ready|] == p;
    DispatchIsOf(t, tick, p);
  }

  // A dispatch finds a process, or leaves its state and keeps it in the queue unless it is dead.
  lemma DispatchIsOf(s: System, tick: nat, p: Pid)
    requires CanDispatch(s, tick) && p in s.ready && p in s.status && s.status[p] != Zombie
    ensures var s' := Dispatch(s, tick);
      s'.running == Some(p) || (p in s'.ready && p in s'.status && s'.status[p] == s.status[p])
  {
    var i, s' := First(s.status, s.ready, tick), Dispatch(s, tick);
    var front, back := s.ready[..i], s.ready[i + 1..];
    CountSplit(s.ready, i, p);
    PassedOver(s.status, front, p);
    CountAppend(back, Kept(s.status, front), p);
    CountIn(s.ready, p);
    CountIn(s'.ready, p);
    hide First, Kept, Zombies, Count;
  }

  // The event makes no scheduling call after the tick `w`.
  predicate Early(s: System, e: Event, w: nat) {
    Schedules(s, e) ==> e.tick <= w
  }

  // A sleeper that is not killed is left alone by every step up to its tick.
  lemma SleeperStays(s: System, e: Event, s': System, p: Pid, w: nat)
    requires Inv(s) && Step(s, e, s') && Asleep(s, p, w) && e != Kill(p) && Early(s, e, w)
    ensures Asleep(s', p, w)
  {
    var k :| 0 <= k < |s.ready| && s.ready[k] == p;
    QueuedOnce(s, p, k);
    hide Inv, First, Kept, Zombies, Dispatch, CanDispatch, Count;
    match e
    case Yield(tick) => StaysQueued(s, p, k); DispatchLeaves(Requeued(s), tick, p, w);
    case Sleep(tick, time) =>
      StaysQueued(Falling(s, tick, time), p, k);
      DispatchLeaves(Requeued(Falling(s, tick, time)), tick, p, w);
    case Exit(tick) => StaysQueued(Dying(s), p, k); DispatchLeaves(Requeued(Dying(s)), tick, p, w);
    case Acquire(l, tick) =>
      if s.locks[l].locked {
        DispatchLeaves(Waiting(s, l), tick, p, w);
      }
    case Release(l) => ReleaseSpares(s, l, p);
    case Create(q) =>
    case Kill(q) =>
  }

  lemma StaysQueued(s: System, p: Pid, k: nat)
    requires k < |s.ready| && s.ready[k] == p
    ensures p in Requeued(s).ready
  {
    assert Requeued(s).ready[k] == p;
  }

  // A release changes nothing of a process that does not wait for the mutex.
  lemma ReleaseSpares(s: System, l: nat, p: Pid)
    requires l < |s.locks| && Count(s.locks[l].blocked, p) == 0 && p in s.status
    ensures var s' := Released(s, l);
      (p in s.ready ==> p in s'.ready) && p in s'.status && s'.status[p] == s.status[p] && s'.running == s.running
  {
    CountIn(s.locks[l].blocked, p);
  }

  // ----- dying -----

  predicate Dead(s: System, p: Pid) {
    p in s.status && s.status[p] == Zombie
  }

  // No step brings a dead process back.
  lemma DeadStays(s: System, e: Event, s': System, p: Pid)
    requires Inv(s) && Step(s, e, s') && Dead(s, p)
    ensures Dead(s', p) && s'.running != Some(p)
  {
    hide Inv, CanDispatch, Dispatch;
    StepKeeps(s, e, s');
    DeadIsNotRun(s, p);
    DeadIsNotRun(s', p);
    match e
    case Yield(tick) => DispatchSpares(Requeued(s), tick, p);
    case Sleep(tick, time) => DispatchSpares(Requeued(Falling(s, tick, time)), tick, p);
    case Exit(tick) => DispatchSpares(Requeued(Dying(s)), tick, p);
    case Acquire(l, tick) =>
      if s.locks[l].locked {
        DispatchSpares(Waiting(s, l), tick, p);
      }
    case Release(l) => DeadDoesNotWait(s, l, p);
    case Create(q) =>
    case Kill(q) =>
  }

  lemma DispatchSpares(s: System, tick: nat, p: Pid)
    requires CanDispatch(s, tick) && Dead(s, p)
    ensures Dead(Dispatch(s, tick), p)
  {
    hide Kept, Zombies;
  }

  lemma DeadDoesNotWait(s: System, l: nat, p: Pid)
    requires Inv(s) && l < |s.locks| && Dead(s, p)
    ensures |s.locks[l].blocked| > 0 ==> s.locks[l].blocked[0] != p
  {
    if |s.locks[l].blocked| > 0 {
      WaiterIsKnown(s, l, 0);
      hide Count, QueuedTimes, Times;
      assert StateSound(s, s.locks[l].blocked[0]);
    }
  }

  lemma DeadIsNotRun(s: System, p: Pid)
    requires Inv(s)
    ensures Dead(s, p) ==> s.running != Some(p)
  {
    hide Count, QueuedTimes, Times;
    assert p in s.status ==> StateSound(s, p);
  }

  // Who exits is dead, and waits in the queue to be cleaned up, or has been.
  lemma ExitSets(s: System, tick: nat, s': System)
    requires Inv(s) && Step(s, Exit(tick), s')
    ensures var p := s.running.value;
      Dead(s', p) && s'.running != Some(p) && (p in s'.ready || p in s'.cleanup)
  {
    StepKeeps(s, Exit(tick), s');
    DeadIsNotRun(s', s.running.value);
    DeadIsQueued(s', s.running.value);
    hide Inv, Kept, Zombies, Count, QueuedTimes, Times;
  }

  lemma DeadIsQueued(s: System, p: Pid)
    requires Inv(s)
    ensures Dead(s, p) ==> p in s.ready || p in s.cleanup
  {
    CountIn(s.ready, p);
    CountIn(s.cleanup, p);
    hide Count, QueuedTimes;
    assert Times(s, p) == if p in s.status then 1 else 0;
    assert p in s.status ==> StateSound(s, p);
  }

  // A killed process dies where it is.
  lemma KillSets(s: System, p: Pid, s': System)
    requires Step(s, Kill(p), s')
    ensures Dead(s', p) && s' == s.(status := s'.status) && forall q :: q in s.status && q != p ==>
      q in s'.status && s'.status[q] == s.status[q]
  {
  }

  // A created process waits at the end of the queue to be started.
  lemma CreateSets(s: System, p: Pid, s': System)
    requires Step(s, Create(p), s')
    ensures p !in s.status && s'.status == s.status[p := New] && s' == s.(status := s'.status, ready := s.ready + [p])
  {
  }

  // The dead process at position `k` of the queue.
  predicate Corpse(s: System, p: Pid, k: nat) {
    k < |s.ready| && s.ready[k] == p && Dead(s, p)
  }

  // A dispatch cleans a dead process up, or moves it forward.
  lemma DispatchCleans(s: System, tick: nat, p: Pid, k: nat)
    requires CanDispatch(s, tick) && Corpse(s, p, k)
    ensures var s' := Dispatch(s, tick);
      p in s'.cleanup || exists j :: 0 <= j < k && Corpse(s', p, j)
  {
    var i, s' := First(s.status, s.ready, tick), Dispatch(s, tick);
    assert i != k;
    if k < i {
      var front := s.ready[..i];
      assert front[k] == p;
      CountHas(front, k);
      PassedOver(s.status, front, p);
      CountIn(Zombies(s.status, front), p);
    } else {
      hide First, Kept, Zombies;
      assert s'.ready[k - i - 1] == s.ready[i + 1..][k - i - 1] == p;
      assert Corpse(s', p, k - i - 1);
    }
  }

  lemma StepCleans(s: System, e: Event, s': System, p: Pid, k: nat)
    requires Inv(s) && Step(s, e, s') && Corpse(s, p, k)
    ensures p in s'.cleanup || exists j :: 0 <= j <= k && (Schedules(s, e) ==> j < k) && Corpse(s', p, j)
  {
    DeadStays(s, e, s', p);
    DeadIsNotRun(s, p);
    hide First, Kept, Zombies, Inv, Dispatch, CanDispatch;
    match e
    case Yield(tick) => assert Corpse(Requeued(s), p, k); DispatchCleans(Requeued(s), tick, p, k);
    case Sleep(tick, time) =>
      assert Corpse(Requeued(Falling(s, tick, time)), p, k);
      DispatchCleans(Requeued(Falling(s, tick, time)), tick, p, k);
    case Exit(tick) => assert Corpse(Requeued(Dying(s)), p, k); DispatchCleans(Requeued(Dying(s)), tick, p, k);
    case Acquire(l, tick) =>
      if s.locks[l].locked {
        DispatchCleans(Waiting(s, l), tick, p, k);
      } else {
        assert Corpse(s', p, k);
      }
    case Release(l) => assert Corpse(s', p, k);
    case Create(q) => assert Corpse(s', p, k);
    case Kill(q) => assert Corpse(s', p, k);
  }

  // Every dead process is cleaned up within as many scheduling calls as there are processes
  // up to it in the queue.
  lemma {:induction false} BoundedCleanup(ss: seq<System>, es: seq<Event>, n: nat, p: Pid, k: nat)
    requires Run(ss, es) && Inv(ss[0]) && Corpse(ss[0], p, k) && n <= |es| && Calls(ss, es, n) > k
    ensures p in ss[n].cleanup
  {
    var _ := StillDead(ss, es, n, p, k);
  }

  lemma {:induction false} StillDead(ss: seq<System>, es: seq<Event>, n: nat, p: Pid, k: nat) returns (j: nat)
    requires Run(ss, es) && Inv(ss[0]) && Corpse(ss[0], p, k) && n <= |es|
    ensures p in ss[n].cleanup || (j + Calls(ss, es, n) <= k && Corpse(ss[n], p, j))
  {
    hide Inv, Step, Corpse, Schedules;
    j := k;
    if n > 0 {
      var i := StillDead(ss, es, n - 1, p, k);
      var s, e, s' := ss[n - 1], es[n - 1], ss[n - 1 + 1];
      assert Step(s, e, s');
      RunKeeps(ss, es, n - 1);
      if p in s.cleanup {
        CleanedStays(s, e, s', p);
      } else {
        StepCleans(s, e, s', p, i);
        if p !in s'.cleanup {
          j :| 0 <= j <= i && (Schedules(s, e) ==> j < i) && Corpse(s', p, j);
        }
      }
    }
  }

  lemma CleanedStays(s: System, e: Event, s': System, p: Pid)
    requires Step(s, e, s') && p in s.cleanup
    ensures p in s'.cleanup
  {
    StepKeepsCleaned(s, e, s', p);
  }

  // ----- mutexes -----

  // A free mutex is taken, and nothing else changes; for a locked one the process waits,
  // blocked, behind all others.
  lemma AcquireSets(s: System, l: nat, tick: nat, s': System)
    requires Inv(s) && Step(s, Acquire(l, tick), s')
    ensures l < |s'.locks| == |s.locks| && forall j :: 0 <= j < |s.locks| && j != l ==> s'.locks[j] == s.locks[j]
    ensures !s.locks[l].locked ==>
      s'.locks[l] == Lock(true, [], s.running) && s' == s.(locks := s'.locks)
    ensures s.locks[l].locked ==> (
      var p, k := s.running.value, s.locks[l];
      && s'.locks[l] == Lock(true, k.blocked + [p], k.owner) && s'.running != s.running
      && p !in s'.ready && p in s'.status && s'.status[p] == Blocked)
  {
    assert LockSound(s.locks[l]);
    StepKeeps(s, Acquire(l, tick), s');
    if s.locks[l].locked {
      var n := |s.locks[l].blocked|;
      hide Inv, Kept, Zombies, First, LockSound;
      assert s'.locks[l].blocked[n] == s.running.value;
      BlockedIs(s', l, n);
    }
  }

  lemma BlockedIs(s: System, l: nat, i: nat)
    requires Inv(s) && l < |s.locks| && i < |s.locks[l].blocked|
    ensures var p := s.locks[l].blocked[i];
      s.running != Some(p) && p !in s.ready && p in s.status && s.status[p] == Blocked
  {
    WaiterIsKnown(s, l, i);
    var p := s.locks[l].blocked[i];
    CountIn(s.ready, p);
    hide Count, QueuedTimes, Times;
    assert StateSound(s, p);
  }

  // A released mutex goes to the process that has waited longest, which becomes ready behind
  // the others; with no such process it is unlocked and has no owner.
  lemma ReleaseSets(s: System, l: nat, s': System)
    requires Inv(s) && Step(s, Release(l), s')
    ensures l < |s'.locks| == |s.locks| && forall j :: 0 <= j < |s.locks| && j != l ==> s'.locks[j] == s.locks[j]
    ensures var k := s.locks[l];
      if k.blocked == [] then s'.locks[l] == Lock(false, [], None) && s' == s.(locks := s'.locks)
      else
        && s'.locks[l] == Lock(true, k.blocked[1..], Some(k.blocked[0]))
        && s'.ready == s.ready + [k.blocked[0]] && s'.status == s.status[k.blocked[0] := Running]
        && s'.running == s.running && s'.cleanup == s.cleanup
  {
    assert LockSound(s.locks[l]);
    hide Inv;
  }

  lemma OwnerKeeps(s: System, e: Event, s': System, l: nat)
    requires Inv(s) && Step(s, e, s') && l < |s.locks| && s.locks[l].locked && e != Release(l)
    ensures l < |s'.locks| && s'.locks[l].locked && s'.locks[l].owner == s.locks[l].owner
  {
    hide First, Kept, Zombies, CanDispatch, Inv;
  }

  // Mutual exclusion: over every run, the process that has a mutex has it until it is
  // released, and a release is a step of the process that has it.
  lemma {:induction false} HeldUntilReleased(ss: seq<System>, es: seq<Event>, m: nat, n: nat, l: nat)
    requires Run(ss, es) && Inv(ss[0]) && m <= n <= |es| && l < |ss[m].locks| && ss[m].locks[l].owner.Some?
    requires forall i :: m <= i < n ==> es[i] != Release(l)
    ensures l < |ss[n].locks| && ss[n].locks[l].locked && ss[n].locks[l].owner == ss[m].locks[l].owner
    ensures n < |es| && es[n] == Release(l) ==> ss[n].running == ss[m].locks[l].owner
    decreases n
  {
    RunKeeps(ss, es, n);
    if n == m {
      assert LockSound(ss[m].locks[l]);
    } else {
      HeldUntilReleased(ss, es, m, n - 1, l);
      hide Inv, Step;
      assert Step(ss[n - 1], es[n - 1], ss[n - 1 + 1]);
      RunKeeps(ss, es, n - 1);
      OwnerKeeps(ss[n - 1], es[n - 1], ss[n], l);
    }
    if n < |es| && es[n] == Release(l) {
      ReleaserOwns(ss, es, n, l);
    }
  }

  lemma ReleaserOwns(ss: seq<System>, es: seq<Event>, n: nat, l: nat)
    requires Run(ss, es) && n < |es| && es[n] == Release(l)
    ensures l < |ss[n].locks| && ss[n].locks[l].owner == ss[n].running
  {
    assert Step(ss[n], es[n], ss[n + 1]);
  }

  // ----- sleeping over runs -----

  lemma SleeperIs(s: System, p: Pid, w: nat)
    ensures Asleep(s, p, w) ==> s.running != Some(p)
  {
  }

  // No run dispatches a sleeper before its tick is over, and nothing else of it changes
  // unless it is killed.
  lemma {:induction false} SleeperSleeps(ss: seq<System>, es: seq<Event>, n: nat, p: Pid, w: nat)
    requires Run(ss, es) && Inv(ss[0]) && Asleep(ss[0], p, w) && n <= |es|
    requires forall i :: 0 <= i < n ==> Early(ss[i], es[i], w)
    ensures ss[n].running != Some(p) && (Asleep(ss[n], p, w) || Dead(ss[n], p))
    ensures (forall i :: 0 <= i < n ==> es[i] != Kill(p)) ==> Asleep(ss[n], p, w)
  {
    hide Inv, Step, Asleep, Early, Dead;
    if n > 0 {
      SleeperSleeps(ss, es, n - 1, p, w);
      var s, e, s' := ss[n - 1], es[n - 1], ss[n - 1 + 1];
      assert Step(s, e, s');
      RunKeeps(ss, es, n - 1);
      RunKeeps(ss, es, n);
      DeadIsNotRun(s', p);
      if Dead(s, p) {
        DeadStays(s, e, s', p);
        assert !Asleep(s, p, w) by { NotBoth(s, p, w); }
      } else if e == Kill(p) {
        KillSets(s, p, s');
      } else {
        SleeperStays(s, e, s', p, w);
      }
    }
    SleeperIs(ss[n], p, w);
  }

  lemma NotBoth(s: System, p: Pid, w: nat)
    ensures !Asleep(s, p, w) || !Dead(s, p)
  {
  }

  // The scheduling calls of the event fall between two ticks.
  predicate During(s: System, e: Event, from: nat, till: nat) {
    Schedules(s, e) ==> from <= e.tick <= till
  }

  ghost predicate RunFrom(ss: seq<System>, es: seq<Event>, s: System, from: nat, till: nat) {
    Run(ss, es) && ss[0] == s && forall i :: 0 <= i < |es| ==> During(ss[i], es[i], from, till)
  }

  // No run dispatches the process between the two ticks.
  ghost predicate SleepsThrough(s: System, p: Pid, from: nat, till: nat) {
    forall ss: seq<System>, es: seq<Event> :: |ss| == |es| + 1 && RunFrom(ss, es, s, from, till) ==>
      ss[|es|].running != Some(p)
  }

  // Who can be dispatched is dispatched by enough yields at one tick.
  lemma {:induction false} YieldsFind(s: System, p: Pid, k: nat, w: int, tick: nat)
    returns (ss: seq<System>, es: seq<Event>)
    requires Inv(s) && s.running.Some? && Runnable(s, p, k, w) && tick > w
    ensures RunFrom(ss, es, s, tick, tick) && ss[|es|].running == Some(p)
    decreases k
  {
    hide Inv, Runnable, CanDispatch, Dispatch;
    EnabledExactly(s, tick, 0);
    QueueIsThere(s, p, k, w);
    var e := Yield(tick);
    var s' := Dispatch(Requeued(s), tick);
    assert Step(s, e, s');
    StepKeeps(s, e, s');
    StepAdvances(s, e, s', p, k, w);
    if s'.running == Some(p) {
      ss, es := [s, s'], [e];
    } else {
      var j :| 0 <= j < k && Runnable(s', p, j, w);
      DispatchRuns(Requeued(s), tick);
      var ts, ds := YieldsFind(s', p, j, w, tick);
      ss, es := [s] + ts, [e] + ds;
      Prepend(s, e, ts, ds, tick);
    }
  }

  lemma QueueIsThere(s: System, p: Pid, k: nat, w: int)
    requires Runnable(s, p, k, w)
    ensures |s.ready| > 0
  {
  }

  lemma DispatchRuns(s: System, tick: nat)
    requires CanDispatch(s, tick)
    ensures Dispatch(s, tick).running.Some?
  {
  }

  lemma Prepend(s: System, e: Event, ss: seq<System>, es: seq<Event>, tick: nat)
    requires Run(ss, es) && Step(s, e, ss[0]) && RunFrom(ss, es, ss[0], tick, tick) && During(s, e, tick, tick)
    ensures RunFrom([s] + ss, [e] + es, s, tick, tick) && ([s] + ss)[|[e] + es|] == ss[|es|]
  {
    hide Step, During;
    var ts, ds := [s] + ss, [e] + es;
    forall i | 0 <= i < |ds|
      ensures Step(ts[i], ds[i], ts[i + 1]) && During(ts[i], ds[i], tick, tick)
    {
      if i > 0 {
        assert ts[i] == ss[i - 1] && ts[i + 1] == ss[i - 1 + 1] && ds[i] == es[i - 1];
        assert Step(ss[i - 1], es[i - 1], ss[i - 1 + 1]);
      }
    }
  }

  lemma RunIsEarly(ss: seq<System>, es: seq<Event>, s: System, from: nat, w: nat, till: nat)
    requires RunFrom(ss, es, s, from, till) && till <= w
    ensures Run(ss, es) && |ss| == |es| + 1 && ss[0] == s && forall i :: 0 <= i < |es| ==> Early(ss[i], es[i], w)
  {
    hide Step, Schedules;
    forall i | 0 <= i < |es|
      ensures Early(ss[i], es[i], w)
    {
      assert During(ss[i], es[i], from, till);
    }
  }

  lemma Widen(ss: seq<System>, es: seq<Event>, s: System, tick: nat, from: nat, till: nat)
    requires RunFrom(ss, es, s, tick, tick) && from <= tick <= till
    ensures |ss| == |es| + 1 && RunFrom(ss, es, s, from, till)
  {
    hide Step, Schedules;
    forall i | 0 <= i < |es|
      ensures During(ss[i], es[i], from, till)
    {
      assert During(ss[i], es[i], tick, tick);
    }
  }

  lemma SleeperIsRunnable(s: System, p: Pid, w: nat) returns (k: nat)
    requires Asleep(s, p, w)
    ensures Runnable(s, p, k, w)
  {
    k :| 0 <= k < |s.ready| && s.ready[k] == p;
  }

  lemma SleepRuns(s: System, tick: nat, time: nat, s': System)
    requires Step(s, Sleep(tick, time), s')
    ensures s.running.Some? && s'.running.Some?
  {
    hide First, Kept, Zombies;
  }

  // Up to its tick no run finds a sleeper; after it some run does.
  lemma SleepsToTick(s: System, p: Pid, w: nat, from: nat, till: nat)
    requires Inv(s) && Asleep(s, p, w)
    ensures till <= w ==> SleepsThrough(s, p, from, till)
  {
    hide Inv, Run, Asleep, RunFrom, During, Early, Dead;
    if till <= w {
      forall ss: seq<System>, es: seq<Event> | |ss| == |es| + 1 && RunFrom(ss, es, s, from, till)
        ensures ss[|es|].running != Some(p)
      {
        RunIsEarly(ss, es, s, from, w, till);
        SleeperSleeps(ss, es, |es|, p, w);
      }
    }
  }

  lemma SleepsNoLonger(s: System, p: Pid, w: nat, from: nat, till: nat)
    requires Inv(s) && Asleep(s, p, w) && s.running.Some? && from <= till
    ensures w < till ==> !SleepsThrough(s, p, from, till)
  {
    hide Inv, Run, Asleep, RunFrom, During, Runnable;
    if w < till {
      var t := if from > w then from else w + 1;
      var k := SleeperIsRunnable(s, p, w);
      var ss, es := YieldsFind(s, p, k, w, t);
      Widen(ss, es, s, t, from, till);
      assert RunFrom(ss, es, s, from, till);
    }
  }

  // A process that goes to sleep sleeps as long as it asked for, whatever runs meanwhile,
  // exactly when the tick it waits for has 16 bits: otherwise it may be found earlier.
  lemma SleepIsLongEnough(s: System, tick: nat, time: nat, s': System)
    requires Inv(s) && Step(s, Sleep(tick, time), s') && s'.running != s.running
    ensures SleepsThrough(s', s.running.value, tick, tick + time) <==> tick + time < 65536
  {
    hide Inv, Step, Asleep, SleepsThrough;
    SleepRuns(s, tick, time, s');
    SleepSets(s, tick, time, s');
    StepKeeps(s, Sleep(tick, time), s');
    var p, w := s.running.value, (tick + time) % 65536;
    SleepsToTick(s', p, w, tick, tick + time);
    SleepsNoLonger(s', p, w, tick, tick + time);
  }
}
