/**
 * What every run of the scheduler and its mutexes keeps: each process is in one place, a
 * mutex is locked exactly when it has an owner and is handed over in order of arrival, dead
 * processes are cleaned up once, and no runnable process waits forever.
 */
module SchedTheorems {
  import opened Words
  import opened SchedSpec

  // ----- where the processes are -----

  function Count(ps: seq<Pid>, p: Pid): nat {
    multiset(ps)[p]
  }

  // In how many places of the mutex queues a process is.
  function QueuedTimes(locks: seq<Lock>, p: Pid): nat {
    if |locks| == 0 then 0 else QueuedTimes(locks[..|locks| - 1], p) + Count(locks[|locks| - 1].blocked, p)
  }

  // In how many places a process is: on the processor, in the ready queue, cleaned up, or
  // waiting for a mutex.
  function Times(s: System, p: Pid): nat {
    (if s.running == Some(p) then 1 else 0) + Count(s.ready, p) + Count(s.cleanup, p) + QueuedTimes(s.locks, p)
  }

  // Every process is in exactly one place, and nothing else is in any.
  ghost predicate Placed(s: System) {
    forall p :: Times(s, p) == if p in s.status then 1 else 0
  }

  // A mutex is locked exactly when it has an owner, and only then processes wait for it.
  ghost predicate LocksSound(s: System) {
    forall l :: 0 <= l < |s.locks| ==> LockSound(s.locks[l])
  }

  predicate LockSound(k: Lock) {
    (k.locked <==> k.owner.Some?) && (!k.locked ==> k.blocked == [])
  }

  // The states match the places.
  predicate StateSound(s: System, p: Pid)
    requires p in s.status
  {
    && (s.running == Some(p) ==> s.status[p] == Running)
    && (Count(s.ready, p) > 0 ==> s.status[p] != Blocked)
    && (Count(s.cleanup, p) > 0 ==> s.status[p] == Zombie)
    && (QueuedTimes(s.locks, p) > 0 ==> s.status[p] == Blocked)
  }

  ghost predicate StatesSound(s: System) {
    forall p :: p in s.status ==> StateSound(s, p)
  }

  ghost predicate Inv(s: System) {
    Placed(s) && LocksSound(s) && StatesSound(s)
  }

  // ----- counting -----

  lemma CountAppend(a: seq<Pid>, b: seq<Pid>, p: Pid)
    ensures Count(a + b, p) == Count(a, p) + Count(b, p)
  {
  }

  lemma CountOne(x: Pid, p: Pid)
    ensures Count([x], p) == if x == p then 1 else 0
  {
  }

  lemma CountHas(ps: seq<Pid>, i: nat)
    requires i < |ps|
    ensures Count(ps, ps[i]) > 0
  {
    assert ps[i] in multiset(ps);
  }

  lemma CountIn(ps: seq<Pid>, p: Pid)
    ensures Count(ps, p) > 0 <==> p in ps
  {
    assert p in multiset(ps) <==> p in ps;
  }

  lemma CountSplit(ps: seq<Pid>, i: nat, p: Pid)
    requires i < |ps|
    ensures Count(ps, p) == Count(ps[..i], p) + (if ps[i] == p then 1 else 0) + Count(ps[i + 1..], p)
  {
    assert ps == ps[..i] + ([ps[i]] + ps[i + 1..]);
    CountAppend(ps[..i], [ps[i]] + ps[i + 1..], p);
    CountAppend([ps[i]], ps[i + 1..], p);
    CountOne(ps[i], p);
  }

  lemma {:induction false} QueuedUpdate(locks: seq<Lock>, l: nat, k: Lock, p: Pid)
    requires l < |locks|
    ensures QueuedTimes(locks[l := k], p) == QueuedTimes(locks, p) - Count(locks[l].blocked, p) + Count(k.blocked, p)
    ensures Count(locks[l].blocked, p) <= QueuedTimes(locks, p)
  {
    var n := |locks| - 1;
    if l == n {
      assert locks[l := k][..n] == locks[..n];
    } else {
      assert locks[l := k][..n] == locks[..n][l := k];
      QueuedUpdate(locks[..n], l, k, p);
    }
  }

  // A process that was passed over is kept or cleaned up, once, by its state.
  lemma {:induction false} PassedOver(status: map<Pid, Status>, ps: seq<Pid>, p: Pid)
    requires Known(status, ps) && p in status
    ensures Count(Kept(status, ps), p) == if status[p] == Zombie then 0 else Count(ps, p)
    ensures Count(Zombies(status, ps), p) == if status[p] == Zombie then Count(ps, p) else 0
  {
    hide Count;
    CountNothing(p);
    if |ps| > 0 {
      var n := |ps| - 1;
      var x := ps[n];
      PassedOver(status, ps[..n], p);
      CountSplit(ps, n, p);
      CountAppend(Kept(status, ps[..n]), if status[x].Zombie? then [] else [x], p);
      CountAppend(Zombies(status, ps[..n]), if status[x].Zombie? then [x] else [], p);
      CountOne(x, p);
      assert ps[n + 1..] == [];
    }
  }

  lemma CountNothing(p: Pid)
    ensures Count([], p) == 0
  {
  }

  lemma {:induction false} KeptAreKnown(status: map<Pid, Status>, ps: seq<Pid>, p: Pid)
    requires Known(status, ps) && p !in status
    ensures Count(ps, p) == Count(Kept(status, ps), p) == Count(Zombies(status, ps), p) == 0
  {
    CountIn(ps, p);
    if |ps| > 0 {
      var n := |ps| - 1;
      KeptAreKnown(status, ps[..n], p);
      CountAppend(Kept(status, ps[..n]), if status[ps[n]].Zombie? then [] else [ps[n]], p);
      CountAppend(Zombies(status, ps[..n]), if status[ps[n]].Zombie? then [ps[n]] else [], p);
      CountOne(ps[n], p);
      CountNothing(p);
    }
  }

  // ----- dispatching keeps every process in its one place -----

  lemma DispatchTimes(s: System, tick: nat, p: Pid)
    requires CanDispatch(s, tick) && s.running.None?
    ensures Times(Dispatch(s, tick), p) == Times(s, p)
  {
    var i := First(s.status, s.ready, tick);
    var front, back := s.ready[..i], s.ready[i + 1..];
    CountSplit(s.ready, i, p);
    CountAppend(back, Kept(s.status, front), p);
    CountAppend(s.cleanup, Zombies(s.status, front), p);
    if p in s.status {
      PassedOver(s.status, front, p);
    } else {
      KeptAreKnown(s.status, front, p);
    }
    hide First, Kept, Zombies, QueuedTimes, Count;
  }

  lemma DispatchStates(s: System, tick: nat, p: Pid)
    requires CanDispatch(s, tick) && s.running.None? && p in s.status && Times(s, p) == 1 && StateSound(s, p)
    ensures p in Dispatch(s, tick).status && StateSound(Dispatch(s, tick), p)
  {
    var i := First(s.status, s.ready, tick);
    var front, back := s.ready[..i], s.ready[i + 1..];
    CountSplit(s.ready, i, p);
    CountAppend(back, Kept(s.status, front), p);
    CountAppend(s.cleanup, Zombies(s.status, front), p);
    PassedOver(s.status, front, p);
    DispatchTimes(s, tick, p);
    hide First, Kept, Zombies, QueuedTimes, Count;
  }

  lemma DispatchKeeps(s: System, tick: nat)
    requires Inv(s) && CanDispatch(s, tick) && s.running.None?
    ensures Inv(Dispatch(s, tick))
  {
    hide First, Kept, Zombies, Times, StateSound, LockSound;
    var s' := Dispatch(s, tick);
    ReadyIsKnown(s, First(s.status, s.ready, tick));
    assert s'.status.Keys == s.status.Keys && s'.locks == s.locks;
    forall p
      ensures Times(s', p) == if p in s'.status then 1 else 0
      ensures p in s'.status ==> StateSound(s', p)
    {
      DispatchTimes(s, tick, p);
      if p in s.status {
        DispatchStates(s, tick, p);
      }
    }
  }

  lemma ReadyIsKnown(s: System, i: nat)
    requires Placed(s)
    ensures i < |s.ready| ==> s.ready[i] in s.status
    ensures s.running.Some? ==> s.running.value in s.status
  {
    hide QueuedTimes;
    if i < |s.ready| {
      var p := s.ready[i];
      CountHas(s.ready, i);
      assert Times(s, p) > 0;
    }
    if s.running.Some? {
      assert Times(s, s.running.value) > 0;
    }
  }

  // ----- the other operations -----

  // The running process, whose state may change meanwhile, goes to the end of the queue.
  lemma RequeueKeeps(s: System, st: Status)
    requires Inv(s) && s.running.Some? && st != Blocked
    ensures Inv(Requeued(s.(status := s.status[s.running.value := st])))
  {
    var x := s.running.value;
    var s' := Requeued(s.(status := s.status[x := st]));
    hide Count, QueuedTimes;
    ReadyIsKnown(s, |s.ready|);
    forall p
      ensures Times(s', p) == if p in s'.status then 1 else 0
      ensures p in s'.status ==> StateSound(s', p)
    {
      CountAppend(s.ready, [x], p);
      CountOne(x, p);
      assert Times(s, p) == if p in s.status then 1 else 0;
      assert p in s.status ==> StateSound(s, p);
    }
  }

  lemma YieldKeeps(s: System)
    requires Inv(s) && s.running.Some?
    ensures Inv(Requeued(s))
  {
    ReadyIsKnown(s, |s.ready|);
    var x := s.running.value;
    assert StateSound(s, x);
    assert s.status[x := Running] == s.status;
    hide Inv, Placed;
    RequeueKeeps(s, Running);
    assert s.(status := s.status[x := Running]) == s;
  }

  lemma WaitKeeps(s: System, l: nat)
    requires Inv(s) && s.running.Some? && l < |s.locks| && s.locks[l].locked
    ensures Inv(Waiting(s, l))
  {
    var x, k, s' := s.running.value, s.locks[l], Waiting(s, l);
    hide Count, QueuedTimes;
    ReadyIsKnown(s, |s.ready|);
    forall p
      ensures Times(s', p) == if p in s'.status then 1 else 0
      ensures p in s'.status ==> StateSound(s', p)
    {
      QueuedUpdate(s.locks, l, s'.locks[l], p);
      CountAppend(k.blocked, [x], p);
      CountOne(x, p);
      assert Times(s, p) == if p in s.status then 1 else 0;
      assert p in s.status ==> StateSound(s, p);
    }
  }

  lemma TakeKeeps(s: System, l: nat)
    requires Inv(s) && s.running.Some? && l < |s.locks| && !s.locks[l].locked
    ensures Inv(Taken(s, l))
  {
    var s' := Taken(s, l);
    hide Count, QueuedTimes;
    assert LockSound(s.locks[l]);
    forall p
      ensures QueuedTimes(s'.locks, p) == QueuedTimes(s.locks, p) && Times(s', p) == Times(s, p)
    {
      QueuedUpdate(s.locks, l, s'.locks[l], p);
    }
  }

  lemma ReleaseKeeps(s: System, l: nat)
    requires Inv(s) && s.running.Some? && l < |s.locks| && s.locks[l].owner == s.running
    ensures Inv(Released(s, l))
  {
    hide Count, QueuedTimes;
    var k, s' := s.locks[l], Released(s, l);
    assert LockSound(k);
    if |k.blocked| > 0 {
      var x := k.blocked[0];
      assert k.blocked == [x] + k.blocked[1..];
      WaiterIsKnown(s, l, 0);
      forall p
        ensures Times(s', p) == if p in s'.status then 1 else 0
        ensures p in s'.status ==> StateSound(s', p)
      {
        QueuedUpdate(s.locks, l, s'.locks[l], p);
        CountAppend([x], k.blocked[1..], p);
        CountAppend(s.ready, [x], p);
        CountOne(x, p);
        assert Times(s, p) == if p in s.status then 1 else 0;
        assert p in s.status ==> StateSound(s, p);
      }
    } else {
      forall p
        ensures QueuedTimes(s'.locks, p) == QueuedTimes(s.locks, p) && Times(s', p) == Times(s, p)
      {
        QueuedUpdate(s.locks, l, s'.locks[l], p);
      }
    }
  }

  // A waiting process is known, blocked, and not running.
  lemma WaiterIsKnown(s: System, l: nat, i: nat)
    requires Placed(s) && l < |s.locks| && i < |s.locks[l].blocked|
    ensures var p := s.locks[l].blocked[i];
      p in s.status && QueuedTimes(s.locks, p) == 1 && s.running != Some(p) && Count(s.ready, p) == 0 && Count(s.cleanup, p) == 0
  {
    var p := s.locks[l].blocked[i];
    CountHas(s.locks[l].blocked, i);
    QueuedUpdate(s.locks, l, s.locks[l], p);
    hide Count, QueuedTimes;
    assert Times(s, p) == if p in s.status then 1 else 0;
  }

  lemma CreateKeeps(s: System, x: Pid)
    requires Inv(s) && x !in s.status
    ensures Inv(s.(status := s.status[x := New], ready := s.ready + [x]))
  {
    var s' := s.(status := s.status[x := New], ready := s.ready + [x]);
    hide Count, QueuedTimes;
    forall p
      ensures Times(s', p) == if p in s'.status then 1 else 0
      ensures p in s'.status ==> StateSound(s', p)
    {
      CountAppend(s.ready, [x], p);
      CountOne(x, p);
      assert Times(s, p) == if p in s.status then 1 else 0;
      assert p in s.status ==> StateSound(s, p);
    }
  }

  lemma KillKeeps(s: System, x: Pid)
    requires Inv(s) && x in s.ready && x in s.status
    ensures Inv(s.(status := s.status[x := Zombie]))
  {
    var s' := s.(status := s.status[x := Zombie]);
    CountIn(s.ready, x);
    hide Count, QueuedTimes;
    forall p
      ensures Times(s', p) == Times(s, p) && (p in s'.status ==> StateSound(s', p))
    {
      assert Times(s, p) == if p in s.status then 1 else 0;
      assert p in s.status ==> StateSound(s, p);
    }
  }

  // Every step keeps the invariant.
  lemma StepKeeps(s: System, e: Event, s': System)
    requires Inv(s) && Step(s, e, s')
    ensures Inv(s')
  {
    hide Inv, CanDispatch, Dispatch;
    match e
    case Yield(tick) => YieldKeeps(s); DispatchKeeps(Requeued(s), tick);
    case Sleep(tick, time) =>
      RequeueKeeps(s, Sleeping((tick + time) % 65536));
      DispatchKeeps(Requeued(Falling(s, tick, time)), tick);
    case Exit(tick) => RequeueKeeps(s, Zombie); DispatchKeeps(Requeued(Dying(s)), tick);
    case Acquire(l, tick) =>
      if s.locks[l].locked {
        WaitKeeps(s, l);
        DispatchKeeps(Waiting(s, l), tick);
      } else {
        TakeKeeps(s, l);
      }
    case Release(l) => ReleaseKeeps(s, l);
    case Create(p) => CreateKeeps(s, p);
    case Kill(p) => KillKeeps(s, p);
  }

  // The main invariant of the scheduler, over every run.
  lemma {:induction false} RunKeeps(ss: seq<System>, es: seq<Event>, n: nat)
    requires Run(ss, es) && Inv(ss[0]) && n <= |es|
    ensures Inv(ss[n])
  {
    hide Inv, Step;
    if n > 0 {
      RunKeeps(ss, es, n - 1);
      assert Step(ss[n - 1], es[n - 1], ss[n - 1 + 1]);
      StepKeeps(ss[n - 1], es[n - 1], ss[n]);
    }
  }

  // ----- cleaning up -----

  // A process handed to the cleanup routine is handed over once, and is nowhere else.
  lemma CleanedUpOnce(s: System, p: Pid)
    requires Inv(s) && p in s.cleanup
    ensures Count(s.cleanup, p) == 1 && s.running != Some(p) && p !in s.ready && QueuedTimes(s.locks, p) == 0
    ensures p in s.status && s.status[p] == Zombie
  {
    CountIn(s.cleanup, p);
    CountIn(s.ready, p);
    hide Count, QueuedTimes;
    assert Times(s, p) == if p in s.status then 1 else 0;
    assert p in s.status ==> StateSound(s, p);
  }

  lemma StepKeepsCleaned(s: System, e: Event, s': System, p: Pid)
    requires Step(s, e, s') && p in s.cleanup
    ensures p in s'.cleanup
  {
    hide First, Kept, Zombies, CanDispatch;
  }

  // It stays there over every run: a dead process never comes back to a queue.
  lemma {:induction false} RunKeepsCleaned(ss: seq<System>, es: seq<Event>, m: nat, n: nat, p: Pid)
    requires Run(ss, es) && Inv(ss[0]) && m <= n <= |es| && p in ss[m].cleanup
    ensures p in ss[n].cleanup && Count(ss[n].cleanup, p) == 1
    ensures ss[n].running != Some(p) && p !in ss[n].ready && QueuedTimes(ss[n].locks, p) == 0
    decreases n
  {
    hide Inv, Step;
    if m < n {
      RunKeepsCleaned(ss, es, m, n - 1, p);
      assert Step(ss[n - 1], es[n - 1], ss[n - 1 + 1]);
      StepKeepsCleaned(ss[n - 1], es[n - 1], ss[n], p);
    }
    RunKeeps(ss, es, n);
    CleanedUpOnce(ss[n], p);
  }

  // ----- hand-off in order of arrival -----

  // The process at position `k` of a mutex queue moves up with every release of the mutex,
  // and with nothing else; from the front it becomes the owner and is ready to run.
  lemma WaiterAdvances(s: System, e: Event, s': System, l: nat, k: nat)
    requires Inv(s) && Step(s, e, s') && l < |s.locks| && k < |s.locks[l].blocked|
    ensures |s'.locks| == |s.locks|
    ensures var p := s.locks[l].blocked[k];
      if e == Release(l) then
        if k == 0 then s'.locks[l].owner == Some(p) && s'.locks[l].locked && p in s'.ready && p in s'.status && s'.status[p] == Running
        else k - 1 < |s'.locks[l].blocked| && s'.locks[l].blocked[k - 1] == p && s'.locks[l].owner == Some(s.locks[l].blocked[0])
      else k < |s'.locks[l].blocked| && s'.locks[l].blocked[k] == p && s'.locks[l].owner == s.locks[l].owner
  {
    assert LockSound(s.locks[l]);
    hide First, Kept, Zombies, CanDispatch, QueuedTimes, Count;
  }

  function Releases(es: seq<Event>, l: nat, n: nat): nat
    requires n <= |es|
  {
    if n == 0 then 0 else Releases(es, l, n - 1) + if es[n - 1] == Release(l) then 1 else 0
  }

  // Over every run, a waiting process has moved up by the number of releases, so the next
  // release after `k` of them is its turn.
  lemma {:induction false} WaitersMoveUp(ss: seq<System>, es: seq<Event>, n: nat, l: nat, k: nat)
    requires Run(ss, es) && Inv(ss[0]) && n <= |es| && l < |ss[0].locks| && k < |ss[0].locks[l].blocked|
    requires Releases(es, l, n) <= k
    ensures |ss[n].locks| == |ss[0].locks| && k - Releases(es, l, n) < |ss[n].locks[l].blocked|
    ensures ss[n].locks[l].blocked[k - Releases(es, l, n)] == ss[0].locks[l].blocked[k]
  {
    hide Inv, Step;
    if n > 0 {
      WaitersMoveUp(ss, es, n - 1, l, k);
      assert Step(ss[n - 1], es[n - 1], ss[n - 1 + 1]);
      RunKeeps(ss, es, n - 1);
      WaiterAdvances(ss[n - 1], es[n - 1], ss[n], l, k - Releases(es, l, n - 1));
    }
  }

  // ----- a queue in which nothing can run -----

  // What `n` pops make of a queue, as long as there is something to pop.
  function PassMany(s: System, n: nat): (t: System)
    requires Known(s.status, s.ready)
    ensures t.status == s.status && Known(t.status, t.ready)
  {
    if n == 0 then s else
    var t := PassMany(s, n - 1);
    if |t.ready| == 0 then t else Pass(t)
  }

  // When no queued process can be dispatched, none is found however often the loop turns:
  // it ends exactly when some process can be.
  lemma {:induction false} NothingIsFound(s: System, tick: nat, n: nat)
    requires Known(s.status, s.ready) && !CanDispatch(s, tick)
    ensures var t := PassMany(s, n);
      !CanDispatch(t, tick) && (|t.ready| > 0 ==> !Dispatchable(t.status[t.ready[0]], tick))
  {
    if n > 0 {
      NothingIsFound(s, tick, n - 1);
      var t := PassMany(s, n - 1);
      if |t.ready| > 0 {
        PassFindsNothing(t, tick);
      }
    }
  }

  lemma PassFindsNothing(s: System, tick: nat)
    requires Known(s.status, s.ready) && !CanDispatch(s, tick) && |s.ready| > 0
    ensures var t := Pass(s); t.status == s.status && Known(t.status, t.ready) && !CanDispatch(t, tick)
  {
    var t := Pass(s);
    assert t.status == s.status && Known(t.status, t.ready);
    hide Pass;
    if CanDispatch(t, tick) {
      var p := t.ready[First(t.status, t.ready, tick)];
      PassKeeps(s, p);
    }
  }

  lemma PassKeeps(s: System, p: Pid)
    requires Known(s.status, s.ready) && |s.ready| > 0 && p in Pass(s).ready
    ensures p in s.ready
  {
  }

  // ----- bounded waiting -----

  // The loop of a scheduling call pops no further than to any process that can run.
  lemma DispatchIsBounded(s: System, tick: nat, k: nat)
    requires CanDispatch(s, tick) && k < |s.ready| && Dispatchable(s.status[s.ready[k]], tick)
    ensures First(s.status, s.ready, tick) <= k
  {
  }

  lemma {:induction false} KeptLength(status: map<Pid, Status>, ps: seq<Pid>)
    requires Known(status, ps)
    ensures |Kept(status, ps)| <= |ps|
  {
    if |ps| > 0 {
      KeptLength(status, ps[..|ps| - 1]);
    }
  }

  // A call at any tick after `w` can dispatch the process at position `k`; with -1, any call.
  predicate Runnable(s: System, p: Pid, k: nat, w: int) {
    && k < |s.ready| && s.ready[k] == p && p in s.status
    && (s.status[p] == Running || s.status[p] == New || (s.status[p].Sleeping? && s.status[p].wake <= w))
  }

  // The event makes no scheduling call, or one after the tick `w`.
  predicate Late(s: System, e: Event, w: int) {
    Schedules(s, e) ==> e.tick > w
  }

  // In a dispatch, a runnable process at position `k` is dispatched, or moves up.
  lemma DispatchAdvances(s: System, tick: nat, p: Pid, k: nat, w: int)
    requires CanDispatch(s, tick) && Runnable(s, p, k, w) && Count(s.ready, p) == 1 && tick > w
    ensures var s' := Dispatch(s, tick);
      s'.running == Some(p) || exists j :: 0 <= j < k && Runnable(s', p, j, w)
  {
    var i := First(s.status, s.ready, tick);
    DispatchIsBounded(s, tick, k);
    if i < k {
      var s' := Dispatch(s, tick);
      hide First, Kept, Zombies;
      assert s'.ready[k - i - 1] == s.ready[i + 1..][k - i - 1] == p;
      assert Runnable(s', p, k - i - 1, w);
    }
  }

  // One step: a runnable process that is not killed runs, or keeps its position, or moves up
  // if the step schedules.
  lemma StepAdvances(s: System, e: Event, s': System, p: Pid, k: nat, w: int)
    requires Inv(s) && Step(s, e, s') && Runnable(s, p, k, w) && e != Kill(p) && Late(s, e, w)
    ensures s'.running == Some(p) || exists j :: 0 <= j <= k && (Schedules(s, e) ==> j < k) && Runnable(s', p, j, w)
  {
    QueuedOnce(s, p, k);
    hide First, Kept, Zombies, Inv, Dispatch, CanDispatch;
    match e
    case Yield(tick) => RequeuedAdvances(s, tick, p, k, w);
    case Sleep(tick, time) => RequeuedAdvances(Falling(s, tick, time), tick, p, k, w);
    case Exit(tick) => RequeuedAdvances(Dying(s), tick, p, k, w);
    case Acquire(l, tick) =>
      if s.locks[l].locked {
        DispatchAdvances(Waiting(s, l), tick, p, k, w);
      } else {
        assert Runnable(s', p, k, w);
      }
    case Release(l) => assert Runnable(s', p, k, w);
    case Create(q) => assert Runnable(s', p, k, w);
    case Kill(q) => assert Runnable(s', p, k, w);
  }

  // A process in the ready queue is nowhere else.
  lemma QueuedOnce(s: System, p: Pid, k: nat)
    requires Inv(s) && k < |s.ready| && s.ready[k] == p && p in s.status
    ensures Count(s.ready, p) == 1 && s.running != Some(p)
    ensures forall l :: 0 <= l < |s.locks| ==> Count(s.locks[l].blocked, p) == 0
  {
    CountHas(s.ready, k);
    hide Count, QueuedTimes;
    assert Times(s, p) == 1;
    forall l | 0 <= l < |s.locks|
      ensures Count(s.locks[l].blocked, p) == 0
    {
      QueuedUpdate(s.locks, l, s.locks[l], p);
    }
  }

  lemma RequeuedAdvances(s: System, tick: nat, p: Pid, k: nat, w: int)
    requires s.running.Some? && s.running != Some(p) && Runnable(s, p, k, w) && Count(s.ready, p) == 1
    requires CanDispatch(Requeued(s), tick) && tick > w
    ensures var s' := Dispatch(Requeued(s), tick);
      s'.running == Some(p) || exists j :: 0 <= j < k && Runnable(s', p, j, w)
  {
    hide Dispatch, CanDispatch;
    CountAppend(s.ready, [s.running.value], p);
    CountOne(s.running.value, p);
    DispatchAdvances(Requeued(s), tick, p, k, w);
  }

  // The scheduling calls among the first `n` events of a run.
  function Calls(ss: seq<System>, es: seq<Event>, n: nat): nat
    requires n <= |es| < |ss|
  {
    if n == 0 then 0 else Calls(ss, es, n - 1) + if Schedules(ss[n - 1], es[n - 1]) then 1 else 0
  }

  // A runnable process at position `k` that is not killed is dispatched within k + 1
  // scheduling calls, whatever else happens; one that sleeps, when they come after its tick.
  lemma {:induction false} BoundedWaiting(ss: seq<System>, es: seq<Event>, n: nat, p: Pid, k: nat, w: int)
    requires Run(ss, es) && Inv(ss[0]) && Runnable(ss[0], p, k, w) && n <= |es|
    requires forall i :: 0 <= i < n ==> es[i] != Kill(p) && Late(ss[i], es[i], w)
    requires Calls(ss, es, n) > k
    ensures exists i :: 0 <= i <= n && ss[i].running == Some(p)
  {
    if forall i :: 0 <= i <= n ==> ss[i].running != Some(p) {
      var _ := StillWaiting(ss, es, n, p, k, w);
      assert false;
    }
  }

  lemma {:induction false} StillWaiting(ss: seq<System>, es: seq<Event>, n: nat, p: Pid, k: nat, w: int)
    returns (j: nat)
    requires Run(ss, es) && Inv(ss[0]) && Runnable(ss[0], p, k, w) && n <= |es|
    requires forall i :: 0 <= i < n ==> es[i] != Kill(p) && Late(ss[i], es[i], w)
    requires forall i :: 0 <= i <= n ==> ss[i].running != Some(p)
    ensures j + Calls(ss, es, n) <= k && Runnable(ss[n], p, j, w)
  {
    hide Inv, Step, Runnable, Schedules, Late;
    j := k;
    if n > 0 {
      var i := StillWaiting(ss, es, n - 1, p, k, w);
      assert Step(ss[n - 1], es[n - 1], ss[n - 1 + 1]);
      RunKeeps(ss, es, n - 1);
      StepAdvances(ss[n - 1], es[n - 1], ss[n], p, i, w);
      j :| 0 <= j <= i && (Schedules(ss[n - 1], es[n - 1]) ==> j < i) && Runnable(ss[n], p, j, w);
    }
  }
}
