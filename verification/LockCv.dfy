/**
 Sleep locks and condition variables (kern/thread/synch.c): one lock and one
 condition variable used with it, by any number of threads. A step is one
 section under lk_spinlock, or under cv_spinlock where cv_wait has to keep
 that spinlock over several sections.
 */
module LockCv {

  type Tid = nat

  import opened KernLib

  /**
   Out: neither holds nor waits. WantLock: about to run a section of
   lock_acquire. LockAsleep, LockWoken: on lk_wchan, and taken off it. Critical:
   holds the lock. CvEntered: in cv_wait, has cv_spinlock, still holds the
   lock. CvReleased: has released the lock, still has cv_spinlock. CvAsleep,
   CvWoken: on cv_wchan, and taken off it.
   */
  datatype Pc = Out | WantLock | LockAsleep | LockWoken | Critical | CvEntered | CvReleased | CvAsleep | CvWoken

  /** waiting: the threads inside cv_wait that have released the lock. */
  datatype State = State(locked: bool, holder: Option<Tid>, lkChan: seq<Tid>, cvChan: seq<Tid>,
                         cvSpin: Option<Tid>, pc: map<Tid, Pc>, waiting: set<Tid>)

  datatype Step =
    | CallAcquire(t: Tid)
    | Acquire(t: Tid)
    | Release(t: Tid)
    | CvEnter(t: Tid)
    | CvRelease(t: Tid)
    | CvSleep(t: Tid)
    | CvResume(t: Tid)
    | Signal(t: Tid)
    | Broadcast(t: Tid)

  predicate At(s: State, t: Tid, p: Pc) { t in s.pc && s.pc[t] == p }

  /** Between acquiring the lock and releasing it. */
  predicate HoldsLock(p: Pc) { p == Critical || p == CvEntered }

  predicate Holds(s: State, t: Tid) { t in s.pc && HoldsLock(s.pc[t]) }

  predicate HoldsSpin(p: Pc) { p == CvEntered || p == CvReleased }

  predicate Enabled(s: State, step: Step) {
    match step
    case CallAcquire(t) => At(s, t, Out)
    case Acquire(t) => At(s, t, WantLock) || At(s, t, LockWoken)
    case Release(t) => At(s, t, Critical)
    case CvEnter(t) => At(s, t, Critical) && s.cvSpin == None
    case CvRelease(t) => At(s, t, CvEntered)
    case CvSleep(t) => At(s, t, CvReleased)
    case CvResume(t) => At(s, t, CvWoken) && s.cvSpin == None
    case Signal(t) => At(s, t, Critical) && s.cvSpin == None
    case Broadcast(t) => At(s, t, Critical) && s.cvSpin == None
  }

  /** lock_release: free the lock and wake one sleeper. */
  function Unlock(s: State): State {
    var s1 := s.(locked := false, holder := None);
    if s.lkChan == [] then s1
    else s1.(lkChan := s.lkChan[1..], pc := s.pc[s.lkChan[0] := LockWoken])
  }

  /** wchan_wakeall on the condition variable's channel. */
  function WakeAll(pc: map<Tid, Pc>, chan: seq<Tid>): map<Tid, Pc> {
    map t | t in pc :: if t in chan then CvWoken else pc[t]
  }

  function Apply(s: State, step: Step): State
    requires Enabled(s, step)
  {
    match step
    case CallAcquire(t) => s.(pc := s.pc[t := WantLock])
    case Acquire(t) =>
      if s.locked then s.(lkChan := s.lkChan + [t], pc := s.pc[t := LockAsleep])
      else s.(locked := true, holder := Some(t), pc := s.pc[t := Critical], waiting := s.waiting - {t})
    case Release(t) => Unlock(s.(pc := s.pc[t := Out]))
    case CvEnter(t) => s.(cvSpin := Some(t), pc := s.pc[t := CvEntered])
    case CvRelease(t) => Unlock(s.(pc := s.pc[t := CvReleased], waiting := s.waiting + {t}))
    case CvSleep(t) => s.(cvChan := s.cvChan + [t], cvSpin := None, pc := s.pc[t := CvAsleep])
    case CvResume(t) => s.(pc := s.pc[t := WantLock])
    case Signal(t) =>
      if s.cvChan == [] then s else s.(cvChan := s.cvChan[1..], pc := s.pc[s.cvChan[0] := CvWoken])
    case Broadcast(t) => s.(cvChan := [], pc := WakeAll(s.pc, s.cvChan))
  }

  // ------------------------------------------------------------------
  // The invariant

  ghost predicate Chan(q: seq<Tid>, pc: map<Tid, Pc>, p: Pc) {
    && (forall i, j :: 0 <= i < j < |q| ==> q[i] != q[j])
    && (forall i :: 0 <= i < |q| ==> q[i] in pc && pc[q[i]] == p)
    && (forall t :: t in pc && pc[t] == p ==> t in q)
  }

  /** lk_lock and lk_holder name exactly the thread that holds the lock. */
  ghost predicate HolderOk(s: State) {
    && (s.locked <==> s.holder.Some?)
    && (s.holder.Some? ==> Holds(s, s.holder.value))
    && (forall t :: t in s.pc && HoldsLock(s.pc[t]) ==> s.holder == Some(t))
  }

  /** cv_spinlock is held across sections only by a thread inside cv_wait. */
  ghost predicate SpinOk(s: State) {
    && (s.cvSpin.Some? ==> s.cvSpin.value in s.pc && HoldsSpin(s.pc[s.cvSpin.value]))
    && (forall t :: t in s.pc && HoldsSpin(s.pc[t]) ==> s.cvSpin == Some(t))
  }

  ghost predicate NoLostWakeup(s: State) {
    !s.locked && s.lkChan != [] ==> exists t :: t in s.pc && s.pc[t] == LockWoken
  }

  predicate InWait(p: Pc) {
    p == CvReleased || p == CvAsleep || p == CvWoken || p == WantLock || p == LockAsleep || p == LockWoken
  }

  ghost predicate WaitingOk(s: State) {
    && (forall t :: t in s.waiting ==> t in s.pc && InWait(s.pc[t]))
    && (forall t :: t in s.pc && (s.pc[t] == CvReleased || s.pc[t] == CvAsleep || s.pc[t] == CvWoken) ==>
          t in s.waiting)
  }

  ghost predicate Inv(s: State) {
    && Chan(s.lkChan, s.pc, LockAsleep) && Chan(s.cvChan, s.pc, CvAsleep)
    && HolderOk(s) && SpinOk(s) && NoLostWakeup(s) && WaitingOk(s)
  }

  lemma ChanAdd(q: seq<Tid>, pc: map<Tid, Pc>, p: Pc, t: Tid)
    requires Chan(q, pc, p) && t in pc && pc[t] != p
    ensures Chan(q + [t], pc[t := p], p)
  {
    var q2, pc2 := q + [t], pc[t := p];
    forall u | u in pc2 && pc2[u] == p ensures u in q2 {
      if u == t { assert q2[|q|] == t; } else { assert u in q; }
    }
  }

  lemma ChanDrop(q: seq<Tid>, pc: map<Tid, Pc>, p: Pc, p2: Pc)
    requires Chan(q, pc, p) && q != [] && p2 != p
    ensures Chan(q[1..], pc[q[0] := p2], p)
  {
    var q2, pc2 := q[1..], pc[q[0] := p2];
    forall u | u in pc2 && pc2[u] == p ensures u in q2 {
      var i :| 0 <= i < |q| && q[i] == u;
      assert q2[i - 1] == u;
    }
  }

  lemma ChanOther(q: seq<Tid>, pc: map<Tid, Pc>, p: Pc, t: Tid, p2: Pc)
    requires Chan(q, pc, p) && t in pc && pc[t] != p && p2 != p
    ensures Chan(q, pc[t := p2], p)
  {
  }

  lemma AcquireKeeps(s: State, t: Tid)
    requires Inv(s) && Enabled(s, Acquire(t))
    ensures Inv(Apply(s, Acquire(t)))
  {
    var s2 := Apply(s, Acquire(t));
    if s.locked {
      ChanAdd(s.lkChan, s.pc, LockAsleep, t);
      ChanOther(s.cvChan, s.pc, CvAsleep, t, LockAsleep);
    } else {
      ChanOther(s.lkChan, s.pc, LockAsleep, t, Critical);
      ChanOther(s.cvChan, s.pc, CvAsleep, t, Critical);
    }
  }

  /** lock_release by the holder, whatever it does next. */
  lemma UnlockKeeps(s: State, t: Tid, p: Pc)
    requires Chan(s.lkChan, s.pc, LockAsleep) && Chan(s.cvChan, s.pc, CvAsleep)
    requires At(s, t, p) && (p == Out || p == CvReleased) && WaitingOk(s) && SpinOk(s)
    requires forall u :: u in s.pc ==> !HoldsLock(s.pc[u])
    ensures Inv(Unlock(s))
  {
    var s2 := Unlock(s);
    if s.lkChan != [] {
      ChanDrop(s.lkChan, s.pc, LockAsleep, LockWoken);
      ChanOther(s.cvChan, s.pc, CvAsleep, s.lkChan[0], LockWoken);
      assert s2.pc[s.lkChan[0]] == LockWoken;
    }
  }

  lemma ReleaseKeeps(s: State, t: Tid)
    requires Inv(s) && Enabled(s, Release(t))
    ensures Inv(Apply(s, Release(t)))
  {
    var s1 := s.(pc := s.pc[t := Out]);
    ChanOther(s.lkChan, s.pc, LockAsleep, t, Out);
    ChanOther(s.cvChan, s.pc, CvAsleep, t, Out);
    assert s.holder == Some(t);
    UnlockKeeps(s1, t, Out);
  }

  lemma CvReleaseKeeps(s: State, t: Tid)
    requires Inv(s) && Enabled(s, CvRelease(t))
    ensures Inv(Apply(s, CvRelease(t)))
  {
    var s1 := s.(pc := s.pc[t := CvReleased], waiting := s.waiting + {t});
    ChanOther(s.lkChan, s.pc, LockAsleep, t, CvReleased);
    ChanOther(s.cvChan, s.pc, CvAsleep, t, CvReleased);
    assert s.holder == Some(t) && s.cvSpin == Some(t);
    UnlockKeeps(s1, t, CvReleased);
  }

  lemma PcStepKeeps(s: State, step: Step)
    requires Inv(s) && Enabled(s, step) && (step.CallAcquire? || step.CvEnter? || step.CvResume?)
    ensures Inv(Apply(s, step))
  {
    var t, s2 := step.t, Apply(s, step);
    ChanOther(s.lkChan, s.pc, LockAsleep, t, s2.pc[t]);
    ChanOther(s.cvChan, s.pc, CvAsleep, t, s2.pc[t]);
    if NoLostWakeup(s) && !s.locked && s.lkChan != [] {
      var w :| w in s.pc && s.pc[w] == LockWoken;
      assert s2.pc[w] == LockWoken;
    }
  }

  lemma CvSleepKeeps(s: State, t: Tid)
    requires Inv(s) && Enabled(s, CvSleep(t))
    ensures Inv(Apply(s, CvSleep(t)))
  {
    var s2 := Apply(s, CvSleep(t));
    ChanAdd(s.cvChan, s.pc, CvAsleep, t);
    ChanOther(s.lkChan, s.pc, LockAsleep, t, CvAsleep);
    if !s.locked && s.lkChan != [] {
      var w :| w in s.pc && s.pc[w] == LockWoken;
      assert s2.pc[w] == LockWoken;
    }
    assert s.cvSpin == Some(t);
  }

  lemma SignalKeeps(s: State, t: Tid)
    requires Inv(s) && Enabled(s, Signal(t))
    ensures Inv(Apply(s, Signal(t)))
  {
    assert s.holder == Some(t) && s.locked;
    if s.cvChan != [] {
      ChanDrop(s.cvChan, s.pc, CvAsleep, CvWoken);
      ChanOther(s.lkChan, s.pc, LockAsleep, s.cvChan[0], CvWoken);
    }
  }

  lemma BroadcastKeeps(s: State, t: Tid)
    requires Inv(s) && Enabled(s, Broadcast(t))
    ensures Inv(Apply(s, Broadcast(t)))
  {
    var s2 := Apply(s, Broadcast(t));
    assert s.holder == Some(t) && s.locked;
    assert forall u :: u in s.cvChan ==> At(s, u, CvAsleep);
    assert Chan(s2.lkChan, s2.pc, LockAsleep);
  }

  lemma StepKeeps(s: State, step: Step)
    requires Inv(s) && Enabled(s, step)
    ensures Inv(Apply(s, step))
  {
    match step
    case CallAcquire(_) => PcStepKeeps(s, step);
    case Acquire(t) => AcquireKeeps(s, t);
    case Release(t) => ReleaseKeeps(s, t);
    case CvEnter(_) => PcStepKeeps(s, step);
    case CvRelease(t) => CvReleaseKeeps(s, t);
    case CvSleep(t) => CvSleepKeeps(s, t);
    case CvResume(_) => PcStepKeeps(s, step);
    case Signal(t) => SignalKeeps(s, t);
    case Broadcast(t) => BroadcastKeeps(s, t);
  }

  // ------------------------------------------------------------------
  // All runs

  ghost predicate Init(s: State) {
    && !s.locked && s.holder == None && s.lkChan == [] && s.cvChan == [] && s.cvSpin == None && s.waiting == {}
    && forall t :: t in s.pc ==> s.pc[t] == Out
  }

  ghost predicate IsRun(s: State, run: seq<Step>)
    decreases |run|
  {
    run == [] || (Enabled(s, run[0]) && IsRun(Apply(s, run[0]), run[1..]))
  }

  ghost function After(s: State, run: seq<Step>): State
    requires IsRun(s, run)
    decreases |run|
  {
    if run == [] then s else After(Apply(s, run[0]), run[1..])
  }

  lemma {:induction false} RunKeeps(s: State, run: seq<Step>)
    requires Inv(s) && IsRun(s, run)
    ensures Inv(After(s, run))
    decreases |run|
  {
    if run != [] {
      StepKeeps(s, run[0]);
      RunKeeps(Apply(s, run[0]), run[1..]);
    }
  }

  /** Over every run: at most one thread is between acquiring and releasing,
      lk_holder names it, and a free lock with sleepers has a woken thread
      still to look at it. */
  lemma MutualExclusion(s: State, run: seq<Step>)
    requires Init(s) && IsRun(s, run)
    ensures var s2 := After(s, run);
      && (forall t, u :: Holds(s2, t) && Holds(s2, u) ==> t == u)
      && (forall t: Tid :: Holds(s2, t) ==> s2.locked && s2.holder == Some(t))
      && NoLostWakeup(s2)
  {
    RunKeeps(s, run);
  }

  /** The threads a signal or broadcast is meant for: they have released the
      lock in cv_wait and nobody has woken them yet. */
  ghost function Waiters(s: State): set<Tid> { set t | t in s.pc && (s.pc[t] == CvReleased || s.pc[t] == CvAsleep) }

  lemma EveryWaiterOnChannel(s: State, t: Tid)
    requires Inv(s) && Enabled(s, Signal(t))
    ensures Waiters(s) == (set u | u in s.cvChan)
  {
    assert forall u :: u in s.pc ==> s.pc[u] != CvReleased;
    assert forall u :: u in s.cvChan ==> u in s.pc && s.pc[u] == CvAsleep;
  }

  lemma BroadcastWakesAll(s: State, t: Tid)
    requires Inv(s) && Enabled(s, Broadcast(t))
    ensures Waiters(Apply(s, Broadcast(t))) == {}
    ensures forall u :: u in Waiters(s) ==> At(Apply(s, Broadcast(t)), u, CvWoken)
  {
    EveryWaiterOnChannel(s, t);
  }

  ghost predicate WokeOne(s: State, s2: State) {
    exists u :: u in Waiters(s) && Waiters(s2) == Waiters(s) - {u} && At(s2, u, CvWoken)
  }

  lemma SignalWakesOne(s: State, t: Tid)
    requires Inv(s) && Enabled(s, Signal(t)) && Waiters(s) != {}
    ensures WokeOne(s, Apply(s, Signal(t)))
  {
    EveryWaiterOnChannel(s, t);
    assert s.cvChan != [];
    var u := s.cvChan[0];
    assert u in Waiters(s) && Waiters(Apply(s, Signal(t))) == Waiters(s) - {u};
  }

  /** Over every run: whoever holds the lock and can signal finds every thread
      that released it in cv_wait already on the channel; a broadcast wakes
      them all and a signal wakes one. */
  lemma SignalSeesEveryWaiter(s: State, run: seq<Step>, t: Tid)
    requires Init(s) && IsRun(s, run) && Enabled(After(s, run), Signal(t))
    ensures Waiters(After(s, run)) == (set u | u in After(s, run).cvChan)
    ensures Waiters(Apply(After(s, run), Broadcast(t))) == {}
    ensures forall u :: u in Waiters(After(s, run)) ==> At(Apply(After(s, run), Broadcast(t)), u, CvWoken)
    ensures Waiters(After(s, run)) != {} ==> WokeOne(After(s, run), Apply(After(s, run), Signal(t)))
  {
    RunKeeps(s, run);
    EveryWaiterOnChannel(After(s, run), t);
    BroadcastWakesAll(After(s, run), t);
    if Waiters(After(s, run)) != {} {
      SignalWakesOne(After(s, run), t);
    }
  }

  /** Inside cv_wait, having released the lock and not yet asked for it again. */
  predicate InCvWait(p: Pc) { p == CvReleased || p == CvAsleep || p == CvWoken }

  /** Back in the code of a thread that uses the lock. */
  predicate Returned(p: Pc) { p == Out || p == Critical || p == CvEntered }

  /** At some point of the run t acquires the lock and returns holding it. */
  ghost predicate ReturnsHolding(s: State, run: seq<Step>, t: Tid)
    requires IsRun(s, run)
    decreases |run|
  {
    && run != []
    && ((run[0] == Acquire(t) && Apply(s, run[0]).holder == Some(t) && At(Apply(s, run[0]), t, Critical))
        || ReturnsHolding(Apply(s, run[0]), run[1..], t))
  }

  /** A thread that was in cv_wait, and is waiting no more. */
  lemma {:induction false} StopsWaiting(s: State, run: seq<Step>, t: Tid)
    requires Inv(s) && IsRun(s, run) && t in s.waiting && t !in After(s, run).waiting
    ensures ReturnsHolding(s, run, t)
    decreases |run|
  {
    var s2 := Apply(s, run[0]);
    StepKeeps(s, run[0]);
    if t in s2.waiting {
      StopsWaiting(s2, run[1..], t);
    }
  }

  /** Whatever the other threads do, a thread comes back from cv_wait only by
      acquiring the lock, so it returns holding it. */
  lemma CvWaitReturnsHolding(s: State, run: seq<Step>, t: Tid)
    requires Inv(s) && IsRun(s, run) && t in s.pc && InCvWait(s.pc[t])
    requires t in After(s, run).pc && Returned(After(s, run).pc[t])
    ensures ReturnsHolding(s, run, t)
  {
    RunKeeps(s, run);
    StopsWaiting(s, run, t);
  }

  /** At some point of the run the holder of the lock signals or broadcasts
      while t is on the channel. */
  ghost predicate IsCalled(s: State, run: seq<Step>, t: Tid)
    requires IsRun(s, run)
    decreases |run|
  {
    && run != []
    && (((run[0].Signal? || run[0].Broadcast?) && s.holder == Some(run[0].t) && t in s.cvChan)
        || IsCalled(Apply(s, run[0]), run[1..], t))
  }

  lemma OnlyCallsWake(s: State, step: Step, t: Tid)
    requires Inv(s) && Enabled(s, step) && At(s, t, CvAsleep) && !At(Apply(s, step), t, CvAsleep)
    ensures (step.Signal? || step.Broadcast?) && s.holder == Some(step.t) && t in s.cvChan
  {
    assert s.lkChan != [] ==> At(s, s.lkChan[0], LockAsleep);
  }

  /** Nobody wakes up from cv_wait without a call. */
  lemma {:induction false} NoSpuriousWakeup(s: State, run: seq<Step>, t: Tid)
    requires Inv(s) && IsRun(s, run) && At(s, t, CvAsleep) && !At(After(s, run), t, CvAsleep)
    ensures IsCalled(s, run, t)
    decreases |run|
  {
    var s2 := Apply(s, run[0]);
    StepKeeps(s, run[0]);
    if At(s2, t, CvAsleep) {
      NoSpuriousWakeup(s2, run[1..], t);
    } else {
      OnlyCallsWake(s, run[0], t);
    }
  }

  // ------------------------------------------------------------------
  // What the operations achieve

  ghost predicate Free(s: State) { forall t: Tid :: !Holds(s, t) }

  /** A section of lock_acquire, at the end of any run: on a free lock, by a
      thread that comes from outside or was woken, it ends holding the lock; on
      a held one it ends asleep, last on the channel. */
  lemma AcquireDecides(s: State, run: seq<Step>, t: Tid)
    requires Init(s) && IsRun(s, run) && Enabled(After(s, run), Acquire(t))
    ensures var s1, s2 := After(s, run), Apply(After(s, run), Acquire(t));
      && (Free(s1) ==> At(s2, t, Critical) && s2.holder == Some(t) && s2.locked && s2.lkChan == s1.lkChan)
      && (!Free(s1) ==> At(s2, t, LockAsleep) && s2.lkChan == s1.lkChan + [t] && s2.holder == s1.holder)
      && forall u :: u != t && u in s1.pc ==> u in s2.pc && s2.pc[u] == s1.pc[u]
  {
    RunKeeps(s, run);
  }

  predicate IsRelease(step: Step) { step.Release? || step.CvRelease? }

  /** lock_release by the holder. */
  ghost predicate Frees(s1: State, s2: State) {
    && Free(s2) && !s2.locked && s2.holder == None
    && (s1.lkChan != [] ==> At(s2, s1.lkChan[0], LockWoken) && s1.lkChan == [s1.lkChan[0]] + s2.lkChan)
  }

  lemma UnlockFrees(s: State, t: Tid, p: Pc, waiting: set<Tid>)
    requires Inv(s) && Holds(s, t) && !HoldsLock(p)
    ensures Frees(s, Unlock(s.(pc := s.pc[t := p], waiting := waiting)))
  {
    var pc := s.pc[t := p];
    assert forall u :: u in pc ==> !HoldsLock(pc[u]);
    assert s.lkChan != [] ==> At(s, s.lkChan[0], LockAsleep);
    if s.lkChan != [] {
      var pc2 := pc[s.lkChan[0] := LockWoken];
      assert forall u :: u in pc2 ==> !HoldsLock(pc2[u]);
    }
  }

  lemma ReleaseStep(s: State, step: Step)
    requires Inv(s) && Enabled(s, step) && IsRelease(step)
    ensures s.holder == Some(step.t) && Frees(s, Apply(s, step))
  {
    if step.Release? {
      UnlockFrees(s, step.t, Out, s.waiting);
      assert s.(pc := s.pc[step.t := Out]) == s.(pc := s.pc[step.t := Out], waiting := s.waiting);
    } else {
      UnlockFrees(s, step.t, CvReleased, s.waiting + {step.t});
    }
  }

  /** lock_release, directly or in cv_wait, at the end of any run: nobody holds
      the lock, and the first sleeper, if there is one, is woken. */
  lemma ReleaseFrees(s: State, run: seq<Step>, step: Step)
    requires Init(s) && IsRun(s, run) && Enabled(After(s, run), step) && IsRelease(step)
    ensures After(s, run).holder == Some(step.t) && Frees(After(s, run), Apply(After(s, run), step))
  {
    RunKeeps(s, run);
    ReleaseStep(After(s, run), step);
  }

  function Releases(run: seq<Step>): nat {
    if run == [] then 0 else (if IsRelease(run[0]) then 1 else 0) + Releases(run[1..])
  }

  lemma LkChanStep(s: State, step: Step)
    requires Enabled(s, step) && s.lkChan != []
    ensures var s2 := Apply(s, step);
      if IsRelease(step) then s2.lkChan == s.lkChan[1..] && At(s2, s.lkChan[0], LockWoken) else s.lkChan <= s2.lkChan
  {
  }

  /** Sleepers on the lock are woken in order: one with i others before it is
      woken by the release number i + 1, whatever else happens meanwhile. */
  lemma {:induction false} LockWakesInOrder(s: State, run: seq<Step>, i: nat)
    requires IsRun(s, run) && i < |s.lkChan|
    requires Releases(run) == i + 1 && IsRelease(run[|run| - 1])
    ensures At(After(s, run), s.lkChan[i], LockWoken)
    decreases |run|
  {
    var s2, rest := Apply(s, run[0]), run[1..];
    LkChanStep(s, run[0]);
    if |run| == 1 {
      assert rest == [] && After(s2, []) == s2 && Releases(rest) == 0;
    } else {
      assert rest[|rest| - 1] == run[|run| - 1];
      if i == 0 && IsRelease(run[0]) {
        NoneLeft(rest);
      } else {
        LockWakesInOrder(s2, rest, if IsRelease(run[0]) then i - 1 else i);
      }
    }
  }

  lemma {:induction false} NoneLeft(run: seq<Step>)
    requires run != [] && IsRelease(run[|run| - 1])
    ensures Releases(run) > 0
  {
    if |run| > 1 {
      NoneLeft(run[1..]);
    }
  }

  function Signals(run: seq<Step>): nat {
    if run == [] then 0 else (if run[0].Signal? then 1 else 0) + Signals(run[1..])
  }

  lemma {:induction false} SignalsLast(run: seq<Step>)
    requires run != [] && run[|run| - 1].Signal?
    ensures Signals(run) > 0
  {
    if |run| > 1 {
      SignalsLast(run[1..]);
    }
  }

  /** Without a broadcast the channel only loses its head, to a signal. */
  lemma CvChanStep(s: State, step: Step)
    requires Enabled(s, step) && !step.Broadcast? && s.cvChan != []
    ensures var s2 := Apply(s, step);
      if step.Signal? then s2.cvChan == s.cvChan[1..] && At(s2, s.cvChan[0], CvWoken) else s.cvChan <= s2.cvChan
  {
  }

  /** Waiters are woken in order: one with i others before it is woken by the
      signal number i + 1, if nobody broadcasts meanwhile. */
  lemma {:induction false} SignalWakesInOrder(s: State, run: seq<Step>, i: nat)
    requires IsRun(s, run) && i < |s.cvChan| && Signals(run) == i + 1
    requires run[|run| - 1].Signal? && forall j :: 0 <= j < |run| ==> !run[j].Broadcast?
    ensures At(After(s, run), s.cvChan[i], CvWoken)
    decreases |run|
  {
    var s2, rest := Apply(s, run[0]), run[1..];
    assert !run[0].Broadcast?;
    CvChanStep(s, run[0]);
    if |run| == 1 {
      assert rest == [] && After(s2, []) == s2 && Signals(rest) == 0;
    } else {
      assert rest[|rest| - 1] == run[|run| - 1];
      if i == 0 && run[0].Signal? {
        SignalsLast(rest);
      } else {
        SignalWakesInOrder(s2, rest, if run[0].Signal? then i - 1 else i);
      }
    }
  }

  lemma RunJoin(s: State, a: Step, rest: seq<Step>)
    requires Enabled(s, a) && IsRun(Apply(s, a), rest)
    ensures IsRun(s, [a] + rest) && After(s, [a] + rest) == After(Apply(s, a), rest)
  {
    assert ([a] + rest)[1..] == rest;
  }

  /** With no other thread taking a step, a thread that calls lock_acquire on a
      free lock holds it. */
  lemma LoneAcquire(s: State, t: Tid)
    requires Inv(s) && Free(s) && At(s, t, Out)
    ensures IsRun(s, [CallAcquire(t), Acquire(t)])
    ensures After(s, [CallAcquire(t), Acquire(t)]) == s.(locked := true, holder := Some(t), pc := s.pc[t := Critical])
  {
    var s1 := Apply(s, CallAcquire(t));
    assert t !in s.waiting;
    assert s1.pc[t := Critical] == s.pc[t := Critical] && s.waiting - {t} == s.waiting;
    RunJoin(s1, Acquire(t), []);
    RunJoin(s, CallAcquire(t), [Acquire(t)] + []);
    assert [CallAcquire(t)] + ([Acquire(t)] + []) == [CallAcquire(t), Acquire(t)];
  }

  /** Its lock_release then frees the lock, and puts everything back unless a
      sleeper is woken. */
  lemma LoneRelease(s: State, t: Tid)
    requires Inv(s) && Free(s) && At(s, t, Out)
    ensures IsRun(s, [CallAcquire(t), Acquire(t), Release(t)])
    ensures var s2 := After(s, [CallAcquire(t), Acquire(t), Release(t)]);
      && Free(s2) && s2.holder == None && !s2.locked
      && (s.lkChan == [] ==> s2 == s)
      && (s.lkChan != [] ==> s2 == s.(lkChan := s.lkChan[1..], pc := s.pc[s.lkChan[0] := LockWoken]))
  {
    var s1 := Apply(s, CallAcquire(t));
    var s2 := Apply(s1, Acquire(t));
    assert t !in s.waiting;
    assert s.waiting - {t} == s.waiting && s2.pc[t := Out] == s.pc;
    RunJoin(s2, Release(t), []);
    RunJoin(s1, Acquire(t), [Release(t)] + []);
    RunJoin(s, CallAcquire(t), [Acquire(t)] + ([Release(t)] + []));
    assert [CallAcquire(t)] + ([Acquire(t)] + ([Release(t)] + [])) == [CallAcquire(t), Acquire(t), Release(t)];
  }

  /** cv_wait up to the sleep: t is last on the channel, and holds neither the
      lock nor cv_spinlock. */
  lemma WaitSleeps(s: State, t: Tid)
    requires Inv(s) && Enabled(s, CvEnter(t))
    ensures IsRun(s, [CvEnter(t), CvRelease(t), CvSleep(t)])
    ensures var s2 := After(s, [CvEnter(t), CvRelease(t), CvSleep(t)]);
      && s2.holder == None && !s2.locked && s2.cvSpin == None
      && s2.cvChan == s.cvChan + [t] && At(s2, t, CvAsleep) && t in s2.waiting
      && (s.lkChan != [] ==> At(s2, s.lkChan[0], LockWoken))
  {
    var s1 := Apply(s, CvEnter(t));
    var s2 := Apply(s1, CvRelease(t));
    assert s.lkChan != [] ==> At(s, s.lkChan[0], LockAsleep);
    RunJoin(s2, CvSleep(t), []);
    RunJoin(s1, CvRelease(t), [CvSleep(t)] + []);
    RunJoin(s, CvEnter(t), [CvRelease(t)] + ([CvSleep(t)] + []));
    assert [CvEnter(t)] + ([CvRelease(t)] + ([CvSleep(t)] + [])) == [CvEnter(t), CvRelease(t), CvSleep(t)];
  }

  /** A thread that comes, signals and leaves: it finds the lock free, the only
      waiter is woken, and nothing else has changed. */
  lemma SignalWakesTheWaiter(s: State, t: Tid, u: Tid)
    requires Inv(s) && Free(s) && s.cvSpin == None && s.lkChan == [] && s.cvChan == [t] && At(s, u, Out)
    ensures IsRun(s, [CallAcquire(u), Acquire(u), Signal(u), Release(u)])
    ensures After(s, [CallAcquire(u), Acquire(u), Signal(u), Release(u)]) ==
      s.(cvChan := [], pc := s.pc[t := CvWoken])
  {
    assert s.cvChan[0] == t && u !in s.waiting;
    var s1 := Apply(s, CallAcquire(u));
    var s2 := Apply(s1, Acquire(u));
    var s3 := Apply(s2, Signal(u));
    var s4 := Apply(s3, Release(u));
    assert s4.pc == s.pc[t := CvWoken] && s4.waiting == s.waiting;
    var back := [Release(u)] + [];
    RunJoin(s3, Release(u), []);
    RunJoin(s2, Signal(u), back);
    RunJoin(s1, Acquire(u), [Signal(u)] + back);
    RunJoin(s, CallAcquire(u), [Acquire(u)] + ([Signal(u)] + back));
    assert [CallAcquire(u)] + ([Acquire(u)] + ([Signal(u)] + back))
        == [CallAcquire(u), Acquire(u), Signal(u), Release(u)];
  }

  /** The way back from cv_wait: a woken waiter that finds the lock free holds
      it, and nothing else has changed. */
  lemma WokenReturns(s: State, t: Tid)
    requires Inv(s) && Free(s) && Enabled(s, CvResume(t))
    ensures IsRun(s, [CvResume(t), Acquire(t)])
    ensures After(s, [CvResume(t), Acquire(t)]) ==
      s.(locked := true, holder := Some(t), pc := s.pc[t := Critical], waiting := s.waiting - {t})
  {
    var s1 := Apply(s, CvResume(t));
    assert s1.pc[t := Critical] == s.pc[t := Critical];
    RunJoin(s1, Acquire(t), []);
    RunJoin(s, CvResume(t), [Acquire(t)] + []);
    assert [CvResume(t)] + ([Acquire(t)] + []) == [CvResume(t), Acquire(t)];
  }
}
