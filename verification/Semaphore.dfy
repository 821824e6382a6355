/**
 Counting semaphores (kern/thread/synch.c): P and V by any number of threads.
 A step is one section under sem_lock: a P that finds the count zero ends its
 section asleep on the wait channel, and starts a new one after it is woken.
 */
module Semaphore {

  type Tid = nat

  /** Where a thread is: Woken threads were taken off the channel and have not
      yet looked at the count again. */
  datatype Pc = Outside | Asleep | Woken

  /** passed and posted count completed P and V operations. */
  datatype State = State(count: nat, wchan: seq<Tid>, pc: map<Tid, Pc>, passed: nat, posted: nat)

  datatype Step = P(t: Tid) | V

  /** sem_count is unsigned; V asserts that it did not wrap. */
  const COUNT_LIMIT: nat := 0x1_0000_0000

  ghost predicate Enabled(s: State, step: Step) {
    match step
    case P(t) => t in s.pc && s.pc[t] != Asleep
    case V => s.count + 1 < COUNT_LIMIT
  }

  function Apply(s: State, step: Step): State {
    match step
    case P(t) =>
      if s.count == 0 then s.(wchan := s.wchan + [t], pc := s.pc[t := Asleep])
      else s.(count := s.count - 1, pc := s.pc[t := Outside], passed := s.passed + 1)
    case V =>
      var s1 := s.(count := s.count + 1, posted := s.posted + 1);
      if s.wchan == [] then s1
      else s1.(wchan := s.wchan[1..], pc := s.pc[s.wchan[0] := Woken])
  }

  ghost function WokenThreads(s: State): set<Tid> { set t | t in s.pc && s.pc[t] == Woken }

  ghost predicate ChannelOk(s: State) {
    && (forall i, j :: 0 <= i < j < |s.wchan| ==> s.wchan[i] != s.wchan[j])
    && (forall i :: 0 <= i < |s.wchan| ==> s.wchan[i] in s.pc && s.pc[s.wchan[i]] == Asleep)
    && (forall t :: t in s.pc && s.pc[t] == Asleep ==> t in s.wchan)
  }

  /** While anyone sleeps, at least as many threads as the count are on their
      way to take it. */
  ghost predicate NoLostWakeup(s: State) { s.wchan != [] ==> |WokenThreads(s)| >= s.count }

  ghost predicate Inv(s: State, initial: nat) {
    && ChannelOk(s) && NoLostWakeup(s)
    && s.count + s.passed == initial + s.posted
    && s.count < COUNT_LIMIT
  }

  lemma PKeeps(s: State, t: Tid, initial: nat)
    requires Inv(s, initial) && Enabled(s, P(t))
    ensures Inv(Apply(s, P(t)), initial)
  {
    var s2 := Apply(s, P(t));
    var w, w2 := WokenThreads(s), WokenThreads(s2);
    assert w2 == w - {t};
    assert t in w ==> |w2| == |w| - 1;
    assert t !in w ==> w2 == w;
    assert t !in s.wchan;
    forall u | u in s2.pc && s2.pc[u] == Asleep ensures u in s2.wchan {
      if u == t { assert s2.wchan[|s.wchan|] == t; } else { assert u in s.pc && s.pc[u] == Asleep; }
    }
  }

  lemma VKeeps(s: State, initial: nat)
    requires Inv(s, initial) && Enabled(s, V)
    ensures Inv(Apply(s, V), initial)
  {
    var s2 := Apply(s, V);
    if s.wchan != [] {
      var h := s.wchan[0];
      var w, w2 := WokenThreads(s), WokenThreads(s2);
      assert w2 == w + {h} && h !in w;
      forall u | u in s2.pc && s2.pc[u] == Asleep ensures u in s2.wchan {
        var i :| 0 <= i < |s.wchan| && s.wchan[i] == u;
        assert s2.wchan[i - 1] == u;
      }
    }
  }

  ghost predicate IsRun(s: State, run: seq<Step>)
    decreases |run|
  {
    run == [] || (Enabled(s, run[0]) && IsRun(Apply(s, run[0]), run[1..]))
  }

  ghost function After(s: State, run: seq<Step>): State
    requires IsRun(s, run)
    decreases |run|
  {
    if run == [] then s else After(Apply(s, run[0]), run[1..])
  }

  ghost predicate Init(s: State, initial: nat) {
    && s.count == initial < COUNT_LIMIT && s.wchan == [] && s.passed == 0 && s.posted == 0
    && forall t :: t in s.pc ==> s.pc[t] == Outside
  }

  lemma {:induction false} RunKeeps(s: State, run: seq<Step>, initial: nat)
    requires Inv(s, initial) && IsRun(s, run)
    ensures Inv(After(s, run), initial)
    decreases |run|
  {
    if run != [] {
      match run[0] {
        case P(t) => PKeeps(s, t, initial);
        case V => VKeeps(s, initial);
      }
      RunKeeps(Apply(s, run[0]), run[1..], initial);
    }
  }

  /**
   Over every run by any number of threads: P never passes more often than
   the initial count plus the number of V allows, nothing posted is lost, and
   no thread sleeps beside a positive count unless that many woken threads
   are still to look at it.
   */
  lemma SemaphoreSafe(s: State, run: seq<Step>, initial: nat)
    requires Init(s, initial) && IsRun(s, run)
    ensures var s2 := After(s, run);
      && s2.passed <= initial + s2.posted
      && s2.count == initial + s2.posted - s2.passed
      && NoLostWakeup(s2)
      && (s2.wchan != [] && s2.count > 0 ==> exists t :: t in s2.pc && s2.pc[t] == Woken)
  {
    RunKeeps(s, run, initial);
    var s2 := After(s, run);
    if s2.wchan != [] && s2.count > 0 {
      assert WokenThreads(s2) != {};
      var t :| t in WokenThreads(s2);
    }
  }

  /** A section of P, at the end of any run: it passes when something is left,
      and otherwise ends asleep, last on the channel. */
  lemma PDecides(s: State, run: seq<Step>, initial: nat, t: Tid)
    requires Init(s, initial) && IsRun(s, run) && Enabled(After(s, run), P(t))
    ensures var s1, s2 := After(s, run), Apply(After(s, run), P(t));
      && (initial + s1.posted > s1.passed ==>
            s2.pc == s1.pc[t := Outside] && s2.passed == s1.passed + 1 && s2.wchan == s1.wchan)
      && (initial + s1.posted == s1.passed ==>
            s2.pc == s1.pc[t := Asleep] && s2.passed == s1.passed && s2.wchan == s1.wchan + [t])
      && s2.posted == s1.posted
  {
    RunKeeps(s, run, initial);
  }

  ghost function Vs(run: seq<Step>): nat { if run == [] then 0 else (if run[0].V? then 1 else 0) + Vs(run[1..]) }

  /** The P operations that return in the course of a run. */
  ghost function Returns(s: State, run: seq<Step>): nat
    requires IsRun(s, run)
    decreases |run|
  {
    if run == [] then 0
    else
      var s2 := Apply(s, run[0]);
      (if run[0].P? && s2.pc[run[0].t] == Outside then 1 else 0) + Returns(s2, run[1..])
  }

  lemma {:induction false} CountsAreExact(s: State, run: seq<Step>)
    requires IsRun(s, run)
    ensures After(s, run).posted == s.posted + Vs(run) && After(s, run).passed == s.passed + Returns(s, run)
    decreases |run|
  {
    if run != [] {
      CountsAreExact(Apply(s, run[0]), run[1..]);
    }
  }

  /** P returns at most as often as the initial count and the calls of V
      allow, and the count is exactly what is left. */
  lemma ReturnsAreCovered(s: State, run: seq<Step>, initial: nat)
    requires Init(s, initial) && IsRun(s, run)
    ensures Returns(s, run) <= initial + Vs(run)
    ensures After(s, run).count == initial + Vs(run) - Returns(s, run)
  {
    RunKeeps(s, run, initial);
    CountsAreExact(s, run);
  }

  lemma {:induction false} VsLast(run: seq<Step>)
    requires run != [] && run[|run| - 1].V?
    ensures Vs(run) > 0
  {
    if |run| > 1 {
      VsLast(run[1..]);
    }
  }

  /** Sleepers are woken in order: one with i others before it is woken by the
      V number i + 1. */
  lemma {:induction false} WakesInOrder(s: State, run: seq<Step>, i: nat)
    requires IsRun(s, run) && i < |s.wchan| && Vs(run) == i + 1 && run[|run| - 1].V?
    ensures s.wchan[i] in After(s, run).pc && After(s, run).pc[s.wchan[i]] == Woken
    decreases |run|
  {
    var s2, rest := Apply(s, run[0]), run[1..];
    if |run| == 1 {
      assert rest == [] && After(s2, []) == s2 && Vs(rest) == 0;
    } else {
      assert rest[|rest| - 1] == run[|run| - 1];
      if i == 0 && run[0].V? {
        VsLast(rest);
      } else {
        WakesInOrder(s2, rest, if run[0].V? then i - 1 else i);
      }
    }
  }
}
