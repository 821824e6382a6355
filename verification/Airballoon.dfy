/**
 The airballoon problem of kern/synchprobs/airballoon.c, for any number of
 ropes and threads. A step is one shared access or lock operation of a thread;
 Dandelion and Marigold are both cutters.
 */
module Airballoon {

  import opened KernLib
  import LockOrder

  type Tid = nat

  /**
   Where a thread is. Cutters: at the loop test, wanting and having a rope,
   wanting and having ropes_left_lock, having loaded ropes_left, about to
   release that lock, about to release the rope. Lords: likewise with two ropes
   a < b, Temp after saving one stake and Half after the first assignment.
   */
  datatype Pc =
    | CutterLoop | WantRope(r: nat) | HaveRope(r: nat) | WantLeft(r: nat) | HaveLeft(r: nat) | Loaded(r: nat, v: int)
    | DropLeft(r: nat) | DropRope(r: nat) | CutterDone
    | LordLoop | WantFirst(a: nat, b: nat) | WantSecond(a: nat, b: nat) | HaveBoth(a: nat, b: nat)
    | Temp(a: nat, b: nat, x: nat) | Half(a: nat, b: nat, x: nat) | DropFirst(a: nat, b: nat) | DropSecond(b: nat)
    | LordDone
    | BalloonLoop | Announced

  /** cuts counts how often the rope was severed, counted says whether its cut
      has been taken off ropes_left, and goal is its stake once the swap in
      progress, if any, is complete. These three only record history. */
  datatype Rope = Rope(stake: nat, cut: bool, holder: Option<Tid>, cuts: nat, counted: bool, goal: nat)

  datatype State = State(ropes: seq<Rope>, ropesLeft: int, leftHolder: Option<Tid>, pc: map<Tid, Pc>)

  // ------------------------------------------------------------------
  // Steps

  predicate Enabled(s: State, t: Tid) {
    && t in s.pc
    && match s.pc[t]
       case WantRope(r) => r < |s.ropes| && s.ropes[r].holder.None?
       case WantFirst(a, _) => a < |s.ropes| && s.ropes[a].holder.None?
       case WantSecond(_, b) => b < |s.ropes| && s.ropes[b].holder.None?
       case WantLeft(_) => s.leftHolder.None?
       case CutterDone => false
       case LordDone => false
       case Announced => false
       case _ => true
  }

  function At(s: State, t: Tid, pc: Pc): State { s.(pc := s.pc[t := pc]) }

  function SetRope(s: State, r: nat, rope: Rope): State
    requires r < |s.ropes|
  {
    s.(ropes := s.ropes[r := rope])
  }

  /** Cutter t moves; c is its random choice. */
  function CutterNext(s: State, t: Tid, c: nat): State
    requires 0 < |s.ropes| && t in s.pc && InRange(s.pc[t], |s.ropes|)
  {
    match s.pc[t]
    case CutterLoop => if s.ropesLeft > 0 then At(s, t, WantRope(c % |s.ropes|)) else At(s, t, CutterDone)
    case WantRope(r) => At(SetRope(s, r, s.ropes[r].(holder := Some(t))), t, HaveRope(r))
    case HaveRope(r) =>
      if s.ropes[r].cut then At(s, t, DropRope(r))
      else At(SetRope(s, r, s.ropes[r].(cut := true, cuts := s.ropes[r].cuts + 1)), t, WantLeft(r))
    case WantLeft(r) => At(s.(leftHolder := Some(t)), t, HaveLeft(r))
    case HaveLeft(r) => At(s, t, Loaded(r, s.ropesLeft))
    case Loaded(r, v) => At(SetRope(s.(ropesLeft := v - 1), r, s.ropes[r].(counted := true)), t, DropLeft(r))
    case DropLeft(r) => At(s.(leftHolder := None), t, DropRope(r))
    case DropRope(r) => At(SetRope(s, r, s.ropes[r].(holder := None)), t, CutterLoop)
    case _ => s
  }

  /** Lord t moves; c1 and c2 are the random choices. */
  function LordNext(s: State, t: Tid, c1: nat, c2: nat): State
    requires 0 < |s.ropes| && t in s.pc && InRange(s.pc[t], |s.ropes|)
  {
    match s.pc[t]
    case LordLoop =>
      if s.ropesLeft <= 1 then At(s, t, LordDone)
      else if c1 % |s.ropes| == c2 % |s.ropes| then s
      else if c1 % |s.ropes| < c2 % |s.ropes| then At(s, t, WantFirst(c1 % |s.ropes|, c2 % |s.ropes|))
      else At(s, t, WantFirst(c2 % |s.ropes|, c1 % |s.ropes|))
    case WantFirst(a, b) => At(SetRope(s, a, s.ropes[a].(holder := Some(t))), t, WantSecond(a, b))
    case WantSecond(a, b) => At(SetRope(s, b, s.ropes[b].(holder := Some(t))), t, HaveBoth(a, b))
    case HaveBoth(a, b) =>
      if s.ropes[a].cut || s.ropes[b].cut then At(s, t, DropFirst(a, b)) else At(s, t, Temp(a, b, s.ropes[a].stake))
    case Temp(a, b, x) =>
      At(SetRope(SetRope(s, a, s.ropes[a].(stake := s.ropes[b].stake, goal := s.ropes[b].goal)),
                 b, s.ropes[b].(goal := s.ropes[a].goal)), t, Half(a, b, x))
    case Half(a, b, x) => At(SetRope(s, b, s.ropes[b].(stake := x)), t, DropFirst(a, b))
    case DropFirst(a, b) => At(SetRope(s, a, s.ropes[a].(holder := None)), t, DropSecond(b))
    case DropSecond(b) => At(SetRope(s, b, s.ropes[b].(holder := None)), t, LordLoop)
    case _ => s
  }

  /** One step of thread t. */
  function Next(s: State, t: Tid, c1: nat, c2: nat): State
    requires 0 < |s.ropes| && t in s.pc && InRange(s.pc[t], |s.ropes|)
  {
    if s.pc[t].BalloonLoop? then if s.ropesLeft > 0 then s else At(s, t, Announced)
    else if IsCutter(s.pc[t]) then CutterNext(s, t, c1)
    else LordNext(s, t, c1, c2)
  }

  predicate IsCutter(pc: Pc) {
    || pc.CutterLoop? || pc.WantRope? || pc.HaveRope? || pc.WantLeft? || pc.HaveLeft? || pc.Loaded?
    || pc.DropLeft? || pc.DropRope? || pc.CutterDone?
  }

  predicate InRange(pc: Pc, n: nat) {
    match pc
    case WantRope(r) => r < n
    case HaveRope(r) => r < n
    case WantLeft(r) => r < n
    case HaveLeft(r) => r < n
    case Loaded(r, _) => r < n
    case DropLeft(r) => r < n
    case DropRope(r) => r < n
    case WantFirst(a, b) => a < b < n
    case WantSecond(a, b) => a < b < n
    case HaveBoth(a, b) => a < b < n
    case Temp(a, b, _) => a < b < n
    case Half(a, b, _) => a < b < n
    case DropFirst(a, b) => a < b < n
    case DropSecond(b) => b < n
    case _ => true
  }

  // ------------------------------------------------------------------
  // Invariant

  predicate HoldsRope(pc: Pc, r: nat) {
    match pc
    case HaveRope(q) => r == q
    case WantLeft(q) => r == q
    case HaveLeft(q) => r == q
    case Loaded(q, _) => r == q
    case DropLeft(q) => r == q
    case DropRope(q) => r == q
    case WantSecond(a, _) => r == a
    case HaveBoth(a, b) => r == a || r == b
    case Temp(a, b, _) => r == a || r == b
    case Half(a, b, _) => r == a || r == b
    case DropFirst(a, b) => r == a || r == b
    case DropSecond(b) => r == b
    case _ => false
  }

  predicate HoldsLeft(pc: Pc) { pc.HaveLeft? || pc.Loaded? || pc.DropLeft? }

  /** The rope is cut but the cut is not yet counted. */
  predicate Uncounted(pc: Pc, r: nat) { (pc.WantLeft? || pc.HaveLeft? || pc.Loaded?) && pc.r == r }

  ghost predicate ThreadOk(s: State, t: Tid)
    requires t in s.pc
  {
    var pc := s.pc[t];
    && InRange(pc, |s.ropes|)
    && (forall r: nat :: HoldsRope(pc, r) ==> r < |s.ropes| && s.ropes[r].holder == Some(t))
    && (HoldsLeft(pc) ==> s.leftHolder == Some(t))
    && (forall r: nat :: Uncounted(pc, r) ==> r < |s.ropes| && s.ropes[r].cut && !s.ropes[r].counted)
    && (pc.Loaded? ==> pc.v == s.ropesLeft)
    && (pc.DropLeft? || pc.DropRope? ==> s.ropes[pc.r].counted)
    && (pc.Temp? ==> !s.ropes[pc.a].cut && !s.ropes[pc.b].cut && s.ropes[pc.a].stake == pc.x)
    && (pc.Half? ==> !s.ropes[pc.a].cut && !s.ropes[pc.b].cut && s.ropes[pc.b].goal == pc.x)
    && (pc.Announced? ==> forall r :: 0 <= r < |s.ropes| ==> s.ropes[r].counted)
  }

  ghost predicate RopeOk(s: State, r: nat)
    requires r < |s.ropes|
  {
    var rope := s.ropes[r];
    && (rope.holder.Some? ==> rope.holder.value in s.pc && HoldsRope(s.pc[rope.holder.value], r))
    && (rope.counted ==> rope.cut)
    && rope.cuts == (if rope.cut then 1 else 0)
    && (rope.cut && !rope.counted ==> rope.holder.Some? && Uncounted(s.pc[rope.holder.value], r))
    && (rope.stake == rope.goal ||
        (rope.holder.Some? && s.pc[rope.holder.value].Half? && s.pc[rope.holder.value].b == r))
  }

  /** Goals are distinct stakes. */
  ghost predicate Permutation(ropes: seq<Rope>) {
    && (forall r :: 0 <= r < |ropes| ==> ropes[r].goal < |ropes|)
    && (forall q, r :: 0 <= q < r < |ropes| ==> ropes[q].goal != ropes[r].goal)
  }

  ghost function NotCounted(ropes: seq<Rope>): nat {
    if ropes == [] then 0
    else NotCounted(ropes[..|ropes| - 1]) + (if ropes[|ropes| - 1].counted then 0 else 1)
  }

  ghost predicate Inv(s: State) {
    && 0 < |s.ropes|
    && (forall t {:trigger ThreadOk(s, t)} :: t in s.pc ==> ThreadOk(s, t))
    && (forall r: nat {:trigger RopeOk(s, r)} :: r < |s.ropes| ==> RopeOk(s, r))
    && (s.leftHolder.Some? ==> s.leftHolder.value in s.pc && HoldsLeft(s.pc[s.leftHolder.value]))
    && s.ropesLeft == NotCounted(s.ropes)
    && Permutation(s.ropes)
  }

  // ------------------------------------------------------------------
  // Every step keeps the invariant

  /** What a step of t may touch: ropes that t holds or that nobody holds, and
      ropes_left only under its lock. */
  ghost predicate Moved(s: State, s2: State, t: Tid) {
    && t in s.pc && t in s2.pc && s2.pc == s.pc[t := s2.pc[t]]
    && |s2.ropes| == |s.ropes|
    && (forall r :: 0 <= r < |s.ropes| && s2.ropes[r] != s.ropes[r] ==>
          s.ropes[r].holder == None || s.ropes[r].holder == Some(t))
    && (forall r :: 0 <= r < |s.ropes| && s.ropes[r].counted ==> s2.ropes[r].counted)
    && (s2.leftHolder != s.leftHolder ==> s.leftHolder == None || s.leftHolder == Some(t))
    && (s2.ropesLeft != s.ropesLeft ==> s.leftHolder == Some(t))
  }

  lemma OtherThread(s: State, s2: State, t: Tid, u: Tid)
    requires Inv(s) && Moved(s, s2, t) && u in s.pc && u != t
    ensures ThreadOk(s2, u)
  {
    assert ThreadOk(s, u);
  }

  /** A rope that t neither held nor took. */
  lemma OtherRope(s: State, s2: State, t: Tid, r: nat)
    requires Inv(s) && Moved(s, s2, t) && r < |s.ropes| && s2.ropes[r] == s.ropes[r] && s.ropes[r].holder != Some(t)
    ensures RopeOk(s2, r)
  {
    assert RopeOk(s, r);
  }

  /** What has to be shown of the moving thread and its ropes. */
  ghost predicate Mine(s: State, s2: State, t: Tid) {
    && Moved(s, s2, t) && ThreadOk(s2, t)
    && (forall r: nat {:trigger RopeOk(s2, r)} ::
          r < |s.ropes| && (s2.ropes[r] != s.ropes[r] || s.ropes[r].holder == Some(t)) ==> RopeOk(s2, r))
  }

  lemma CutterTakes(s: State, t: Tid, c: nat)
    requires Inv(s) && Enabled(s, t) && (s.pc[t].CutterLoop? || s.pc[t].WantRope? || s.pc[t].WantLeft?)
    ensures InRange(s.pc[t], |s.ropes|) && Mine(s, CutterNext(s, t, c), t)
  {
    assert ThreadOk(s, t);
    var s2 := CutterNext(s, t, c);
    forall r: nat | r < |s.ropes| && (s2.ropes[r] != s.ropes[r] || s.ropes[r].holder == Some(t)) ensures RopeOk(s2, r) {
      assert RopeOk(s, r);
    }
  }

  lemma CutterCuts(s: State, t: Tid, c: nat)
    requires Inv(s) && Enabled(s, t) && (s.pc[t].HaveRope? || s.pc[t].HaveLeft? || s.pc[t].Loaded?)
    ensures InRange(s.pc[t], |s.ropes|) && Mine(s, CutterNext(s, t, c), t)
  {
    assert ThreadOk(s, t);
    assert RopeOk(s, s.pc[t].r);
    var s2 := CutterNext(s, t, c);
    forall r: nat | r < |s.ropes| && (s2.ropes[r] != s.ropes[r] || s.ropes[r].holder == Some(t)) ensures RopeOk(s2, r) {
      assert RopeOk(s, r);
    }
  }

  lemma CutterDrops(s: State, t: Tid, c: nat)
    requires Inv(s) && Enabled(s, t) && (s.pc[t].DropLeft? || s.pc[t].DropRope?)
    ensures InRange(s.pc[t], |s.ropes|) && Mine(s, CutterNext(s, t, c), t)
  {
    assert ThreadOk(s, t);
    var s2 := CutterNext(s, t, c);
    forall r: nat | r < |s.ropes| && (s2.ropes[r] != s.ropes[r] || s.ropes[r].holder == Some(t)) ensures RopeOk(s2, r) {
      assert RopeOk(s, r);
    }
  }

  /** A thread that holds nothing may go where no lock is needed. */
  lemma HoldingNothing(s: State, t: Tid, pc: Pc)
    requires Inv(s) && t in s.pc && s.pc[t].LordLoop?
    requires pc == s.pc[t] || pc == LordDone || (pc.WantFirst? && InRange(pc, |s.ropes|))
    ensures Mine(s, At(s, t, pc), t)
  {
    forall r: nat | r < |s.ropes| ensures s.ropes[r].holder != Some(t) {
      assert RopeOk(s, r);
    }
  }

  lemma LordChooses(s: State, t: Tid, c1: nat, c2: nat)
    requires Inv(s) && Enabled(s, t) && s.pc[t].LordLoop?
    ensures InRange(s.pc[t], |s.ropes|) && Mine(s, LordNext(s, t, c1, c2), t)
  {
    var s2 := LordNext(s, t, c1, c2);
    assert s2 == At(s, t, s2.pc[t]);
    HoldingNothing(s, t, s2.pc[t]);
  }

  lemma LordTakes(s: State, t: Tid, c1: nat, c2: nat)
    requires Inv(s) && Enabled(s, t) && (s.pc[t].WantFirst? || s.pc[t].WantSecond?)
    ensures InRange(s.pc[t], |s.ropes|) && Mine(s, LordNext(s, t, c1, c2), t)
  {
    assert ThreadOk(s, t);
    var s2 := LordNext(s, t, c1, c2);
    forall r: nat | r < |s.ropes| && (s2.ropes[r] != s.ropes[r] || s.ropes[r].holder == Some(t)) ensures RopeOk(s2, r) {
      assert RopeOk(s, r);
    }
  }

  lemma LordSwaps(s: State, t: Tid, c1: nat, c2: nat)
    requires Inv(s) && Enabled(s, t) && (s.pc[t].HaveBoth? || s.pc[t].Temp? || s.pc[t].Half?)
    ensures InRange(s.pc[t], |s.ropes|) && Mine(s, LordNext(s, t, c1, c2), t)
  {
    assert ThreadOk(s, t);
    var s2 := LordNext(s, t, c1, c2);
    assert RopeOk(s, s.pc[t].a) && RopeOk(s, s.pc[t].b);
    forall r: nat | r < |s.ropes| && (s2.ropes[r] != s.ropes[r] || s.ropes[r].holder == Some(t)) ensures RopeOk(s2, r) {
      assert RopeOk(s, r);
    }
  }

  lemma LordDrops(s: State, t: Tid, c1: nat, c2: nat)
    requires Inv(s) && Enabled(s, t) && (s.pc[t].DropFirst? || s.pc[t].DropSecond?)
    ensures InRange(s.pc[t], |s.ropes|) && Mine(s, LordNext(s, t, c1, c2), t)
  {
    assert ThreadOk(s, t);
    var s2 := LordNext(s, t, c1, c2);
    forall r: nat | r < |s.ropes| && (s2.ropes[r] != s.ropes[r] || s.ropes[r].holder == Some(t)) ensures RopeOk(s2, r) {
      assert RopeOk(s, r);
    }
  }

  lemma BalloonChecks(s: State, t: Tid, c1: nat, c2: nat)
    requires Inv(s) && Enabled(s, t) && s.pc[t].BalloonLoop?
    ensures Mine(s, Next(s, t, c1, c2), t)
  {
    assert ThreadOk(s, t);
    AllCounted(s.ropes);
    forall r: nat | r < |s.ropes| ensures s.ropes[r].holder != Some(t) {
      assert RopeOk(s, r);
    }
  }

  /** No rope is uncounted exactly when the count is 0. */
  lemma {:induction false} AllCounted(ropes: seq<Rope>)
    ensures NotCounted(ropes) == 0 <==> forall r :: 0 <= r < |ropes| ==> ropes[r].counted
  {
    if ropes != [] {
      var n := |ropes| - 1;
      AllCounted(ropes[..n]);
      assert forall r :: 0 <= r < n ==> ropes[..n][r] == ropes[r];
    }
  }

  lemma {:induction false} NotCountedUpdate(ropes: seq<Rope>, r: nat, rope: Rope)
    requires r < |ropes|
    ensures NotCounted(ropes[r := rope]) ==
      NotCounted(ropes) + (if ropes[r].counted then 1 else 0) - (if rope.counted then 1 else 0)
  {
    var n := |ropes| - 1;
    if r < n {
      assert ropes[r := rope][..n] == ropes[..n][r := rope];
      NotCountedUpdate(ropes[..n], r, rope);
    } else {
      assert ropes[r := rope][..n] == ropes[..n];
    }
  }

  lemma {:induction false} NotCountedSame(a: seq<Rope>, b: seq<Rope>)
    requires |a| == |b| && forall r :: 0 <= r < |a| ==> a[r].counted == b[r].counted
    ensures NotCounted(a) == NotCounted(b)
  {
    if a != [] {
      NotCountedSame(a[..|a| - 1], b[..|a| - 1]);
    }
  }

  lemma StepCounts(s: State, t: Tid, c1: nat, c2: nat)
    requires Inv(s) && Enabled(s, t) && InRange(s.pc[t], |s.ropes|)
    ensures Next(s, t, c1, c2).ropesLeft == NotCounted(Next(s, t, c1, c2).ropes)
  {
    assert ThreadOk(s, t);
    var s2 := Next(s, t, c1, c2);
    if s.pc[t].Loaded? {
      NotCountedUpdate(s.ropes, s.pc[t].r, s2.ropes[s.pc[t].r]);
    } else {
      NotCountedSame(s.ropes, s2.ropes);
    }
  }

  lemma StepPermutes(s: State, t: Tid, c1: nat, c2: nat)
    requires Inv(s) && Enabled(s, t) && InRange(s.pc[t], |s.ropes|)
    ensures Permutation(Next(s, t, c1, c2).ropes)
  {
  }

  lemma StepLeft(s: State, t: Tid, c1: nat, c2: nat)
    requires Inv(s) && Enabled(s, t) && InRange(s.pc[t], |s.ropes|)
    ensures var s2 := Next(s, t, c1, c2); s2.leftHolder.Some? ==>
      s2.leftHolder.value in s2.pc && HoldsLeft(s2.pc[s2.leftHolder.value])
  {
    assert ThreadOk(s, t);
  }

  lemma StepMine(s: State, t: Tid, c1: nat, c2: nat)
    requires Inv(s) && Enabled(s, t)
    ensures InRange(s.pc[t], |s.ropes|) && Mine(s, Next(s, t, c1, c2), t)
  {
    var pc := s.pc[t];
    if pc.BalloonLoop? {
      BalloonChecks(s, t, c1, c2);
    } else if pc.CutterLoop? || pc.WantRope? || pc.WantLeft? {
      CutterTakes(s, t, c1);
    } else if pc.HaveRope? || pc.HaveLeft? || pc.Loaded? {
      CutterCuts(s, t, c1);
    } else if pc.DropLeft? || pc.DropRope? {
      CutterDrops(s, t, c1);
    } else if pc.LordLoop? {
      LordChooses(s, t, c1, c2);
    } else if pc.WantFirst? || pc.WantSecond? {
      LordTakes(s, t, c1, c2);
    } else if pc.HaveBoth? || pc.Temp? || pc.Half? {
      LordSwaps(s, t, c1, c2);
    } else {
      LordDrops(s, t, c1, c2);
    }
  }

  lemma StepKeeps(s: State, t: Tid, c1: nat, c2: nat)
    requires Inv(s) && Enabled(s, t)
    ensures InRange(s.pc[t], |s.ropes|) && Inv(Next(s, t, c1, c2))
  {
    StepMine(s, t, c1, c2);
    var s2 := Next(s, t, c1, c2);
    forall u | u in s2.pc ensures ThreadOk(s2, u) {
      if u != t { OtherThread(s, s2, t, u); }
    }
    forall r: nat | r < |s2.ropes| ensures RopeOk(s2, r) {
      if s2.ropes[r] == s.ropes[r] && s.ropes[r].holder != Some(t) { OtherRope(s, s2, t, r); }
    }
    StepCounts(s, t, c1, c2);
    StepPermutes(s, t, c1, c2);
    StepLeft(s, t, c1, c2);
  }

  // ------------------------------------------------------------------
  // Runs

  datatype Move = Move(t: Tid, c1: nat, c2: nat)

  /** init_mappings, and threads about to start. */
  ghost predicate Initial(s: State) {
    && 0 < |s.ropes| == s.ropesLeft && s.leftHolder == None
    && (forall r :: 0 <= r < |s.ropes| ==> s.ropes[r] == Rope(r, false, None, 0, false, r))
    && (forall t :: t in s.pc ==> s.pc[t] == CutterLoop || s.pc[t] == LordLoop || s.pc[t] == BalloonLoop)
  }

  ghost predicate IsRun(s: State, run: seq<Move>)
    decreases |run|
  {
    run == [] || (Legal(s, run[0].t) && IsRun(Next(s, run[0].t, run[0].c1, run[0].c2), run[1..]))
  }

  predicate Legal(s: State, t: Tid) { 0 < |s.ropes| && Enabled(s, t) && InRange(s.pc[t], |s.ropes|) }

  ghost function After(s: State, run: seq<Move>): State
    requires IsRun(s, run)
    decreases |run|
  {
    if run == [] then s else After(Next(s, run[0].t, run[0].c1, run[0].c2), run[1..])
  }

  lemma InitialInv(s: State)
    requires Initial(s)
    ensures Inv(s)
  {
    forall t | t in s.pc ensures ThreadOk(s, t) {
    }
    NoneCounted(s.ropes);
  }

  lemma {:induction false} NoneCounted(ropes: seq<Rope>)
    requires forall r :: 0 <= r < |ropes| ==> !ropes[r].counted
    ensures NotCounted(ropes) == |ropes|
  {
    if ropes != [] {
      NoneCounted(ropes[..|ropes| - 1]);
    }
  }

  lemma {:induction false} RunKeeps(s: State, run: seq<Move>)
    requires Inv(s) && IsRun(s, run)
    ensures Inv(After(s, run))
    decreases |run|
  {
    if run != [] {
      StepKeeps(s, run[0].t, run[0].c1, run[0].c2);
      RunKeeps(Next(s, run[0].t, run[0].c1, run[0].c2), run[1..]);
    }
  }

  ghost function Uncut(ropes: seq<Rope>): nat {
    if ropes == [] then 0 else Uncut(ropes[..|ropes| - 1]) + (if ropes[|ropes| - 1].cut then 0 else 1)
  }

  /** Cut, but not yet taken off ropes_left. */
  ghost function CutsToCount(ropes: seq<Rope>): nat {
    if ropes == [] then 0
    else CutsToCount(ropes[..|ropes| - 1]) + (if ropes[|ropes| - 1].cut && !ropes[|ropes| - 1].counted then 1 else 0)
  }

  lemma {:induction false} CountSplits(ropes: seq<Rope>)
    requires forall r :: 0 <= r < |ropes| && ropes[r].counted ==> ropes[r].cut
    ensures NotCounted(ropes) == Uncut(ropes) + CutsToCount(ropes)
  {
    if ropes != [] {
      CountSplits(ropes[..|ropes| - 1]);
    }
  }

  /** What the problem asks of every reachable state. */
  ghost predicate Safe(s: State) {
    && s.ropesLeft == Uncut(s.ropes) + CutsToCount(s.ropes)
    && (forall r :: 0 <= r < |s.ropes| ==> s.ropes[r].cuts <= 1)
    && ((forall t :: t in s.pc ==> !s.pc[t].Half?) ==> DistinctStakes(s.ropes))
    && ((exists t :: t in s.pc && s.pc[t].Announced?) ==> forall r :: 0 <= r < |s.ropes| ==> s.ropes[r].cut)
  }

  /** The stakes are a permutation of 0 .. n - 1. */
  ghost predicate DistinctStakes(ropes: seq<Rope>) {
    && (forall r :: 0 <= r < |ropes| ==> ropes[r].stake < |ropes|)
    && (forall q, r :: 0 <= q < r < |ropes| ==> ropes[q].stake != ropes[r].stake)
  }

  lemma InvIsSafe(s: State)
    requires Inv(s)
    ensures Safe(s)
  {
    forall r: nat | r < |s.ropes| ensures (s.ropes[r].counted ==> s.ropes[r].cut) && s.ropes[r].cuts <= 1 {
      assert RopeOk(s, r);
    }
    CountSplits(s.ropes);
    if forall t :: t in s.pc ==> !s.pc[t].Half? {
      forall r: nat | r < |s.ropes| ensures s.ropes[r].stake == s.ropes[r].goal {
        assert RopeOk(s, r);
      }
    }
    forall t | t in s.pc && s.pc[t].Announced? ensures forall r :: 0 <= r < |s.ropes| ==> s.ropes[r].cut {
      assert ThreadOk(s, t);
    }
  }

  lemma AllRunsSafe(s: State, run: seq<Move>)
    requires Initial(s) && IsRun(s, run)
    ensures Safe(After(s, run))
  {
    InitialInv(s);
    RunKeeps(s, run);
    InvIsSafe(After(s, run));
  }

  /** A cut rope stays cut and keeps its stake. */
  lemma CutStakeStep(s: State, t: Tid, c1: nat, c2: nat, r: nat)
    requires Inv(s) && Enabled(s, t) && r < |s.ropes| && s.ropes[r].cut && InRange(s.pc[t], |s.ropes|)
    ensures var s2 := Next(s, t, c1, c2);
      |s2.ropes| == |s.ropes| && s2.ropes[r].cut && s2.ropes[r].stake == s.ropes[r].stake
  {
    assert ThreadOk(s, t);
  }

  lemma {:induction false} CutStakeFixed(s: State, run: seq<Move>, r: nat)
    requires Inv(s) && IsRun(s, run) && r < |s.ropes| && s.ropes[r].cut
    ensures |After(s, run).ropes| == |s.ropes|
    ensures After(s, run).ropes[r].cut && After(s, run).ropes[r].stake == s.ropes[r].stake
    decreases |run|
  {
    if run != [] {
      StepKeeps(s, run[0].t, run[0].c1, run[0].c2);
      CutStakeStep(s, run[0].t, run[0].c1, run[0].c2, r);
      CutStakeFixed(Next(s, run[0].t, run[0].c1, run[0].c2), run[1..], r);
    }
  }

  // ------------------------------------------------------------------
  // What a thread achieves with the ropes it takes

  /** From taking rope r to letting it go. */
  predicate WithRope(pc: Pc, r: nat) {
    pc == HaveRope(r) || pc == WantLeft(r) || pc == HaveLeft(r) || pc == DropLeft(r) || pc == DropRope(r)
    || (pc.Loaded? && pc.r == r)
  }

  lemma WithRopeStep(s: State, m: Move, t: Tid, r: nat)
    requires Inv(s) && Enabled(s, m.t) && InRange(s.pc[m.t], |s.ropes|)
    requires t in s.pc && r < |s.ropes| && (WithRope(s.pc[t], r) || s.ropes[r].counted)
    ensures var s2 := Next(s, m.t, m.c1, m.c2);
      t in s2.pc && |s2.ropes| == |s.ropes| && (WithRope(s2.pc[t], r) || s2.ropes[r].counted)
  {
    assert ThreadOk(s, m.t);
  }

  lemma {:induction false} WithRopeRun(s: State, run: seq<Move>, t: Tid, r: nat)
    requires Inv(s) && IsRun(s, run)
    requires t in s.pc && r < |s.ropes| && (WithRope(s.pc[t], r) || s.ropes[r].counted)
    ensures var s2 := After(s, run);
      t in s2.pc && |s2.ropes| == |s.ropes| && (WithRope(s2.pc[t], r) || s2.ropes[r].counted)
    decreases |run|
  {
    if run != [] {
      StepKeeps(s, run[0].t, run[0].c1, run[0].c2);
      WithRopeStep(s, run[0], t, r);
      WithRopeRun(Next(s, run[0].t, run[0].c1, run[0].c2), run[1..], t, r);
    }
  }

  /** A cutter that has taken a rope does not leave it before the rope is cut
      and the cut is counted, whatever the others do. */
  lemma CutterFinishes(s: State, run: seq<Move>, t: Tid, r: nat)
    requires Inv(s) && IsRun(s, run) && t in s.pc && s.pc[t] == HaveRope(r) && r < |s.ropes|
    ensures var s2 := After(s, run);
      && t in s2.pc && |s2.ropes| == |s.ropes|
      && (!WithRope(s2.pc[t], r) ==> s2.ropes[r].cut && s2.ropes[r].counted && s2.ropes[r].cuts == 1)
  {
    WithRopeRun(s, run, t, r);
    RunKeeps(s, run);
    assert RopeOk(After(s, run), r);
  }

  /** A lord after k of its three steps between the test and the unlocking; x
      and y were the stakes of ropes a and b. */
  ghost predicate Swapping(s: State, t: Tid, a: nat, b: nat, x: nat, y: nat, k: nat) {
    && t in s.pc && a < b < |s.ropes| && !s.ropes[a].cut && !s.ropes[b].cut
    && s.pc[t] == (if k == 0 then HaveBoth(a, b) else if k == 1 then Temp(a, b, x)
                   else if k == 2 then Half(a, b, x) else DropFirst(a, b))
    && s.ropes[a].stake == (if k < 2 then x else y) && s.ropes[b].stake == (if k < 3 then y else x)
  }

  lemma SwappingStep(s: State, m: Move, t: Tid, a: nat, b: nat, x: nat, y: nat, k: nat)
    requires Inv(s) && Enabled(s, m.t) && InRange(s.pc[m.t], |s.ropes|)
    requires Swapping(s, t, a, b, x, y, k) && (m.t == t ==> k < 3)
    ensures Swapping(Next(s, m.t, m.c1, m.c2), t, a, b, x, y, if m.t == t then k + 1 else k)
  {
    assert ThreadOk(s, t);
    if m.t != t {
      StepMine(s, m.t, m.c1, m.c2);
    }
  }

  ghost function MovesOf(run: seq<Move>, t: Tid): nat {
    if run == [] then 0 else (if run[0].t == t then 1 else 0) + MovesOf(run[1..], t)
  }

  lemma {:induction false} SwappingRun(s: State, run: seq<Move>, t: Tid, a: nat, b: nat, x: nat, y: nat, k: nat)
    requires Inv(s) && IsRun(s, run) && Swapping(s, t, a, b, x, y, k) && k + MovesOf(run, t) <= 3
    ensures Swapping(After(s, run), t, a, b, x, y, k + MovesOf(run, t))
    decreases |run|
  {
    if run != [] {
      StepKeeps(s, run[0].t, run[0].c1, run[0].c2);
      SwappingStep(s, run[0], t, a, b, x, y, k);
      SwappingRun(Next(s, run[0].t, run[0].c1, run[0].c2), run[1..], t, a, b, x, y, if run[0].t == t then k + 1 else k);
    }
  }

  /** A lord that has two uncut ropes has exchanged their stakes three steps of
      its own later, whatever the others do in between. */
  lemma LordExchanges(s: State, run: seq<Move>, t: Tid, a: nat, b: nat)
    requires Inv(s) && IsRun(s, run) && t in s.pc && s.pc[t] == HaveBoth(a, b) && a < b < |s.ropes|
    requires !s.ropes[a].cut && !s.ropes[b].cut && MovesOf(run, t) == 3
    ensures var s2 := After(s, run);
      && t in s2.pc && s2.pc[t] == DropFirst(a, b) && b < |s2.ropes|
      && s2.ropes[a].stake == s.ropes[b].stake && s2.ropes[b].stake == s.ropes[a].stake
  {
    SwappingRun(s, run, t, a, b, s.ropes[a].stake, s.ropes[b].stake, 0);
  }

  // ------------------------------------------------------------------
  // Deadlock

  function RopeLock(r: nat): LockOrder.Lock { LockOrder.Lock(r, r) }

  /** Rope locks rank by index, ropes_left_lock above them all. */
  ghost function AgentOf(pc: Pc, n: nat): LockOrder.Agent {
    LockOrder.Agent(
      (set r: nat | r < n && HoldsRope(pc, r) :: RopeLock(r)) + (if HoldsLeft(pc) then {RopeLock(n)} else {}),
      match pc
      case WantRope(r) => LockOrder.Wants(RopeLock(r))
      case WantFirst(a, _) => LockOrder.Wants(RopeLock(a))
      case WantSecond(_, b) => LockOrder.Wants(RopeLock(b))
      case WantLeft(_) => LockOrder.Wants(RopeLock(n))
      case _ => LockOrder.Nothing)
  }

  ghost function Agents(s: State): map<nat, LockOrder.Agent> { map t | t in s.pc :: AgentOf(s.pc[t], |s.ropes|) }

  predicate Finished(pc: Pc) { pc.CutterDone? || pc.LordDone? || pc.Announced? }

  /** A thread that cannot move waits for a lock another unfinished one holds. */
  lemma BlockedByHolder(s: State, t: Tid) returns (u: Tid)
    requires Inv(s) && t in s.pc && !Enabled(s, t) && !Finished(s.pc[t])
    ensures u in s.pc && !Finished(s.pc[u]) && Agents(s)[t].want.Wants? && Agents(s)[t].want.lock in Agents(s)[u].held
  {
    assert ThreadOk(s, t);
    var n := |s.ropes|;
    match s.pc[t]
    case WantRope(r) =>
      assert RopeOk(s, r);
      u := s.ropes[r].holder.value;
    case WantFirst(a, _) =>
      assert RopeOk(s, a);
      u := s.ropes[a].holder.value;
    case WantSecond(_, b) =>
      assert RopeOk(s, b);
      u := s.ropes[b].holder.value;
    case WantLeft(_) =>
      u := s.leftHolder.value;
  }

  /** Threads ask for locks in order, so none wait in a circle. */
  lemma NoCircularWait(s: State, group: set<Tid>)
    requires Inv(s)
    ensures !LockOrder.Deadlocked(Agents(s), group)
  {
    var agents := Agents(s);
    forall u | u in agents ensures LockOrder.Ordered(agents[u]) {
      assert ThreadOk(s, u);
    }
    LockOrder.NoDeadlock(agents, group);
  }

  /** t cannot move because u has the lock it wants. */
  ghost predicate WaitsFor(s: State, t: Tid, u: Tid) {
    && t in s.pc && u in s.pc && !Enabled(s, t)
    && Agents(s)[t].want.Wants? && Agents(s)[t].want.lock in Agents(s)[u].held
  }

  ghost predicate IsWaitChain(s: State, path: seq<Tid>) {
    forall i :: 0 <= i < |path| - 1 ==> WaitsFor(s, path[i], path[i + 1])
  }

  /** How many locks rank at or above the one that t wants. */
  ghost function Above(s: State, t: Tid): nat {
    if t in s.pc && Agents(s)[t].want.Wants? && Agents(s)[t].want.lock.rank <= |s.ropes|
    then |s.ropes| + 1 - Agents(s)[t].want.lock.rank
    else 0
  }

  /** A holder that waits in turn waits for a higher lock. */
  lemma WaitsHigher(s: State, t: Tid, u: Tid)
    requires Inv(s) && WaitsFor(s, t, u) && !Enabled(s, u)
    ensures Above(s, u) < Above(s, t)
  {
    assert ThreadOk(s, t) && ThreadOk(s, u);
  }

  /** From every thread that is blocked, the chain of holders leads to a thread
      that holds a lock and can move. */
  lemma {:induction false} WaitChainEnds(s: State, t: Tid) returns (path: seq<Tid>)
    requires Inv(s) && t in s.pc && !Enabled(s, t) && !Finished(s.pc[t])
    ensures |path| >= 2 && path[0] == t && IsWaitChain(s, path)
    ensures var u := path[|path| - 1]; Enabled(s, u) && Agents(s)[u].held != {}
    decreases Above(s, t)
  {
    var u := BlockedByHolder(s, t);
    if Enabled(s, u) {
      path := [t, u];
    } else {
      WaitsHigher(s, t, u);
      var rest := WaitChainEnds(s, u);
      path := [t] + rest;
    }
  }
}
