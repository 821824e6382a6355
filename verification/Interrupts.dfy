/**
 Interrupt-level counting: kern/thread/spl.c and kern/thread/spinlock.c as
 methods on a CPU and its current thread, and a transition system in which any
 number of CPUs take interrupts, change level, take and release spinlocks in
 any order, fork threads and switch between them.
 */
module Interrupts {

  type Tid = nat
  type LockId = nat

  const IPL_NONE := 0
  const IPL_HIGH := 1

  /** What spl.c and spinlock.c read and write on one CPU: t_iplhigh_count and
      t_curspl of the current thread, c_spinlocks, and the interrupt enable. */
  datatype Regs = Regs(count: int, curspl: int, spinlocks: int, irqOn: bool)

  /** Interrupt nesting is exact. */
  predicate Exact(r: Regs) { Nested(r.count, r.curspl, r.spinlocks, r.irqOn) }

  predicate Nested(count: int, curspl: int, spinlocks: int, irqOn: bool) {
    && (curspl == IPL_NONE || curspl == IPL_HIGH) && spinlocks >= 0
    && count == spinlocks + curspl
    && (irqOn <==> count == 0)
  }

  function Raised(r: Regs): Regs { r.(irqOn := r.irqOn && r.count != 0, count := r.count + 1) }

  function Lowered(r: Regs): Regs { r.(irqOn := r.irqOn || r.count == 1, count := r.count - 1) }

  function WithSpl(r: Regs, spl: int): Regs {
    if r.curspl < spl then Raised(r).(curspl := spl)
    else if r.curspl > spl then Lowered(r.(curspl := spl))
    else r
  }

  /** The adjustment the trap code makes around an interrupt handler. */
  function Interrupted(r: Regs): Regs { r.(irqOn := false, curspl := IPL_HIGH, count := r.count + 1) }

  function Returned(r: Regs): Regs { r.(irqOn := true, curspl := IPL_NONE, count := r.count - 1) }

  class Thread {
    var count: int
    var curspl: int
    constructor ()
      ensures count == 1 && curspl == IPL_HIGH
    {
      count, curspl := 1, IPL_HIGH;
    }
  }

  class Cpu {
    var cur: Thread
    var spinlocks: int
    var irqOn: bool

    ghost function View(): Regs
      reads this, cur
    {
      Regs(cur.count, cur.curspl, spinlocks, irqOn)
    }

    constructor (boot: Thread)
      ensures cur == boot && spinlocks == 0 && !irqOn
    {
      cur, spinlocks, irqOn := boot, 0, false;
    }

    /** splraise(IPL_NONE, IPL_HIGH) */
    method SplRaise()
      modifies this`irqOn, cur`count
      ensures View() == Raised(old(View()))
    {
      if cur.count == 0 {
        irqOn := false;
      }
      cur.count := cur.count + 1;
    }

    /** spllower(IPL_HIGH, IPL_NONE) */
    method SplLower()
      modifies this`irqOn, cur`count
      ensures View() == Lowered(old(View()))
    {
      cur.count := cur.count - 1;
      if cur.count == 0 {
        irqOn := true;
      }
    }

    /** splx: only the two levels exist. The old level comes back, so a second
        splx with it restores everything. */
    method Splx(spl: int) returns (ret: int)
      requires Exact(View()) && (spl == IPL_NONE || spl == IPL_HIGH)
      modifies this`irqOn, cur
      ensures View() == WithSpl(old(View()), spl)
      ensures ret == old(cur.curspl)
      ensures cur.curspl == spl && spinlocks == old(spinlocks) && cur.count == old(cur.count) + spl - ret
      ensures Exact(View())
      ensures WithSpl(View(), ret) == old(View())
    {
      if cur.curspl < spl {
        SplRaise();
        ret := cur.curspl;
        cur.curspl := spl;
      } else if cur.curspl > spl {
        ret := cur.curspl;
        cur.curspl := spl;
        SplLower();
      } else {
        ret := spl;
      }
    }
  }

  /** A spinlock: the lock word and who holds it. */
  class Spinlock {
    var locked: bool
    var holder: Cpu?

    ghost predicate Valid()
      reads this
    {
      locked <==> holder != null
    }

    constructor ()
      ensures Valid() && !locked
    {
      locked, holder := false, null;
    }

    /** The part of spinlock_acquire before the spin loop; a CPU that already
        holds the lock panics. */
    method AcquireEntry(mycpu: Cpu) returns (panicked: bool)
      requires Valid() && Exact(mycpu.View())
      modifies mycpu`irqOn, mycpu`spinlocks, mycpu.cur`count
      ensures panicked <==> holder == mycpu
      ensures !panicked ==> mycpu.View() == Raised(old(mycpu.View())).(spinlocks := old(mycpu.spinlocks) + 1)
      ensures !panicked ==> mycpu.spinlocks == old(mycpu.spinlocks) + 1 && mycpu.cur.count == old(mycpu.cur.count) + 1
      ensures !panicked ==> Exact(mycpu.View()) && !mycpu.irqOn
    {
      mycpu.SplRaise();
      if holder == mycpu {
        return true;
      }
      mycpu.spinlocks := mycpu.spinlocks + 1;
      return false;
    }

    /** One turn of the spin loop: test, test-and-set, record the holder. */
    method TryAcquire(mycpu: Cpu) returns (got: bool)
      requires Valid()
      modifies this
      ensures Valid() && (got <==> !old(locked))
      ensures got ==> holder == mycpu
      ensures !got ==> holder == old(holder)
    {
      if locked {
        return false;
      }
      locked := true;
      holder := mycpu;
      return true;
    }

    /** spinlock_release; the assertions of the source are its precondition. */
    method Release(mycpu: Cpu)
      requires Valid() && holder == mycpu && mycpu.spinlocks > 0 && Exact(mycpu.View())
      modifies this, mycpu`irqOn, mycpu`spinlocks, mycpu.cur`count
      ensures Valid() && !locked
      ensures mycpu.View() == Lowered(old(mycpu.View())).(spinlocks := old(mycpu.spinlocks) - 1)
      ensures mycpu.spinlocks == old(mycpu.spinlocks) - 1 && mycpu.cur.count == old(mycpu.cur.count) - 1
      ensures Exact(mycpu.View())
    {
      mycpu.spinlocks := mycpu.spinlocks - 1;
      holder := null;
      locked := false;
      mycpu.SplLower();
    }

    /** spinlock_do_i_hold */
    method DoIHold(mycpu: Cpu) returns (r: bool)
      requires Valid()
      ensures r <==> locked && holder == mycpu
    {
      r := holder == mycpu;
    }
  }

  // ------------------------------------------------------------------
  // The system

  datatype ThreadRegs = ThreadRegs(count: int, curspl: int)

  /** held: the spinlocks this CPU holds; waiting: the one it spins on; window:
      it is where cpu_idle has interrupts on although the level is high. */
  datatype CpuState = CpuState(cur: Tid, spinlocks: int, irqOn: bool, held: set<LockId>, waiting: set<LockId>,
                               window: bool)

  /** holder is splk_holder of every spinlock that has one. */
  datatype State = State(cpus: seq<CpuState>, threads: map<Tid, ThreadRegs>, holder: map<LockId, nat>)

  datatype Step =
    | Splx(c: nat, spl: int)
    | Request(c: nat, l: LockId)
    | Obtain(c: nat, l: LockId)
    | Release(c: nat, l: LockId)
    | TrapEnter(c: nat)
    | TrapExit(c: nat)
    | IdleOn(c: nat)
    | IdleOff(c: nat)
    | Fork(c: nat, t: Tid)
    | Switch(c: nat, next: Tid)

  predicate Runs(s: State, c: nat) {
    c < |s.cpus| && s.cpus[c].cur in s.threads && s.cpus[c].waiting == {} && !s.cpus[c].window
  }

  predicate Current(s: State, t: Tid) { exists c :: 0 <= c < |s.cpus| && s.cpus[c].cur == t }

  /** Each CPU's own run-queue lock. */
  function RunQueueLock(c: nat): LockId { c }

  function RegsOf(s: State, c: nat): Regs
    requires c < |s.cpus| && s.cpus[c].cur in s.threads
  {
    var k, th := s.cpus[c], s.threads[s.cpus[c].cur];
    Regs(th.count, th.curspl, k.spinlocks, k.irqOn)
  }

  function SetRegs(s: State, c: nat, r: Regs): State
    requires c < |s.cpus|
  {
    s.(cpus := s.cpus[c := s.cpus[c].(spinlocks := r.spinlocks, irqOn := r.irqOn)],
       threads := s.threads[s.cpus[c].cur := ThreadRegs(r.count, r.curspl)])
  }

  ghost predicate Enabled(s: State, step: Step) {
    match step
    case Splx(c, spl) => Runs(s, c) && (spl == IPL_NONE || spl == IPL_HIGH)
    case Request(c, l) => Runs(s, c) && l !in s.cpus[c].held
    case Obtain(c, l) =>
      c < |s.cpus| && s.cpus[c].waiting == {l} && forall d :: 0 <= d < |s.cpus| ==> l !in s.cpus[d].held
    case Release(c, l) => Runs(s, c) && l in s.cpus[c].held
    case TrapEnter(c) => Runs(s, c) && s.cpus[c].irqOn
    // the handler has put the level back and released its locks
    case TrapExit(c) => Runs(s, c) && s.threads[s.cpus[c].cur].curspl == IPL_HIGH && s.cpus[c].held == {}
    // cpu_irqonoff switches interrupts on, or a handler returns to it
    case IdleOn(c) => Runs(s, c) && s.threads[s.cpus[c].cur].curspl == IPL_HIGH && s.cpus[c].held == {}
    // it switches them off, or the processor does to take an interrupt
    case IdleOff(c) => c < |s.cpus| && s.cpus[c].window
    case Fork(c, t) => Runs(s, c) && t !in s.threads
    case Switch(c, next) =>
      // inside thread_switch: splhigh was called and only the run-queue lock is held
      && Runs(s, c) && s.threads[s.cpus[c].cur].curspl == IPL_HIGH && s.cpus[c].held == {RunQueueLock(c)}
      && next in s.threads && (next == s.cpus[c].cur || !Current(s, next))
  }

  ghost function Apply(s: State, step: Step): State
    requires Enabled(s, step)
  {
    match step
    case Splx(c, spl) => SetRegs(s, c, WithSpl(RegsOf(s, c), spl))
    case Request(c, l) =>
      var r := Raised(RegsOf(s, c));
      var s1 := SetRegs(s, c, r.(spinlocks := r.spinlocks + 1));
      s1.(cpus := s1.cpus[c := s1.cpus[c].(waiting := {l})])
    case Obtain(c, l) =>
      s.(cpus := s.cpus[c := s.cpus[c].(waiting := {}, held := s.cpus[c].held + {l})], holder := s.holder[l := c])
    case Release(c, l) =>
      var r := RegsOf(s, c);
      var s1 := SetRegs(s, c, Lowered(r.(spinlocks := r.spinlocks - 1)));
      s1.(cpus := s1.cpus[c := s1.cpus[c].(held := s1.cpus[c].held - {l})], holder := s1.holder - {l})
    case TrapEnter(c) => SetRegs(s, c, Interrupted(RegsOf(s, c)))
    case TrapExit(c) => SetRegs(s, c, Returned(RegsOf(s, c)))
    case IdleOn(c) => s.(cpus := s.cpus[c := s.cpus[c].(irqOn := true, window := true)])
    case IdleOff(c) => s.(cpus := s.cpus[c := s.cpus[c].(irqOn := false, window := false)])
    case Fork(c, t) => s.(threads := s.threads[t := ThreadRegs(2, IPL_HIGH)])
    case Switch(c, next) => s.(cpus := s.cpus[c := s.cpus[c].(cur := next)])
  }

  ghost predicate CpuOk(s: State, c: nat)
    requires c < |s.cpus|
  {
    s.cpus[c].cur in s.threads && Fits(s.cpus[c], s.threads[s.cpus[c].cur])
  }

  /** A CPU and its current thread agree. */
  ghost predicate Fits(k: CpuState, th: ThreadRegs) {
    && (k.window ==> k.irqOn && k.spinlocks == 0 && th.curspl == IPL_HIGH)
    && Nested(th.count, th.curspl, k.spinlocks, k.irqOn && !k.window)
    && Counted(k.spinlocks, k.held, k.waiting)
  }

  /** A CPU counts the locks it holds and the one it spins on. */
  ghost predicate Counted(spinlocks: int, held: set<LockId>, waiting: set<LockId>) {
    spinlocks == |held| + |waiting| && |waiting| <= 1 && held !! waiting
  }

  /** Every CPU's count is exact, every thread that is not running was
      switched out, or created, with count 2 at the high level, no thread runs
      on two CPUs and no lock is held by two. */
  ghost predicate Inv(s: State) {
    && (forall c :: 0 <= c < |s.cpus| ==> CpuOk(s, c))
    && (forall t :: t in s.threads && !Current(s, t) ==> s.threads[t] == ThreadRegs(2, IPL_HIGH))
    && (forall c, d :: 0 <= c < d < |s.cpus| ==> s.cpus[c].cur != s.cpus[d].cur)
    && HolderOk(s)
  }

  /** splk_holder names the CPU that holds the lock. */
  ghost predicate HolderOk(s: State) {
    && (forall l :: l in s.holder ==> s.holder[l] < |s.cpus|)
    && (forall c, l :: 0 <= c < |s.cpus| ==> (l in s.cpus[c].held <==> l in s.holder && s.holder[l] == c))
  }

  lemma SetRegsKeeps(s: State, c: nat, r: Regs)
    requires Inv(s) && c < |s.cpus| && Exact(r) && r.spinlocks == s.cpus[c].spinlocks && !s.cpus[c].window
    ensures Inv(SetRegs(s, c, r))
  {
    var s2 := SetRegs(s, c, r);
    assert CpuOk(s, c);
    forall d | 0 <= d < |s2.cpus| ensures CpuOk(s2, d) { assert CpuOk(s, d); }
    forall t | t in s2.threads && !Current(s2, t) ensures s2.threads[t] == ThreadRegs(2, IPL_HIGH) {
      SameCurrent(s, s2, t);
    }
  }

  lemma SplxKeeps(s: State, c: nat, spl: int)
    requires Inv(s) && Enabled(s, Splx(c, spl))
    ensures Inv(Apply(s, Splx(c, spl)))
  {
    assert CpuOk(s, c);
    SetRegsKeeps(s, c, WithSpl(RegsOf(s, c), spl));
  }

  lemma TrapEnterKeeps(s: State, c: nat)
    requires Inv(s) && Enabled(s, TrapEnter(c))
    ensures Inv(Apply(s, TrapEnter(c)))
  {
    assert CpuOk(s, c);
    SetRegsKeeps(s, c, Interrupted(RegsOf(s, c)));
  }

  lemma TrapExitKeeps(s: State, c: nat)
    requires Inv(s) && Enabled(s, TrapExit(c))
    ensures Inv(Apply(s, TrapExit(c)))
  {
    ExactOn(s, c);
    ReturnIsSplx(RegsOf(s, c));
    SplxKeeps(s, c, IPL_NONE);
  }

  lemma ExactOn(s: State, c: nat)
    requires Inv(s) && c < |s.cpus| && !s.cpus[c].window
    ensures s.cpus[c].cur in s.threads && Exact(RegsOf(s, c))
    ensures s.cpus[c].held == {} && s.cpus[c].waiting == {} ==> s.cpus[c].spinlocks == 0
  {
    assert CpuOk(s, c);
  }

  lemma ReturnIsSplx(r: Regs)
    requires Exact(r) && r.curspl == IPL_HIGH && r.spinlocks == 0
    ensures Returned(r) == WithSpl(r, IPL_NONE)
  {
  }

  /** Only the interrupt enable and the window of CPU c change. */
  lemma WindowKeeps(s: State, c: nat, irqOn: bool, window: bool)
    requires Inv(s) && c < |s.cpus|
    requires CpuOk(s.(cpus := s.cpus[c := s.cpus[c].(irqOn := irqOn, window := window)]), c)
    ensures Inv(s.(cpus := s.cpus[c := s.cpus[c].(irqOn := irqOn, window := window)]))
  {
    var s2 := s.(cpus := s.cpus[c := s.cpus[c].(irqOn := irqOn, window := window)]);
    forall d | 0 <= d < |s2.cpus| ensures CpuOk(s2, d) {
      if d != c { assert CpuOk(s, d); }
    }
    forall t | t in s2.threads && !Current(s2, t) ensures s2.threads[t] == ThreadRegs(2, IPL_HIGH) {
      SameCurrent(s, s2, t);
    }
  }

  lemma WindowFits(k: CpuState, th: ThreadRegs)
    requires Fits(k, th)
    ensures k.window ==> Fits(k.(irqOn := false, window := false), th)
    ensures th.curspl == IPL_HIGH && k.spinlocks == 0 && !k.window ==> Fits(k.(irqOn := true, window := true), th)
  {
  }

  /** A CPU whose only change is one that fits. */
  lemma FitsAt(s: State, c: nat, k: CpuState)
    requires c < |s.cpus| && k.cur in s.threads && Fits(k, s.threads[k.cur])
    ensures CpuOk(s.(cpus := s.cpus[c := k]), c)
  {
    assert s.cpus[c := k][c] == k;
  }

  lemma IdleOnKeeps(s: State, c: nat)
    requires Inv(s) && Enabled(s, IdleOn(c))
    ensures Inv(Apply(s, IdleOn(c)))
  {
    var k := s.cpus[c];
    assert CpuOk(s, c);
    WindowFits(k, s.threads[k.cur]);
    FitsAt(s, c, k.(irqOn := true, window := true));
    WindowKeeps(s, c, true, true);
  }

  lemma IdleOffKeeps(s: State, c: nat)
    requires Inv(s) && Enabled(s, IdleOff(c))
    ensures Inv(Apply(s, IdleOff(c)))
  {
    var k := s.cpus[c];
    assert CpuOk(s, c);
    WindowFits(k, s.threads[k.cur]);
    FitsAt(s, c, k.(irqOn := false, window := false));
    WindowKeeps(s, c, false, false);
  }

  lemma WindowStepsKeep(s: State, step: Step)
    requires Inv(s) && Enabled(s, step) && (step.IdleOn? || step.IdleOff?)
    ensures Inv(Apply(s, step))
  {
    if step.IdleOn? { IdleOnKeeps(s, step.c); } else { IdleOffKeeps(s, step.c); }
  }

  /** What the trap code asserts. An interrupt at the low level finds the count
      at zero; after a handler that put the level back and released its locks
      the count is one again. Any other interrupt comes in cpu_idle's window,
      at count one and without spinlocks, and needs no adjustment. */
  lemma TrapAsserts(s: State, c: nat)
    requires Inv(s) && c < |s.cpus|
    ensures s.cpus[c].cur in s.threads
    ensures Enabled(s, TrapEnter(c)) ==> s.threads[s.cpus[c].cur] == ThreadRegs(0, IPL_NONE)
    ensures Enabled(s, TrapExit(c)) ==> s.threads[s.cpus[c].cur].count == 1
    ensures s.cpus[c].irqOn && !Enabled(s, TrapEnter(c)) ==>
      Enabled(s, IdleOff(c)) && s.threads[s.cpus[c].cur] == ThreadRegs(1, IPL_HIGH) && s.cpus[c].spinlocks == 0
  {
    if c < |s.cpus| {
      assert CpuOk(s, c);
    }
  }

  lemma SameCurrent(s: State, s2: State, t: Tid)
    requires |s.cpus| == |s2.cpus| && forall c :: 0 <= c < |s.cpus| ==> s.cpus[c].cur == s2.cpus[c].cur
    ensures Current(s, t) <==> Current(s2, t)
  {
    if Current(s, t) {
      var c :| 0 <= c < |s.cpus| && s.cpus[c].cur == t;
      assert s2.cpus[c].cur == t;
    }
    if Current(s2, t) {
      var c :| 0 <= c < |s2.cpus| && s2.cpus[c].cur == t;
      assert s.cpus[c].cur == t;
    }
  }

  lemma RequestKeeps(s: State, c: nat, l: LockId)
    requires Inv(s) && Enabled(s, Request(c, l))
    ensures Inv(Apply(s, Request(c, l)))
  {
    var s2 := Apply(s, Request(c, l));
    assert CpuOk(s, c);
    forall d | 0 <= d < |s2.cpus| ensures CpuOk(s2, d) { assert CpuOk(s, d); }
    forall t | t in s2.threads && !Current(s2, t) ensures s2.threads[t] == ThreadRegs(2, IPL_HIGH) {
      SameCurrent(s, s2, t);
    }
  }

  lemma ObtainKeeps(s: State, c: nat, l: LockId)
    requires Inv(s) && Enabled(s, Obtain(c, l))
    ensures Inv(Apply(s, Obtain(c, l)))
  {
    var s2 := Apply(s, Obtain(c, l));
    assert CpuOk(s, c);
    assert |s.cpus[c].held + {l}| == |s.cpus[c].held| + 1;
    forall d | 0 <= d < |s2.cpus| ensures CpuOk(s2, d) { assert CpuOk(s, d); }
    forall t | t in s2.threads && !Current(s2, t) ensures s2.threads[t] == ThreadRegs(2, IPL_HIGH) {
      SameCurrent(s, s2, t);
    }
  }

  lemma ReleaseKeeps(s: State, c: nat, l: LockId)
    requires Inv(s) && Enabled(s, Release(c, l))
    ensures Inv(Apply(s, Release(c, l)))
  {
    var s2 := Apply(s, Release(c, l));
    assert CpuOk(s, c);
    assert |s.cpus[c].held - {l}| == |s.cpus[c].held| - 1;
    forall d | 0 <= d < |s2.cpus| ensures CpuOk(s2, d) { assert CpuOk(s, d); }
    forall t | t in s2.threads && !Current(s2, t) ensures s2.threads[t] == ThreadRegs(2, IPL_HIGH) {
      SameCurrent(s, s2, t);
    }
  }

  lemma ForkKeeps(s: State, c: nat, t: Tid)
    requires Inv(s) && Enabled(s, Fork(c, t))
    ensures Inv(Apply(s, Fork(c, t)))
  {
    var s2 := Apply(s, Fork(c, t));
    forall d | 0 <= d < |s2.cpus| ensures CpuOk(s2, d) { assert CpuOk(s, d); }
    forall u | u in s2.threads && !Current(s2, u) ensures s2.threads[u] == ThreadRegs(2, IPL_HIGH) {
      SameCurrent(s, s2, u);
    }
  }

  /** At the switch the leaving thread's count is exactly 2, whatever it did
      before, so the arriving thread's count fits the locks its CPU holds. */
  lemma SwitchCountIsTwo(s: State, c: nat, next: Tid)
    requires Inv(s) && Enabled(s, Switch(c, next))
    ensures s.threads[s.cpus[c].cur] == ThreadRegs(2, IPL_HIGH) && s.threads[next] == ThreadRegs(2, IPL_HIGH)
  {
    assert CpuOk(s, c);
    assert |{RunQueueLock(c)}| == 1;
  }

  lemma SwitchKeeps(s: State, c: nat, next: Tid)
    requires Inv(s) && Enabled(s, Switch(c, next))
    ensures Inv(Apply(s, Switch(c, next)))
  {
    SwitchCountIsTwo(s, c, next);
    var s2 := Apply(s, Switch(c, next));
    forall d | 0 <= d < |s2.cpus| ensures CpuOk(s2, d) { assert CpuOk(s, d); }
    forall t | t in s2.threads ensures Current(s2, t) || s2.threads[t] == ThreadRegs(2, IPL_HIGH) {
      if t != s.cpus[c].cur && Current(s, t) {
        var d :| 0 <= d < |s.cpus| && s.cpus[d].cur == t;
        assert s2.cpus[d].cur == t;
      }
    }
    forall a, b | 0 <= a < b < |s2.cpus| ensures s2.cpus[a].cur != s2.cpus[b].cur {
      assert s.cpus[a].cur != s.cpus[b].cur;
      assert s.cpus[a].cur != next || Current(s, next);
      assert s.cpus[b].cur != next || Current(s, next);
    }
  }

  lemma StepKeeps(s: State, step: Step)
    requires Inv(s) && Enabled(s, step)
    ensures Inv(Apply(s, step))
  {
    match step
    case Splx(c, spl) => SplxKeeps(s, c, spl);
    case TrapEnter(c) => TrapEnterKeeps(s, c);
    case TrapExit(c) => TrapExitKeeps(s, c);
    case IdleOn(_) => WindowStepsKeep(s, step);
    case IdleOff(_) => WindowStepsKeep(s, step);
    case Request(c, l) => RequestKeeps(s, c, l);
    case Obtain(c, l) => ObtainKeeps(s, c, l);
    case Release(c, l) => ReleaseKeeps(s, c, l);
    case Fork(c, t) => ForkKeeps(s, c, t);
    case Switch(c, next) => SwitchKeeps(s, c, next);
  }

  ghost predicate IsRun(s: State, run: seq<Step>)
    decreases |run|
  {
    run == [] || (Enabled(s, run[0]) && IsRun(Apply(s, run[0]), run[1..]))
  }

  ghost function After(s: State, run: seq<Step>): State
    requires IsRun(s, run)
    decreases |run|
  {
    if run == [] then s else After(Apply(s, run[0]), run[1..])
  }

  /** Boot: each CPU runs its own new thread, interrupts off, no locks. */
  ghost predicate Init(s: State) {
    && (forall c :: 0 <= c < |s.cpus| ==>
          && s.cpus[c].cur in s.threads && s.threads[s.cpus[c].cur] == ThreadRegs(1, IPL_HIGH)
          && s.cpus[c].spinlocks == 0 && !s.cpus[c].irqOn && !s.cpus[c].window && s.cpus[c].held == {}
          && s.cpus[c].waiting == {})
    && s.holder == map[]
    && (forall t :: t in s.threads ==> Current(s, t))
    && (forall c, d :: 0 <= c < d < |s.cpus| ==> s.cpus[c].cur != s.cpus[d].cur)
  }

  lemma InitInv(s: State)
    requires Init(s)
    ensures Inv(s)
  {
    forall c | 0 <= c < |s.cpus| ensures CpuOk(s, c) {}
  }

  lemma {:induction false} RunKeeps(s: State, run: seq<Step>)
    requires Inv(s) && IsRun(s, run)
    ensures Inv(After(s, run))
    decreases |run|
  {
    if run != [] {
      StepKeeps(s, run[0]);
      RunKeeps(Apply(s, run[0]), run[1..]);
    }
  }

  /**
   Over every run: on each CPU the count of the running thread is the number
   of spinlocks the CPU holds or spins on, plus one if the level is high;
   interrupts are on exactly when it is zero or in cpu_idle's window; every
   thread that is not running has count 2. A CPU that can take an interrupt
   therefore holds no spinlock and spins on none.
   */
  lemma NestingIsExact(s: State, run: seq<Step>)
    requires Init(s) && IsRun(s, run)
    ensures var s2 := After(s, run);
      && (forall c :: 0 <= c < |s2.cpus| ==>
            && s2.cpus[c].cur in s2.threads
            && var k, th := s2.cpus[c], s2.threads[s2.cpus[c].cur];
               && th.count == |k.held| + |k.waiting| + (if th.curspl == IPL_HIGH then 1 else 0)
               && (k.irqOn <==> th.count == 0 || k.window)
               && (k.irqOn ==> k.held == {} && k.waiting == {} && (th.curspl == IPL_NONE || k.window)))
      && (forall t :: t in s2.threads && !Current(s2, t) ==> s2.threads[t] == ThreadRegs(2, IPL_HIGH))
  {
    InitInv(s);
    RunKeeps(s, run);
    var s2 := After(s, run);
    forall c | 0 <= c < |s2.cpus|
      ensures s2.cpus[c].cur in s2.threads
      ensures var k, th := s2.cpus[c], s2.threads[s2.cpus[c].cur];
               && th.count == |k.held| + |k.waiting| + (if th.curspl == IPL_HIGH then 1 else 0)
               && (k.irqOn <==> th.count == 0 || k.window)
               && (k.irqOn ==> k.held == {} && k.waiting == {} && (th.curspl == IPL_NONE || k.window))
    {
      assert CpuOk(s2, c);
    }
  }

  // ------------------------------------------------------------------
  // Levels

  /** The level this step gives thread t, or the one it has now. */
  ghost function NextLevel(s: State, step: Step, t: Tid, now: int): int {
    match step
    case Splx(c, spl) => if c < |s.cpus| && s.cpus[c].cur == t then spl else now
    case TrapEnter(c) => if c < |s.cpus| && s.cpus[c].cur == t then IPL_HIGH else now
    case TrapExit(c) => if c < |s.cpus| && s.cpus[c].cur == t then IPL_NONE else now
    case Fork(_, u) => if u == t then IPL_HIGH else now
    case _ => now
  }

  /** The level thread t was last given in the run. */
  ghost function LastLevel(s: State, run: seq<Step>, t: Tid, now: int): int
    requires IsRun(s, run)
    decreases |run|
  {
    if run == [] then now else LastLevel(Apply(s, run[0]), run[1..], t, NextLevel(s, run[0], t, now))
  }

  lemma LevelStep(s: State, step: Step, t: Tid, now: int)
    requires Inv(s) && Enabled(s, step) && (t in s.threads ==> now == s.threads[t].curspl)
    ensures t in Apply(s, step).threads ==> Apply(s, step).threads[t].curspl == NextLevel(s, step, t, now)
  {
    if step.Splx? {
      assert CpuOk(s, step.c);
    }
  }

  lemma {:induction false} LevelRun(s: State, run: seq<Step>, t: Tid, now: int)
    requires Inv(s) && IsRun(s, run) && (t in s.threads ==> now == s.threads[t].curspl)
    ensures t in After(s, run).threads ==> After(s, run).threads[t].curspl == LastLevel(s, run, t, now)
    decreases |run|
  {
    if run != [] {
      StepKeeps(s, run[0]);
      LevelStep(s, run[0], t, now);
      LevelRun(Apply(s, run[0]), run[1..], t, NextLevel(s, run[0], t, now));
    }
  }

  /** Over every run the level of every thread, old or new, is the one it was
      last given, with any number of spinlocks held at the time. */
  lemma LevelIsLastSet(s: State, run: seq<Step>, t: Tid)
    requires Init(s) && IsRun(s, run)
    ensures t in After(s, run).threads ==> After(s, run).threads[t].curspl == LastLevel(s, run, t, IPL_HIGH)
  {
    InitInv(s);
    LevelRun(s, run, t, IPL_HIGH);
  }

  /** splx by a CPU that runs, with any number of spinlocks held. */
  lemma SplxSetsLevel(s: State, c: nat, spl: int)
    requires Inv(s) && Enabled(s, Splx(c, spl))
    ensures var s2 := Apply(s, Splx(c, spl));
      && Runs(s2, c) && s2.cpus[c].cur == s.cpus[c].cur && s2.cpus[c].held == s.cpus[c].held && s2.holder == s.holder
      && s2.threads[s2.cpus[c].cur] == ThreadRegs(|s.cpus[c].held| + spl, spl)
      && (s2.cpus[c].irqOn <==> s.cpus[c].held == {} && spl == IPL_NONE)
      && forall d :: 0 <= d < |s.cpus| && d != c ==> s2.cpus[d] == s.cpus[d]
  {
    assert CpuOk(s, c);
  }

  lemma RunJoin(s: State, a: Step, rest: seq<Step>)
    requires Enabled(s, a) && IsRun(Apply(s, a), rest)
    ensures IsRun(s, [a] + rest) && After(s, [a] + rest) == After(Apply(s, a), rest)
  {
    assert ([a] + rest)[1..] == rest;
  }

  /** thread_switch from wchan_sleep up to the switch: splhigh, take the
      run-queue lock, give up the channel's. */
  function LeaveCpu(c: nat, wchan: LockId): seq<Step> {
    [Splx(c, IPL_HIGH), Request(c, RunQueueLock(c)), Obtain(c, RunQueueLock(c)), Release(c, wchan)]
  }

  /** Nobody holds the run-queue lock of CPU c. */
  predicate QueueFree(s: State, c: nat) {
    forall d :: 0 <= d < |s.cpus| ==> RunQueueLock(c) !in s.cpus[d].held
  }

  lemma TakesQueue(s: State, c: nat)
    requires Inv(s) && Runs(s, c) && QueueFree(s, c)
    ensures var rq := RunQueueLock(c);
      && Enabled(s, Request(c, rq)) && Enabled(Apply(s, Request(c, rq)), Obtain(c, rq))
      && var s2 := Apply(Apply(s, Request(c, rq)), Obtain(c, rq));
         && Runs(s2, c) && s2.cpus[c].held == s.cpus[c].held + {rq} && s2.cpus[c].cur == s.cpus[c].cur
         && s2.threads[s.cpus[c].cur].curspl == s.threads[s.cpus[c].cur].curspl
         && |s2.cpus| == |s.cpus| && (forall d :: 0 <= d < |s.cpus| ==> s2.cpus[d].cur == s.cpus[d].cur)
         && s2.threads.Keys == s.threads.Keys
  {
    assert CpuOk(s, c);
    var s1 := Apply(s, Request(c, RunQueueLock(c)));
    assert forall d :: 0 <= d < |s1.cpus| ==> s1.cpus[d].held == s.cpus[d].held;
  }

  /** Giving up another lock leaves the level, the current thread and the rest
      of the locks. */
  lemma GivesUp(s: State, c: nat, l: LockId)
    requires Enabled(s, Release(c, l))
    ensures var s2 := Apply(s, Release(c, l));
      && Runs(s2, c) && s2.cpus[c].held == s.cpus[c].held - {l} && |s2.cpus| == |s.cpus|
      && (forall d :: 0 <= d < |s.cpus| ==> s2.cpus[d].cur == s.cpus[d].cur)
      && s2.threads.Keys == s.threads.Keys
      && s2.threads[s.cpus[c].cur].curspl == s.threads[s.cpus[c].cur].curspl
  {
  }

  lemma RunOfFour(s: State, a: Step, b: Step, c: Step, d: Step)
    requires Enabled(s, a) && Enabled(Apply(s, a), b) && Enabled(Apply(Apply(s, a), b), c)
    requires Enabled(Apply(Apply(Apply(s, a), b), c), d)
    ensures IsRun(s, [a, b, c, d]) && After(s, [a, b, c, d]) == Apply(Apply(Apply(Apply(s, a), b), c), d)
  {
    var s1 := Apply(s, a);
    var s2 := Apply(s1, b);
    var s3 := Apply(s2, c);
    RunJoin(s3, d, []);
    RunJoin(s2, c, [d] + []);
    RunJoin(s1, b, [c] + ([d] + []));
    RunJoin(s, a, [b] + ([c] + ([d] + [])));
    assert [a] + ([b] + ([c] + ([d] + []))) == [a, b, c, d];
  }

  /** A thread that sleeps gets to the switch from any level: the steps before
      it can all be taken, whatever the other CPUs hold, and every thread that
      does not run can be switched to. */
  lemma SleepReachesSwitch(s: State, c: nat, wchan: LockId, next: Tid)
    requires Inv(s) && Runs(s, c) && s.cpus[c].held == {wchan} && wchan != RunQueueLock(c) && QueueFree(s, c)
    requires next in s.threads && (next == s.cpus[c].cur || !Current(s, next))
    ensures IsRun(s, LeaveCpu(c, wchan)) && Enabled(After(s, LeaveCpu(c, wchan)), Switch(c, next))
  {
    var rq := RunQueueLock(c);
    var s1 := Apply(s, Splx(c, IPL_HIGH));
    SplxSetsLevel(s, c, IPL_HIGH);
    StepKeeps(s, Splx(c, IPL_HIGH));
    TakesQueue(s1, c);
    var s2 := Apply(s1, Request(c, rq));
    var s3 := Apply(s2, Obtain(c, rq));
    var s4 := Apply(s3, Release(c, wchan));
    GivesUp(s3, c, wchan);
    assert s4.cpus[c].held == {rq};
    SameCurrent(s, s4, next);
    RunOfFour(s, Splx(c, IPL_HIGH), Request(c, rq), Obtain(c, rq), Release(c, wchan));
  }

  /** After the switch the arriving thread runs; it gives up the run-queue lock
      and puts its own level back, and interrupts follow that level. */
  lemma SwitchArrives(s: State, c: nat, next: Tid, spl: int)
    requires Inv(s) && Enabled(s, Switch(c, next)) && (spl == IPL_NONE || spl == IPL_HIGH)
    ensures var run := [Switch(c, next), Release(c, RunQueueLock(c)), Splx(c, spl)];
      && IsRun(s, run)
      && var s2 := After(s, run);
         && c < |s2.cpus| && s2.cpus[c].cur == next && s2.cpus[c].held == {} && next in s2.threads
         && s2.threads[next] == ThreadRegs(spl, spl) && (s2.cpus[c].irqOn <==> spl == IPL_NONE)
  {
    var rq := RunQueueLock(c);
    SwitchCountIsTwo(s, c, next);
    assert CpuOk(s, c);
    assert |{rq}| == 1;
    var s1 := Apply(s, Switch(c, next));
    var s2 := Apply(s1, Release(c, rq));
    assert s2.cpus[c].held == {} && s2.threads[next] == ThreadRegs(1, IPL_HIGH);
    RunJoin(s2, Splx(c, spl), []);
    RunJoin(s1, Release(c, rq), [Splx(c, spl)] + []);
    RunJoin(s, Switch(c, next), [Release(c, rq)] + ([Splx(c, spl)] + []));
    assert [Switch(c, next)] + ([Release(c, rq)] + ([Splx(c, spl)] + []))
        == [Switch(c, next), Release(c, rq), Splx(c, spl)];
  }

  lemma SetBack(s: State, c: nat, r: Regs)
    requires c < |s.cpus| && s.cpus[c].cur in s.threads
    ensures SetRegs(SetRegs(s, c, r), c, RegsOf(s, c)) == s
  {
    var s2 := SetRegs(SetRegs(s, c, r), c, RegsOf(s, c));
    assert s2.cpus[c] == s.cpus[c] && s2.threads[s.cpus[c].cur] == s.threads[s.cpus[c].cur];
    assert s2.cpus == s.cpus && s2.threads == s.threads;
  }

  /** Where an interrupt can be taken outside the window. */
  lemma InterruptsFind(s: State, c: nat)
    requires Inv(s) && Enabled(s, TrapEnter(c))
    ensures RegsOf(s, c) == Regs(0, IPL_NONE, 0, true) && s.cpus[c].held == {}
  {
    assert CpuOk(s, c);
    assert |s.cpus[c].held| == 0;
  }

  /** An interrupt whose handler does nothing leaves no trace; inside it
      interrupts are off at the high level. */
  lemma TrapLeavesNoTrace(s: State, c: nat)
    requires Inv(s) && Enabled(s, TrapEnter(c))
    ensures var s1 := Apply(s, TrapEnter(c));
      && c < |s1.cpus| && s1.cpus[c].cur in s1.threads && RegsOf(s1, c) == Regs(1, IPL_HIGH, 0, false)
      && Enabled(s1, TrapExit(c)) && Apply(s1, TrapExit(c)) == s
  {
    InterruptsFind(s, c);
    var inside := Regs(1, IPL_HIGH, 0, false);
    var s1 := SetRegs(s, c, inside);
    assert Apply(s, TrapEnter(c)) == s1;
    assert Enabled(s1, TrapExit(c)) && RegsOf(s1, c) == inside;
    SetBack(s, c, inside);
  }

  /** cpu_idle's window opens with interrupts on, and closing it undoes that. */
  lemma WindowLeavesNoTrace(s: State, c: nat)
    requires Inv(s) && Enabled(s, IdleOn(c))
    ensures var s1 := Apply(s, IdleOn(c));
      c < |s1.cpus| && s1.cpus[c].irqOn && Enabled(s1, IdleOff(c)) && Apply(s1, IdleOff(c)) == s
  {
    assert CpuOk(s, c);
    assert !s.cpus[c].irqOn;
    var k := s.cpus[c].(irqOn := true, window := true);
    assert Apply(s, IdleOn(c)) == s.(cpus := s.cpus[c := k]);
    assert k.(irqOn := false, window := false) == s.cpus[c];
    assert s.cpus[c := k][c := s.cpus[c]] == s.cpus;
  }

  // ------------------------------------------------------------------
  // Who holds a spinlock

  /** What spinlock_do_i_hold answers on CPU c. */
  predicate DoIHold(s: State, c: nat, l: LockId) { l in s.holder && s.holder[l] == c }

  /** By the events of the run, CPU c has the lock; now says whether it had it
      before. */
  ghost function HasObtained(run: seq<Step>, c: nat, l: LockId, now: bool): bool
    decreases |run|
  {
    if run == [] then now
    else HasObtained(run[1..], c, l, run[0] == Obtain(c, l) || (run[0] != Release(c, l) && now))
  }

  lemma DoIHoldStep(s: State, step: Step, c: nat, l: LockId)
    requires Inv(s) && Enabled(s, step) && c < |s.cpus|
    ensures DoIHold(Apply(s, step), c, l) <==> step == Obtain(c, l) || (step != Release(c, l) && DoIHold(s, c, l))
  {
    assert DoIHold(s, c, l) <==> l in s.cpus[c].held;
    if step.Release? {
      assert step.l in s.cpus[step.c].held;
    }
  }

  lemma {:induction false} DoIHoldRun(s: State, run: seq<Step>, c: nat, l: LockId)
    requires Inv(s) && IsRun(s, run) && c < |s.cpus|
    ensures DoIHold(After(s, run), c, l) == HasObtained(run, c, l, DoIHold(s, c, l))
    decreases |run|
  {
    if run != [] {
      StepKeeps(s, run[0]);
      DoIHoldStep(s, run[0], c, l);
      DoIHoldRun(Apply(s, run[0]), run[1..], c, l);
    }
  }

  /** Over every run spinlock_do_i_hold is true on a CPU exactly when that CPU
      has obtained the lock and not released it since; then no other CPU gets
      that answer. */
  lemma DoIHoldIsExact(s: State, run: seq<Step>, c: nat, l: LockId)
    requires Init(s) && IsRun(s, run) && c < |s.cpus|
    ensures DoIHold(After(s, run), c, l) <==> HasObtained(run, c, l, false)
    ensures HasObtained(run, c, l, false) ==> forall d: nat :: d < |s.cpus| && d != c ==> !HasObtained(run, d, l, false)
  {
    InitInv(s);
    DoIHoldRun(s, run, c, l);
    forall d: nat | d < |s.cpus| ensures DoIHold(After(s, run), d, l) <==> HasObtained(run, d, l, false) {
      DoIHoldRun(s, run, d, l);
    }
  }
}
