/**
 The order in which the kernel takes spinlocks. Each operation of
 kern/thread/thread.c and kern/thread/synch.c is written as the sequence of
 spinlock acquisitions and releases its CPU performs; every acquisition ranks
 above all locks held at that point: condition variables first, then sleep
 locks and semaphores, then run queues, then interprocessor interrupts.
 */
module SpinOrder {
  import opened LockOrder

  function Cv(i: nat): Lock { Lock(0, i) }
  function Sleep(i: nat): Lock { Lock(1, i) }
  function RunQueue(c: nat): Lock { Lock(2, c) }
  function Ipi(c: nat): Lock { Lock(3, c) }

  datatype Action = Take(lock: Lock) | Drop(lock: Lock)

  ghost function HeldAfter(held: set<Lock>, path: seq<Action>): set<Lock>
    decreases |path|
  {
    if path == [] then held
    else HeldAfter(if path[0].Take? then held + {path[0].lock} else held - {path[0].lock}, path[1..])
  }

  /** Every acquisition on the path ranks above what is held there. */
  ghost predicate Climbs(held: set<Lock>, path: seq<Action>)
    decreases |path|
  {
    path == []
    || (&& (path[0].Take? ==> forall h :: h in held ==> h.rank < path[0].lock.rank)
        && Climbs(if path[0].Take? then held + {path[0].lock} else held - {path[0].lock}, path[1..]))
  }

  lemma {:induction false} Append(held: set<Lock>, p: seq<Action>, q: seq<Action>)
    ensures HeldAfter(held, p + q) == HeldAfter(HeldAfter(held, p), q)
    ensures Climbs(held, p + q) <==> Climbs(held, p) && Climbs(HeldAfter(held, p), q)
    decreases |p|
  {
    if p == [] {
      assert p + q == q;
    } else {
      assert (p + q)[1..] == p[1..] + q;
      Append(if p[0].Take? then held + {p[0].lock} else held - {p[0].lock}, p[1..], q);
    }
  }

  /** A path that can be taken with the given locks held, and gives back what
      it takes. */
  ghost predicate Good(held: set<Lock>, path: seq<Action>) { Climbs(held, path) && HeldAfter(held, path) == held }

  lemma GoodThen(held: set<Lock>, p: seq<Action>, q: seq<Action>)
    requires Good(held, p) && Good(held, q)
    ensures Good(held, p + q)
  {
    Append(held, p, q);
  }

  /** Taking a lock around a good path. */
  lemma Around(held: set<Lock>, l: Lock, p: seq<Action>)
    requires l !in held && (forall h :: h in held ==> h.rank < l.rank) && Good(held + {l}, p)
    ensures Good(held, [Take(l)] + p + [Drop(l)])
  {
    assert held + {l} - {l} == held;
    assert [Take(l)] + p + [Drop(l)] == [Take(l)] + (p + [Drop(l)]);
    Append(held + {l}, p, [Drop(l)]);
    assert Climbs(held + {l}, [Drop(l)]) && HeldAfter(held + {l}, [Drop(l)]) == held by {
      assert [Drop(l)][1..] == [];
    }
    assert ([Take(l)] + (p + [Drop(l)]))[1..] == p + [Drop(l)];
  }

  // ------------------------------------------------------------------
  // The operations

  /** thread_make_runnable for a thread of CPU c, sending an interrupt if that
      CPU is idle. */
  function MakeRunnable(c: nat, idle: bool): seq<Action> {
    [Take(RunQueue(c))] + (if idle then [Take(Ipi(c))] + [] + [Drop(Ipi(c))] else []) + [Drop(RunQueue(c))]
  }

  datatype Target = Target(cpu: nat, idle: bool)

  /** The wake-ups of wchan_wakeone and wchan_wakeall. */
  function Wake(targets: seq<Target>): seq<Action> {
    if targets == [] then [] else MakeRunnable(targets[0].cpu, targets[0].idle) + Wake(targets[1..])
  }

  /** thread_switch to sleep under lock l on CPU c, idling n times. */
  function SwitchAway(l: Lock, c: nat, n: nat): seq<Action> {
    [Take(RunQueue(c)), Drop(l)] + [Drop(RunQueue(c))] + Idle(c, n)
  }

  /** The idle loop drops and retakes the run-queue lock. */
  function Idle(c: nat, n: nat): seq<Action> {
    if n == 0 then [] else [Take(RunQueue(c))] + [] + [Drop(RunQueue(c))] + Idle(c, n - 1)
  }

  /** wchan_sleep: the lock is taken again before returning. */
  function SleepOn(l: Lock, c: nat, idles: nat): seq<Action> { SwitchAway(l, c, idles) + [Take(l)] }

  function Sleeps(l: Lock, naps: seq<Target>, idles: nat): seq<Action> {
    if naps == [] then [] else SleepOn(l, naps[0].cpu, idles) + Sleeps(l, naps[1..], idles)
  }

  /** P and lock_acquire: check, sleep any number of times, proceed. */
  function Acquire(l: Lock, naps: seq<Target>,
                   idles: nat): seq<Action> { [Take(l)] + Sleeps(l, naps, idles) + [Drop(l)] }

  /** V, lock_release, cv_signal and cv_broadcast: wake under the lock. */
  function WakeUnder(l: Lock, targets: seq<Target>): seq<Action> { [Take(l)] + Wake(targets) + [Drop(l)] }

  /** cv_wait */
  function CvWait(cv: nat, lk: nat, woken: seq<Target>, c: nat, idles: nat, naps: seq<Target>): seq<Action> {
    [Take(Cv(cv))] + (WakeUnder(Sleep(lk), woken) + SleepOn(Cv(cv), c, idles)) + [Drop(Cv(cv))]
    + Acquire(Sleep(lk), naps, idles)
  }

  /** thread_consider_migration: the counting pass over CPUs 0 to n - 1 and
      the sending pass, which may interrupt each idle target many times. */
  function Count(n: nat): seq<Action> {
    if n == 0 then [] else Count(n - 1) + ([Take(RunQueue(n - 1))] + [] + [Drop(RunQueue(n - 1))])
  }

  function Interrupts(c: nat, n: nat): seq<Action> {
    if n == 0 then [] else [Take(Ipi(c))] + [] + [Drop(Ipi(c))] + Interrupts(c, n - 1)
  }

  function Send(targets: seq<Target>, n: nat): seq<Action> {
    if targets == [] then []
    else
      [Take(RunQueue(targets[0].cpu))] + Interrupts(targets[0].cpu, n) + [Drop(RunQueue(targets[0].cpu))]
      + Send(targets[1..], n)
  }

  datatype Operation =
    | OpP(sem: nat, naps: seq<Target>, idles: nat)
    | OpV(sem: nat, woken: seq<Target>)
    | OpLockAcquire(lk: nat, naps: seq<Target>, idles: nat)
    | OpLockRelease(lk: nat, woken: seq<Target>)
    | OpCvWait(cv: nat, lk: nat, woken: seq<Target>, cpu: nat, idles: nat, naps: seq<Target>)
    | OpCvWake(cv: nat, woken: seq<Target>)
    | OpYield(cpu: nat, idle: bool, idles: nat)
    | OpMigrate(ncpus: nat, targets: seq<Target>, ipis: nat)

  function PathOf(op: Operation): seq<Action> {
    match op
    case OpP(sem, naps, idles) => Acquire(Sleep(sem), naps, idles)
    case OpV(sem, woken) => WakeUnder(Sleep(sem), woken)
    case OpLockAcquire(lk, naps, idles) => Acquire(Sleep(lk), naps, idles)
    case OpLockRelease(lk, woken) => WakeUnder(Sleep(lk), woken)
    case OpCvWait(cv, lk, woken, cpu, idles, naps) => CvWait(cv, lk, woken, cpu, idles, naps)
    case OpCvWake(cv, woken) => WakeUnder(Cv(cv), woken)
    case OpYield(cpu, idle, idles) => MakeRunnable(cpu, idle) + Idle(cpu, idles)
    case OpMigrate(ncpus, targets, ipis) => Count(ncpus) + Send(targets, ipis)
  }

  // ------------------------------------------------------------------
  // Every operation climbs

  ghost predicate Below(held: set<Lock>, rank: nat) { forall h :: h in held ==> h.rank < rank }

  lemma MakeRunnableGood(held: set<Lock>, c: nat, idle: bool)
    requires Below(held, 2)
    ensures Good(held, MakeRunnable(c, idle))
  {
    if idle {
      Around(held + {RunQueue(c)}, Ipi(c), []);
    }
    Around(held, RunQueue(c), if idle then [Take(Ipi(c))] + [] + [Drop(Ipi(c))] else []);
  }

  lemma {:induction false} WakeGood(held: set<Lock>, targets: seq<Target>)
    requires Below(held, 2)
    ensures Good(held, Wake(targets))
    decreases |targets|
  {
    if targets != [] {
      MakeRunnableGood(held, targets[0].cpu, targets[0].idle);
      WakeGood(held, targets[1..]);
      GoodThen(held, MakeRunnable(targets[0].cpu, targets[0].idle), Wake(targets[1..]));
    }
  }

  lemma {:induction false} IdleGood(held: set<Lock>, c: nat, n: nat)
    requires Below(held, 2)
    ensures Good(held, Idle(c, n))
  {
    if n > 0 {
      Around(held, RunQueue(c), []);
      IdleGood(held, c, n - 1);
      GoodThen(held, [Take(RunQueue(c))] + [] + [Drop(RunQueue(c))], Idle(c, n - 1));
    }
  }

  /** wchan_sleep gives the lock up and takes it again, as its only lock. */
  lemma SleepOnGood(l: Lock, c: nat, idles: nat)
    requires l.rank < 2
    ensures Good({l}, SleepOn(l, c, idles))
  {
    var q := RunQueue(c);
    var a, b := [Take(q), Drop(l)] + [Drop(q)], Idle(c, idles);
    One({l}, Take(q));
    One({l} + {q}, Drop(l));
    One({l} + {q} - {l}, Drop(q));
    assert [Take(q), Drop(l)] == [Take(q)] + [Drop(l)];
    Append({l}, [Take(q)], [Drop(l)]);
    Append({l}, [Take(q), Drop(l)], [Drop(q)]);
    assert {l} + {q} - {l} - {q} == {};
    IdleGood({}, c, idles);
    Append({l}, a, b);
    One({}, Take(l));
    Append({l}, a + b, [Take(l)]);
    assert {} + {l} == {l};
  }

  lemma One(held: set<Lock>, x: Action)
    ensures HeldAfter(held, [x]) == (if x.Take? then held + {x.lock} else held - {x.lock})
    ensures Climbs(held, [x]) <==> (x.Take? ==> forall h :: h in held ==> h.rank < x.lock.rank)
  {
    assert [x][1..] == [];
  }

  lemma {:induction false} SleepsGood(l: Lock, naps: seq<Target>, idles: nat)
    requires l.rank < 2
    ensures Good({l}, Sleeps(l, naps, idles))
    decreases |naps|
  {
    if naps != [] {
      SleepOnGood(l, naps[0].cpu, idles);
      SleepsGood(l, naps[1..], idles);
      GoodThen({l}, SleepOn(l, naps[0].cpu, idles), Sleeps(l, naps[1..], idles));
    }
  }

  lemma AcquireGood(l: Lock, naps: seq<Target>, idles: nat)
    requires l.rank < 2
    ensures Good({}, Acquire(l, naps, idles))
  {
    SleepsGood(l, naps, idles);
    assert {} + {l} == {l};
    Around({}, l, Sleeps(l, naps, idles));
  }

  lemma WakeUnderGood(held: set<Lock>, l: Lock, targets: seq<Target>)
    requires l.rank < 2 && Below(held, l.rank)
    ensures Good(held, WakeUnder(l, targets))
  {
    WakeGood(held + {l}, targets);
    Around(held, l, Wake(targets));
  }

  lemma CvWaitGood(cv: nat, lk: nat, woken: seq<Target>, c: nat, idles: nat, naps: seq<Target>)
    ensures Good({}, CvWait(cv, lk, woken, c, idles, naps))
  {
    var a, b := WakeUnder(Sleep(lk), woken), SleepOn(Cv(cv), c, idles);
    WakeUnderGood({Cv(cv)}, Sleep(lk), woken);
    SleepOnGood(Cv(cv), c, idles);
    GoodThen({Cv(cv)}, a, b);
    assert {} + {Cv(cv)} == {Cv(cv)};
    Around({}, Cv(cv), a + b);
    AcquireGood(Sleep(lk), naps, idles);
    GoodThen({}, [Take(Cv(cv))] + (a + b) + [Drop(Cv(cv))], Acquire(Sleep(lk), naps, idles));
  }

  lemma {:induction false} CountGood(n: nat)
    ensures Good({}, Count(n))
  {
    if n > 0 {
      CountGood(n - 1);
      Around({}, RunQueue(n - 1), []);
      GoodThen({}, Count(n - 1), [Take(RunQueue(n - 1))] + [] + [Drop(RunQueue(n - 1))]);
    }
  }

  lemma {:induction false} InterruptsGood(held: set<Lock>, c: nat, n: nat)
    requires Below(held, 3)
    ensures Good(held, Interrupts(c, n))
  {
    if n > 0 {
      Around(held, Ipi(c), []);
      InterruptsGood(held, c, n - 1);
      GoodThen(held, [Take(Ipi(c))] + [] + [Drop(Ipi(c))], Interrupts(c, n - 1));
    }
  }

  lemma {:induction false} SendGood(targets: seq<Target>, n: nat)
    ensures Good({}, Send(targets, n))
    decreases |targets|
  {
    if targets != [] {
      var c := targets[0].cpu;
      InterruptsGood({} + {RunQueue(c)}, c, n);
      Around({}, RunQueue(c), Interrupts(c, n));
      SendGood(targets[1..], n);
      GoodThen({}, [Take(RunQueue(c))] + Interrupts(c, n) + [Drop(RunQueue(c))], Send(targets[1..], n));
    }
  }

  /** Every operation, with any parameters, starts and ends with no spinlock
      and climbs in between. */
  lemma EveryOperationClimbs(op: Operation)
    ensures Good({}, PathOf(op))
  {
    match op
    case OpP(sem, naps, idles) => AcquireGood(Sleep(sem), naps, idles);
    case OpV(sem, woken) => WakeUnderGood({}, Sleep(sem), woken);
    case OpLockAcquire(lk, naps, idles) => AcquireGood(Sleep(lk), naps, idles);
    case OpLockRelease(lk, woken) => WakeUnderGood({}, Sleep(lk), woken);
    case OpCvWait(cv, lk, woken, cpu, idles, naps) => CvWaitGood(cv, lk, woken, cpu, idles, naps);
    case OpCvWake(cv, woken) => WakeUnderGood({}, Cv(cv), woken);
    case OpYield(cpu, idle, idles) =>
      MakeRunnableGood({}, cpu, idle);
      IdleGood({}, cpu, idles);
      GoodThen({}, MakeRunnable(cpu, idle), Idle(cpu, idles));
    case OpMigrate(ncpus, targets, ipis) =>
      CountGood(ncpus);
      SendGood(targets, ipis);
      GoodThen({}, Count(ncpus), Send(targets, ipis));
  }

  /** A CPU part way through an operation. */
  datatype Progress = Progress(op: Operation, at: nat)

  ghost predicate Under(p: Progress) { p.at <= |PathOf(p.op)| }

  ghost function AgentOf(p: Progress): Agent
    requires Under(p)
  {
    var path := PathOf(p.op);
    Agent(HeldAfter({}, path[..p.at]),
          if p.at < |path| && path[p.at].Take? then Wants(path[p.at].lock) else Nothing)
  }

  lemma AgentOrdered(p: Progress)
    requires Under(p)
    ensures Ordered(AgentOf(p))
  {
    var path := PathOf(p.op);
    EveryOperationClimbs(p.op);
    assert path == path[..p.at] + path[p.at..];
    Append({}, path[..p.at], path[p.at..]);
  }

  /** Any number of CPUs, each anywhere inside any operation: no group of
      them waits for spinlocks in a circle. */
  lemma SpinlocksNeverDeadlock(cpus: map<nat, Progress>, group: set<nat>)
    requires forall c :: c in cpus ==> Under(cpus[c])
    ensures !Deadlocked(map c | c in cpus :: AgentOf(cpus[c]), group)
  {
    var agents := map c | c in cpus :: AgentOf(cpus[c]);
    forall a | a in agents ensures Ordered(agents[a]) { AgentOrdered(cpus[a]); }
    NoDeadlock(agents, group);
  }
}
