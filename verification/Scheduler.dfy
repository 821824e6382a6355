/**
 The thread scheduler as a transition system: any number of CPUs, threads and
 wait channels. A step is one section of kern/thread/thread.c delimited by the
 acquisition and release of spinlocks; a section of thread_consider_migration
 that loops under a lock is one step per turn, with the lock held throughout.
 A CPU holds its own run-queue lock in the phases Choosing, Switching and
 Arriving; nobody else touches that queue then.
 */
module Scheduler {

  import opened KernLib

  type Tid = nat

  datatype ThreadState = Ready | Running | Sleeping | Dead

  /** The lists a thread's single list node can be on. Flight holds the
      threads taken off a wait channel, or just forked, by some CPU that has
      not yet put them on a run queue. */
  datatype ListId = Queue(cpu: nat) | Zombies(cpu: nat) | Victims(cpu: nat) | Wchan(id: nat) | Flight

  datatype Node = Off | On(list: ListId)

  /** saved: t_context holds everything needed to resume the thread. */
  datatype Thread = Thread(state: ThreadState, cpu: nat, node: Node, saved: bool)

  /** Where a CPU is in thread_switch; prev is the thread being left. */
  datatype Phase = Executing | Choosing | Idling | Switching(prev: Tid) | Arriving

  /** unidle: an interrupt is pending or being handled while idling. */
  datatype Cpu = Cpu(cur: Tid, phase: Phase, isidle: bool, unidle: bool)

  /** Where a CPU is in thread_consider_migration, with the local variables:
      the next CPU to look at, my_count, total_count, one_share and to_send.
      Taking and Returning hold the CPU's own run-queue lock, Filling that of
      CPU next. */
  datatype Progress =
    | NotMigrating
    | Counting(next: nat, mine: nat, total: nat)
    | Taking(share: nat, toSend: nat, taken: nat)
    | Sending(share: nat, toSend: nat, next: nat)
    | Filling(share: nat, toSend: nat, next: nat)
    | Returning

  datatype State = State(cpus: seq<Cpu>, threads: map<Tid, Thread>, lists: map<ListId, seq<Tid>>, mig: seq<Progress>)

  datatype Destination = ToReady | ToSleep(wchan: nat) | ToZombie

  datatype Step =
    | PutAway(c: nat, how: Destination)
    | Choose(c: nat)
    | GoIdle(c: nat)
    | Interrupt(c: nat)
    | Unidle(c: nat)
    | Switch(c: nat)
    | Finish(c: nat)
    | Exorcise(c: nat)
    | Fork(c: nat, t: Tid)
    | WakeOne(w: nat)
    | MakeRunnable(i: nat)
    | Migrate(c: nat, move: Move)

  /** The steps of thread_consider_migration. */
  datatype Move =
    | Start
    | Count
    | StayPut
    | BeginTaking
    | TakeVictim
    | EndTaking
    | Visit
    | SendVictim
    | LeaveQueue
    | BeginReturn
    | ReturnVictim
    | End

  // ------------------------------------------------------------------
  // Thread lists

  ghost predicate NoDup(q: seq<Tid>) { forall i, j :: 0 <= i < j < |q| ==> q[i] != q[j] }

  function ListOf(s: State, l: ListId): seq<Tid> { if l in s.lists then s.lists[l] else [] }

  /** Takes the thread at position i off list l. */
  function Remove(s: State, l: ListId, i: nat): State
    requires l in s.lists && i < |s.lists[l]| && s.lists[l][i] in s.threads
  {
    var q := s.lists[l];
    s.(lists := s.lists[l := q[..i] + q[i + 1..]], threads := s.threads[q[i] := s.threads[q[i]].(node := Off)])
  }

  function AddTail(s: State, l: ListId, t: Tid): State
    requires l in s.lists && t in s.threads
  {
    s.(lists := s.lists[l := s.lists[l] + [t]], threads := s.threads[t := s.threads[t].(node := On(l))])
  }

  function AddHead(s: State, l: ListId, t: Tid): State
    requires l in s.lists && t in s.threads
  {
    s.(lists := s.lists[l := [t] + s.lists[l]], threads := s.threads[t := s.threads[t].(node := On(l))])
  }

  /** Every list holds distinct threads whose node says so, and a node that
      says so is on the list: a thread is on at most one list, once. */
  ghost predicate ListsOk(s: State) {
    && (forall l :: l in s.lists ==> NoDup(s.lists[l]))
    && (forall l, i :: l in s.lists && 0 <= i < |s.lists[l]| ==>
          s.lists[l][i] in s.threads && s.threads[s.lists[l][i]].node == On(l))
    && (forall t :: t in s.threads && s.threads[t].node.On? ==>
          s.threads[t].node.list in s.lists && t in s.lists[s.threads[t].node.list])
  }

  lemma RemoveKeeps(s: State, l: ListId, i: nat)
    requires ListsOk(s) && l in s.lists && i < |s.lists[l]|
    ensures ListsOk(Remove(s, l, i))
  {
    var q, s' := s.lists[l], Remove(s, l, i);
    var r := q[..i] + q[i + 1..];
    assert forall j :: 0 <= j < |r| ==> r[j] == q[if j < i then j else j + 1];
    forall t | t in s'.threads && s'.threads[t].node.On?
      ensures s'.threads[t].node.list in s'.lists && t in s'.lists[s'.threads[t].node.list]
    {
      if s'.threads[t].node.list == l {
        var j :| 0 <= j < |q| && q[j] == t;
        assert j != i;
        assert r[if j < i then j else j - 1] == t;
      }
    }
  }

  lemma AddTailKeeps(s: State, l: ListId, t: Tid)
    requires ListsOk(s) && l in s.lists && t in s.threads && s.threads[t].node == Off
    ensures ListsOk(AddTail(s, l, t))
  {
    var q, s' := s.lists[l], AddTail(s, l, t);
    assert t !in q;
    forall u | u in s'.threads && s'.threads[u].node.On?
      ensures s'.threads[u].node.list in s'.lists && u in s'.lists[s'.threads[u].node.list]
    {
      if u == t { assert s'.lists[l][|q|] == t; } else { assert u in s.threads; }
    }
  }

  lemma AddHeadKeeps(s: State, l: ListId, t: Tid)
    requires ListsOk(s) && l in s.lists && t in s.threads && s.threads[t].node == Off
    ensures ListsOk(AddHead(s, l, t))
  {
    var q, s' := s.lists[l], AddHead(s, l, t);
    assert t !in q;
    forall u | u in s'.threads && s'.threads[u].node.On?
      ensures s'.threads[u].node.list in s'.lists && u in s'.lists[s'.threads[u].node.list]
    {
      if u == t { assert s'.lists[l][0] == t; } else { assert u in s.threads; }
    }
  }

  // ------------------------------------------------------------------
  // Steps

  /** The thread whose stack a CPU is on: until switchframe_switch that is
      still the old one. */
  function Stack(k: Cpu): Tid { if k.phase.Switching? then k.phase.prev else k.cur }

  predicate HoldsRunQueue(k: Cpu) { k.phase.Choosing? || k.phase.Switching? || k.phase.Arriving? }

  /** The phases in which c_curthread is off every list. */
  predicate Busy(p: Phase) { p.Executing? || p.Switching? || p.Arriving? }

  /** A CPU can run kernel code, directly or in an interrupt while idling. */
  predicate CanRun(k: Cpu) { k.phase.Executing? || (k.phase.Idling? && k.unidle) }

  predicate HasCpu(s: State, c: nat) {
    && c < |s.cpus| && s.cpus[c].cur in s.threads
    && Queue(c) in s.lists && Zombies(c) in s.lists && Victims(c) in s.lists && Flight in s.lists
  }

  /** The CPU itself holds its run-queue lock. */
  predicate OwnLock(s: State, c: nat)
    requires c < |s.cpus| && c < |s.mig|
  {
    HoldsRunQueue(s.cpus[c]) || s.mig[c].Taking? || s.mig[c].Returning?
  }

  predicate Fills(g: Progress, c: nat) { g.Filling? && g.next == c }

  /** Nobody holds the run-queue lock of CPU c. */
  predicate Unlocked(s: State, c: nat) {
    c < |s.cpus| && c < |s.mig| && !OwnLock(s, c) && forall e :: 0 <= e < |s.mig| ==> !Fills(s.mig[e], c)
  }

  /** The CPU executes, and not inside thread_consider_migration. */
  predicate InThread(s: State, c: nat) {
    HasCpu(s, c) && s.cpus[c].phase.Executing? && c < |s.mig| && s.mig[c].NotMigrating?
  }

  predicate Enabled(s: State, step: Step) {
    match step
    case PutAway(c, how) =>
      && InThread(s, c) && Unlocked(s, c)
      && (how.ToReady? ==> s.lists[Queue(c)] != [])
      && (how.ToSleep? ==> Wchan(how.wchan) in s.lists)
    case Choose(c) =>
      HasCpu(s, c) && s.cpus[c].phase.Choosing? && s.lists[Queue(c)] != [] && s.lists[Queue(c)][0] in s.threads
    case GoIdle(c) => HasCpu(s, c) && s.cpus[c].phase.Choosing? && s.lists[Queue(c)] == []
    case Interrupt(c) => HasCpu(s, c) && s.cpus[c].phase.Idling?
    case Unidle(c) =>
      HasCpu(s, c) && s.cpus[c].phase.Idling? && s.cpus[c].unidle && Unlocked(s, c) && s.mig[c].NotMigrating?
    case Switch(c) => HasCpu(s, c) && s.cpus[c].phase.Switching? && s.cpus[c].phase.prev in s.threads
    case Finish(c) => HasCpu(s, c) && s.cpus[c].phase.Arriving?
    case Exorcise(c) =>
      InThread(s, c) && s.lists[Zombies(c)] != [] && s.lists[Zombies(c)][0] in s.threads
    case Fork(c, t) => InThread(s, c) && t !in s.threads
    case WakeOne(w) =>
      Wchan(w) in s.lists && s.lists[Wchan(w)] != [] && s.lists[Wchan(w)][0] in s.threads && Flight in s.lists
    case MakeRunnable(i) =>
      && Flight in s.lists && i < |s.lists[Flight]| && s.lists[Flight][i] in s.threads
      && var c := s.threads[s.lists[Flight][i]].cpu; HasCpu(s, c) && Unlocked(s, c)
    case Migrate(c, move) => HasCpu(s, c) && c < |s.mig| && CanMove(s, c, move)
  }

  /** The victims have been offered to every CPU, or none is left to send. */
  predicate Offered(s: State, g: Progress) { g.Sending? && (g.next >= |s.cpus| || g.toSend == 0) }

  predicate CanMove(s: State, c: nat, move: Move)
    requires HasCpu(s, c) && c < |s.mig|
  {
    var g := s.mig[c];
    match move
    case Start => g.NotMigrating? && CanRun(s.cpus[c])
    case Count => g.Counting? && g.next < |s.cpus| && HasCpu(s, g.next) && Unlocked(s, g.next)
    case StayPut => g.Counting? && g.next >= |s.cpus| && g.mine < DivRoundUp(g.total, |s.cpus|)
    case BeginTaking => g.Counting? && g.next >= |s.cpus| && g.mine >= DivRoundUp(g.total, |s.cpus|) && Unlocked(s, c)
    case TakeVictim =>
      g.Taking? && g.taken < g.toSend && s.lists[Queue(c)] != [] && Last(s.lists[Queue(c)]) in s.threads
    case EndTaking => g.Taking? && g.taken >= g.toSend
    case Visit => g.Sending? && !Offered(s, g) && (g.next == c || Unlocked(s, g.next))
    case SendVictim =>
      && g.Filling? && g.toSend > 0 && HasCpu(s, g.next) && |s.lists[Queue(g.next)]| < g.share
      && s.lists[Victims(c)] != [] && s.lists[Victims(c)][0] in s.threads
    case LeaveQueue => g.Filling? && HasCpu(s, g.next) && (g.toSend == 0 || |s.lists[Queue(g.next)]| >= g.share)
    case BeginReturn => Offered(s, g) && s.lists[Victims(c)] != [] && Unlocked(s, c)
    case ReturnVictim => g.Returning? && s.lists[Victims(c)] != [] && s.lists[Victims(c)][0] in s.threads
    case End => (Offered(s, g) || g.Returning?) && s.lists[Victims(c)] == []
  }

  function Last(q: seq<Tid>): Tid
    requires q != []
  {
    q[|q| - 1]
  }

  function SetMig(s: State, c: nat, g: Progress): State
    requires c < |s.mig|
  {
    s.(mig := s.mig[c := g])
  }

  function SetCpu(s: State, c: nat, k: Cpu): State
    requires c < |s.cpus|
  {
    s.(cpus := s.cpus[c := k])
  }

  function SetThread(s: State, t: Tid, th: Thread): State { s.(threads := s.threads[t := th]) }

  /** The list a thread leaving its CPU goes to. */
  function PlaceFor(c: nat, how: Destination): ListId {
    match how case ToReady => Queue(c) case ToSleep(w) => Wchan(w) case ToZombie => Zombies(c)
  }

  /** ipi_send(IPI_UNIDLE) when the target CPU is idle. */
  function Notify(s: State, c: nat): State
    requires c < |s.cpus|
  {
    if s.cpus[c].isidle then SetCpu(s, c, s.cpus[c].(unidle := true)) else s
  }

  function Apply(s: State, step: Step): State
    requires Enabled(s, step)
  {
    match step
    case PutAway(c, how) =>
      var k := s.cpus[c];
      var st := match how case ToReady => Ready case ToSleep(_) => Sleeping case ToZombie => Dead;
      var s1 := AddTail(s, PlaceFor(c, how), k.cur);
      SetCpu(SetThread(s1, k.cur, s1.threads[k.cur].(state := st)), c, k.(phase := Choosing, isidle := true))
    case Choose(c) =>
      var k := s.cpus[c];
      SetCpu(Remove(s, Queue(c), 0), c, k.(cur := s.lists[Queue(c)][0], phase := Switching(k.cur), isidle := false))
    case GoIdle(c) => SetCpu(s, c, s.cpus[c].(phase := Idling, unidle := false))
    case Interrupt(c) => SetCpu(s, c, s.cpus[c].(unidle := true))
    case Unidle(c) => SetCpu(s, c, s.cpus[c].(phase := Choosing, unidle := false))
    case Switch(c) =>
      var k := s.cpus[c];
      var s1 := SetThread(s, k.phase.prev, s.threads[k.phase.prev].(saved := true));
      SetCpu(SetThread(s1, k.cur, s1.threads[k.cur].(saved := false)), c, k.(phase := Arriving))
    case Finish(c) =>
      var k := s.cpus[c];
      SetCpu(SetThread(s, k.cur, s.threads[k.cur].(state := Running)), c, k.(phase := Executing))
    case Exorcise(c) =>
      var z := s.lists[Zombies(c)][0];
      var s1 := Remove(s, Zombies(c), 0);
      s1.(threads := s1.threads - {z})
    case Fork(c, t) =>
      AddTail(SetThread(s, t, Thread(Ready, s.threads[s.cpus[c].cur].cpu, Off, true)), Flight, t)
    case WakeOne(w) => AddTail(Remove(s, Wchan(w), 0), Flight, s.lists[Wchan(w)][0])
    case MakeRunnable(i) =>
      var t := s.lists[Flight][i];
      var c := s.threads[t].cpu;
      var s1 := AddTail(Remove(s, Flight, i), Queue(c), t);
      Notify(SetThread(s1, t, s1.threads[t].(state := Ready)), c)
    case Migrate(c, move) => ApplyMove(s, c, move)
  }

  function ApplyMove(s: State, c: nat, move: Move): State
    requires HasCpu(s, c) && c < |s.mig| && CanMove(s, c, move)
  {
    var g := s.mig[c];
    match move
    case Start => SetMig(s, c, Counting(0, 0, 0))
    case Count =>
      var n := |s.lists[Queue(g.next)]|;
      SetMig(s, c, Counting(g.next + 1, if g.next == c then n else g.mine, g.total + n))
    case StayPut => SetMig(s, c, NotMigrating)
    case BeginTaking =>
      var share := DivRoundUp(g.total, |s.cpus|);
      SetMig(s, c, Taking(share, g.mine - share, 0))
    case TakeVictim => SetMig(Take(s, c), c, Taking(g.share, g.toSend, g.taken + 1))
    case EndTaking => SetMig(s, c, Sending(g.share, g.toSend, 0))
    case Visit =>
      SetMig(s, c, if g.next == c then Sending(g.share, g.toSend, g.next + 1) else Filling(g.share, g.toSend, g.next))
    case SendVictim => SetMig(Send(s, c, g.next), c, Filling(g.share, g.toSend - 1, g.next))
    case LeaveQueue => SetMig(s, c, Sending(g.share, g.toSend, g.next + 1))
    case BeginReturn => SetMig(s, c, Returning)
    case ReturnVictim => Return(s, c)
    case End => SetMig(s, c, NotMigrating)
  }

  function Return(s: State, c: nat): State
    requires HasCpu(s, c) && s.lists[Victims(c)] != [] && s.lists[Victims(c)][0] in s.threads
  {
    AddTail(Remove(s, Victims(c), 0), Queue(c), s.lists[Victims(c)][0])
  }

  /** threadlist_remtail on the run queue, threadlist_addhead on the victims. */
  function Take(s: State, c: nat): State
    requires HasCpu(s, c) && s.lists[Queue(c)] != [] && Last(s.lists[Queue(c)]) in s.threads
  {
    var n := |s.lists[Queue(c)]| - 1;
    AddHead(Remove(s, Queue(c), n), Victims(c), s.lists[Queue(c)][n])
  }

  /** The head victim of CPU c goes to CPU d, unless it is c_curthread, which
      is shuffled to the end. */
  function Send(s: State, c: nat, d: nat): State
    requires HasCpu(s, c) && HasCpu(s, d) && s.lists[Victims(c)] != [] && s.lists[Victims(c)][0] in s.threads
  {
    var t := s.lists[Victims(c)][0];
    if t == s.cpus[c].cur then AddTail(Remove(s, Victims(c), 0), Victims(c), t)
    else MoveTo(s, c, d)
  }

  function MoveTo(s: State, c: nat, d: nat): State
    requires HasCpu(s, c) && HasCpu(s, d) && s.lists[Victims(c)] != [] && s.lists[Victims(c)][0] in s.threads
  {
    var t := s.lists[Victims(c)][0];
    var s1 := Remove(s, Victims(c), 0);
    Notify(AddTail(SetThread(s1, t, s1.threads[t].(cpu := d)), Queue(d), t), d)
  }

  // ------------------------------------------------------------------
  // The invariant

  ghost predicate CpuOk(s: State, c: nat)
    requires c < |s.cpus|
  {
    var k := s.cpus[c];
    && HasCpu(s, c) && s.threads[k.cur].cpu == c
    && (k.phase.Switching? ==> k.phase.prev in s.threads && s.threads[k.phase.prev].cpu == c)
    && !s.threads[Stack(k)].saved
    && (k.isidle <==> !Busy(k.phase))
    && (k.phase.Executing? ==> s.threads[k.cur].state == Running)
    && (Busy(k.phase) <==> s.threads[k.cur].node == Off)
    && (k.phase.Switching? && k.phase.prev != k.cur ==> s.threads[k.phase.prev].node.On?)
    && (k.phase.Idling? && s.lists[Queue(c)] != [] ==> k.unidle)
  }

  ghost predicate ThreadOk(s: State, t: Tid)
    requires t in s.threads
  {
    var th := s.threads[t];
    && th.cpu < |s.cpus|
    && (!th.saved ==> Stack(s.cpus[th.cpu]) == t)
    && (th.node.Off? ==> s.cpus[th.cpu].cur == t && Busy(s.cpus[th.cpu].phase))
    && (th.node.On? ==> match th.node.list
          case Queue(c) => c == th.cpu && th.state == Ready
          case Victims(c) => c == th.cpu && th.state == Ready
          case Zombies(c) => c == th.cpu && th.state == Dead
          case Wchan(_) => th.state == Sleeping
          case Flight => th.state != Dead)
    && (th.node.Off? ==> th.state != Dead)
  }

  ghost predicate RolesOk(s: State) {
    && (forall c :: 0 <= c < |s.cpus| ==> CpuOk(s, c))
    && (forall t :: t in s.threads ==> ThreadOk(s, t))
  }

  /** Migration is run by a CPU that can run; victims exist only meanwhile;
      the threads still to be taken are on the queue, and those still to be
      sent are on the list of victims. */
  ghost predicate MigOk(s: State, c: nat)
    requires c < |s.cpus| == |s.mig|
  {
    var g, queue, victims := s.mig[c], |ListOf(s, Queue(c))|, |ListOf(s, Victims(c))|;
    && (!g.NotMigrating? ==> CanRun(s.cpus[c]))
    && match g
       case NotMigrating => victims == 0
       case Counting(_, mine, _) => victims == 0 && mine <= queue
       case Taking(_, toSend, taken) => victims == taken <= toSend <= queue + taken
       case Sending(_, toSend, _) => toSend <= victims
       case Filling(_, toSend, next) => toSend <= victims && next < |s.cpus| && next != c
       case Returning => true
  }

  /** Whoever fills the queue of another CPU holds its lock alone. */
  ghost predicate LocksOk(s: State) {
    && |s.mig| == |s.cpus|
    && (forall c, d :: 0 <= c < |s.mig| && 0 <= d < |s.cpus| && Fills(s.mig[c], d) ==> !OwnLock(s, d))
    && (forall c, d, q :: 0 <= c < d < |s.mig| && Fills(s.mig[c], q) ==> !Fills(s.mig[d], q))
  }

  ghost predicate MigsOk(s: State) { LocksOk(s) && forall c :: 0 <= c < |s.cpus| ==> MigOk(s, c) }

  /** Lists and roles. */
  ghost predicate Core(s: State) { ListsOk(s) && RolesOk(s) }

  ghost predicate Inv(s: State) { Core(s) && MigsOk(s) }

  /** A step outside migration: no lock is taken that another CPU holds, the
      victims stay, and the queue of a migrating CPU does not shrink. */
  ghost predicate Apart(s: State, s': State) {
    && s'.mig == s.mig && |s'.cpus| == |s.cpus|
    && (forall c :: 0 <= c < |s.cpus| ==>
          (HoldsRunQueue(s'.cpus[c]) ==> HoldsRunQueue(s.cpus[c]) || Unlocked(s, c)))
    && (forall c :: 0 <= c < |s.cpus| && c < |s.mig| && !s.mig[c].NotMigrating? && CanRun(s.cpus[c]) ==>
          CanRun(s'.cpus[c]) && |ListOf(s', Queue(c))| >= |ListOf(s, Queue(c))|)
    && (forall c :: 0 <= c < |s.cpus| ==> |ListOf(s', Victims(c))| == |ListOf(s, Victims(c))|)
  }

  lemma ApartKeeps(s: State, s': State)
    requires MigsOk(s) && Apart(s, s')
    ensures MigsOk(s')
  {
    forall c, d | 0 <= c < |s'.mig| && 0 <= d < |s'.cpus| && Fills(s'.mig[c], d) ensures !OwnLock(s', d) {
      assert Fills(s.mig[c], d) && !OwnLock(s, d);
    }
    forall c | 0 <= c < |s'.cpus| ensures MigOk(s', c) {
      assert MigOk(s, c);
    }
  }

  lemma PutAwayKeeps(s: State, c: nat, how: Destination)
    requires Core(s) && Enabled(s, PutAway(c, how))
    ensures Core(Apply(s, PutAway(c, how)))
  {
    assert CpuOk(s, c);
    AddTailKeeps(s, PlaceFor(c, how), s.cpus[c].cur);
    SameLists(AddTail(s, PlaceFor(c, how), s.cpus[c].cur), Apply(s, PutAway(c, how)));
    PutAwayRoles(s, c, how);
  }

  lemma PutAwayRoles(s: State, c: nat, how: Destination)
    requires RolesOk(s) && Enabled(s, PutAway(c, how))
    ensures RolesOk(Apply(s, PutAway(c, how)))
  {
    var s2 := Apply(s, PutAway(c, how));
    assert CpuOk(s, c) && ThreadOk(s, s.cpus[c].cur);
    forall d | 0 <= d < |s2.cpus| ensures CpuOk(s2, d) { assert CpuOk(s, d); }
    forall t | t in s2.threads ensures ThreadOk(s2, t) { assert ThreadOk(s, t); }
  }

  /** Changes that touch no list node keep the lists in order. */
  lemma SameLists(s: State, s': State)
    requires ListsOk(s) && s'.lists == s.lists && s'.threads.Keys == s.threads.Keys
    requires forall t :: t in s.threads ==> s'.threads[t].node == s.threads[t].node
    ensures ListsOk(s')
  {
  }

  lemma ChooseKeeps(s: State, c: nat)
    requires Core(s) && Enabled(s, Choose(c))
    ensures Core(Apply(s, Choose(c)))
  {
    RemoveKeeps(s, Queue(c), 0);
    var s1, s2 := Remove(s, Queue(c), 0), Apply(s, Choose(c));
    assert CpuOk(s, c) && ThreadOk(s, s.lists[Queue(c)][0]) && ThreadOk(s, s.cpus[c].cur);
    assert ListsOk(s2) by { SameLists(s1, s2); }
    forall d | 0 <= d < |s2.cpus| ensures CpuOk(s2, d) { assert CpuOk(s, d); }
    forall t | t in s2.threads ensures ThreadOk(s2, t) { assert ThreadOk(s, t); }
  }

  lemma IdleStepsKeep(s: State, step: Step)
    requires Core(s) && Enabled(s, step) && (step.GoIdle? || step.Interrupt? || step.Unidle?)
    ensures Core(Apply(s, step))
  {
    var s2 := Apply(s, step);
    SameLists(s, s2);
    forall d | 0 <= d < |s2.cpus| ensures CpuOk(s2, d) { assert CpuOk(s, d); }
    forall t | t in s2.threads ensures ThreadOk(s2, t) { assert ThreadOk(s, t); }
  }

  /** The heart of the protocol: the context about to be loaded was saved, or
      belongs to the very thread being left. */
  lemma SwitchIsSafe(s: State, c: nat)
    requires Core(s) && c < |s.cpus| && s.cpus[c].phase.Switching?
    ensures s.cpus[c].cur in s.threads
    ensures s.cpus[c].cur == s.cpus[c].phase.prev || s.threads[s.cpus[c].cur].saved
  {
    assert CpuOk(s, c);
    assert ThreadOk(s, s.cpus[c].cur);
  }

  lemma SwitchKeeps(s: State, c: nat)
    requires Core(s) && Enabled(s, Switch(c))
    ensures Core(Apply(s, Switch(c)))
  {
    SameLists(s, Apply(s, Switch(c)));
    SwitchRoles(s, c);
  }

  lemma SwitchRoles(s: State, c: nat)
    requires RolesOk(s) && Enabled(s, Switch(c))
    ensures RolesOk(Apply(s, Switch(c)))
  {
    var s2 := Apply(s, Switch(c));
    assert CpuOk(s, c) && ThreadOk(s, s.cpus[c].cur) && ThreadOk(s, s.cpus[c].phase.prev);
    forall d | 0 <= d < |s2.cpus| ensures CpuOk(s2, d) { assert CpuOk(s, d); }
    forall t | t in s2.threads ensures ThreadOk(s2, t) { assert ThreadOk(s, t); }
  }

  lemma FinishKeeps(s: State, c: nat)
    requires Core(s) && Enabled(s, Finish(c))
    ensures Core(Apply(s, Finish(c)))
  {
    var s2 := Apply(s, Finish(c));
    SameLists(s, s2);
    assert CpuOk(s, c) && ThreadOk(s, s.cpus[c].cur);
    forall d | 0 <= d < |s2.cpus| ensures CpuOk(s2, d) { assert CpuOk(s, d); }
    forall t | t in s2.threads ensures ThreadOk(s2, t) { assert ThreadOk(s, t); }
  }

  /** What exorcise asserts, and more: the zombie is not current anywhere,
      not on any CPU's stack, and its state is zombie. */
  lemma ZombieIsGone(s: State, c: nat)
    requires Core(s) && Enabled(s, Exorcise(c))
    ensures var z := s.lists[Zombies(c)][0];
      && s.threads[z].state == Dead
      && forall d :: 0 <= d < |s.cpus| ==> s.cpus[d].cur != z && Stack(s.cpus[d]) != z
  {
    var z := s.lists[Zombies(c)][0];
    assert ThreadOk(s, z) && CpuOk(s, c);
    forall d | 0 <= d < |s.cpus| ensures s.cpus[d].cur != z && Stack(s.cpus[d]) != z { assert CpuOk(s, d); }
  }

  lemma ExorciseKeeps(s: State, c: nat)
    requires Core(s) && Enabled(s, Exorcise(c))
    ensures Core(Apply(s, Exorcise(c)))
  {
    RemoveKeeps(s, Zombies(c), 0);
    ZombieIsGone(s, c);
    var s1, s2 := Remove(s, Zombies(c), 0), Apply(s, Exorcise(c));
    forall d | 0 <= d < |s2.cpus| ensures CpuOk(s2, d) { assert CpuOk(s, d); }
    forall t | t in s2.threads ensures ThreadOk(s2, t) { assert ThreadOk(s, t); }
  }

  lemma ForkKeeps(s: State, c: nat, t: Tid)
    requires Core(s) && Enabled(s, Fork(c, t))
    ensures Core(Apply(s, Fork(c, t)))
  {
    assert CpuOk(s, c);
    var s0 := SetThread(s, t, Thread(Ready, s.threads[s.cpus[c].cur].cpu, Off, true));
    assert ListsOk(s0);
    AddTailKeeps(s0, Flight, t);
    var s2 := Apply(s, Fork(c, t));
    forall d | 0 <= d < |s2.cpus| ensures CpuOk(s2, d) { assert CpuOk(s, d); }
    forall u | u in s2.threads ensures ThreadOk(s2, u) { if u != t { assert ThreadOk(s, u); } }
  }

  lemma WakeOneKeeps(s: State, w: nat)
    requires Core(s) && Enabled(s, WakeOne(w))
    ensures Core(Apply(s, WakeOne(w)))
  {
    var t := s.lists[Wchan(w)][0];
    RemoveKeeps(s, Wchan(w), 0);
    AddTailKeeps(Remove(s, Wchan(w), 0), Flight, t);
    var s2 := Apply(s, WakeOne(w));
    forall d | 0 <= d < |s2.cpus| ensures CpuOk(s2, d) { assert CpuOk(s, d); }
    forall u | u in s2.threads ensures ThreadOk(s2, u) { assert ThreadOk(s, u); }
  }

  lemma MakeRunnableKeeps(s: State, i: nat)
    requires Core(s) && Enabled(s, MakeRunnable(i))
    ensures Core(Apply(s, MakeRunnable(i)))
  {
    var t := s.lists[Flight][i];
    var c, s0 := s.threads[t].cpu, Remove(s, Flight, i);
    RemoveKeeps(s, Flight, i);
    AddTailKeeps(s0, Queue(c), t);
    SameLists(AddTail(s0, Queue(c), t), Apply(s, MakeRunnable(i)));
    MakeRunnableRoles(s, i);
  }

  lemma MakeRunnableRoles(s: State, i: nat)
    requires RolesOk(s) && Enabled(s, MakeRunnable(i)) && s.threads[s.lists[Flight][i]].node == On(Flight)
    ensures RolesOk(Apply(s, MakeRunnable(i)))
  {
    var t, s2 := s.lists[Flight][i], Apply(s, MakeRunnable(i));
    assert CpuOk(s, s.threads[t].cpu) && ThreadOk(s, t);
    forall d | 0 <= d < |s2.cpus| ensures CpuOk(s2, d) { assert CpuOk(s, d); }
    forall u | u in s2.threads ensures ThreadOk(s2, u) { assert ThreadOk(s, u); }
  }

  /** The migration counters do not matter to lists and roles. */
  lemma SetMigCore(s: State, c: nat, g: Progress)
    requires Core(s) && c < |s.mig|
    ensures Core(SetMig(s, c, g))
  {
    var s2 := SetMig(s, c, g);
    SameLists(s, s2);
    forall d | 0 <= d < |s2.cpus| ensures CpuOk(s2, d) { assert CpuOk(s, d); }
    forall t | t in s2.threads ensures ThreadOk(s2, t) { assert ThreadOk(s, t); }
  }

  ghost predicate CanTake(s: State, c: nat) {
    HasCpu(s, c) && CanRun(s.cpus[c]) && s.lists[Queue(c)] != [] && Last(s.lists[Queue(c)]) in s.threads
  }

  lemma TakeKeeps(s: State, c: nat)
    requires Core(s) && CanTake(s, c)
    ensures Core(Take(s, c))
  {
    var n := |s.lists[Queue(c)]| - 1;
    RemoveKeeps(s, Queue(c), n);
    AddHeadKeeps(Remove(s, Queue(c), n), Victims(c), s.lists[Queue(c)][n]);
    TakeRoles(s, c);
  }

  lemma TakeRoles(s: State, c: nat)
    requires RolesOk(s) && CanTake(s, c) && s.threads[Last(s.lists[Queue(c)])].node == On(Queue(c))
    ensures RolesOk(Take(s, c))
  {
    var s2 := Take(s, c);
    assert CpuOk(s, c);
    forall d | 0 <= d < |s2.cpus| ensures CpuOk(s2, d) { assert CpuOk(s, d); }
    forall u | u in s2.threads ensures ThreadOk(s2, u) { assert ThreadOk(s, u); }
  }

  ghost predicate CanSend(s: State, c: nat, d: nat) {
    && HasCpu(s, c) && HasCpu(s, d) && c != d && CanRun(s.cpus[c]) && !HoldsRunQueue(s.cpus[d])
    && s.lists[Victims(c)] != [] && s.lists[Victims(c)][0] in s.threads
  }

  lemma SendKeeps(s: State, c: nat, d: nat)
    requires Core(s) && CanSend(s, c, d)
    ensures Core(Send(s, c, d))
  {
    var t := s.lists[Victims(c)][0];
    var s0 := Remove(s, Victims(c), 0);
    RemoveKeeps(s, Victims(c), 0);
    if t == s.cpus[c].cur {
      AddTailKeeps(s0, Victims(c), t);
    } else {
      var s1 := SetThread(s0, t, s0.threads[t].(cpu := d));
      SameLists(s0, s1);
      AddTailKeeps(s1, Queue(d), t);
      SameLists(AddTail(s1, Queue(d), t), Send(s, c, d));
    }
    SendRoles(s, c, d);
  }

  lemma SendRoles(s: State, c: nat, d: nat)
    requires RolesOk(s) && CanSend(s, c, d) && s.threads[s.lists[Victims(c)][0]].node == On(Victims(c))
    ensures RolesOk(Send(s, c, d))
  {
    var t, s2 := s.lists[Victims(c)][0], Send(s, c, d);
    assert CpuOk(s, c) && CpuOk(s, d) && ThreadOk(s, t);
    forall e | 0 <= e < |s2.cpus| ensures CpuOk(s2, e) { assert CpuOk(s, e); }
    forall u | u in s2.threads ensures ThreadOk(s2, u) { assert ThreadOk(s, u); }
  }

  ghost predicate CanReturn(s: State, c: nat) {
    HasCpu(s, c) && CanRun(s.cpus[c]) && s.lists[Victims(c)] != [] && s.lists[Victims(c)][0] in s.threads
  }

  lemma ReturnKeeps(s: State, c: nat)
    requires Core(s) && CanReturn(s, c)
    ensures Core(Return(s, c))
  {
    RemoveKeeps(s, Victims(c), 0);
    AddTailKeeps(Remove(s, Victims(c), 0), Queue(c), s.lists[Victims(c)][0]);
    ReturnRoles(s, c);
  }

  lemma ReturnRoles(s: State, c: nat)
    requires RolesOk(s) && CanReturn(s, c) && s.threads[s.lists[Victims(c)][0]].node == On(Victims(c))
    ensures RolesOk(Return(s, c))
  {
    var s2 := Return(s, c);
    assert CpuOk(s, c);
    forall d | 0 <= d < |s2.cpus| ensures CpuOk(s2, d) { assert CpuOk(s, d); }
    forall u | u in s2.threads ensures ThreadOk(s2, u) { assert ThreadOk(s, u); }
  }

  lemma MoveCore(s: State, c: nat, move: Move)
    requires Inv(s) && HasCpu(s, c) && CanMove(s, c, move)
    ensures Core(ApplyMove(s, c, move))
  {
    assert MigOk(s, c);
    var s2 := ApplyMove(s, c, move);
    match move
    case TakeVictim =>
      TakeKeeps(s, c);
      SetMigCore(Take(s, c), c, s2.mig[c]);
    case SendVictim =>
      assert Fills(s.mig[c], s.mig[c].next) && !OwnLock(s, s.mig[c].next);
      SendKeeps(s, c, s.mig[c].next);
      SetMigCore(Send(s, c, s.mig[c].next), c, s2.mig[c]);
    case ReturnVictim => ReturnKeeps(s, c);
    case _ => SetMigCore(s, c, s2.mig[c]);
  }

  lemma LocksNext(s: State, s': State, c: nat, g: Progress)
    requires LocksOk(s) && c < |s.mig| && s'.mig == s.mig[c := g]
    requires |s'.cpus| == |s.cpus| && forall e :: 0 <= e < |s.cpus| ==> s'.cpus[e].phase == s.cpus[e].phase
    requires forall q :: Fills(g, q) ==> Fills(s.mig[c], q) || Unlocked(s, q)
    requires g.Taking? || g.Returning? ==> s.mig[c].Taking? || s.mig[c].Returning? || Unlocked(s, c)
    ensures LocksOk(s')
  {
    forall e, d | 0 <= e < |s'.mig| && 0 <= d < |s'.cpus| && Fills(s'.mig[e], d) ensures !OwnLock(s', d) {
      assert s'.cpus[d].phase == s.cpus[d].phase;
      if e != c {
        assert Fills(s.mig[e], d) && !OwnLock(s, d);
      } else {
        assert Fills(g, d) && (Fills(s.mig[c], d) || Unlocked(s, d));
        assert !OwnLock(s, d);
      }
    }
    forall e, d, q | 0 <= e < d < |s'.mig| && Fills(s'.mig[e], q) ensures !Fills(s'.mig[d], q) {
      if e != c { assert Fills(s.mig[e], q); }
    }
  }

  lemma MoveLocks(s: State, c: nat, move: Move)
    requires MigsOk(s) && HasCpu(s, c) && CanMove(s, c, move)
    ensures LocksOk(ApplyMove(s, c, move))
  {
    assert MigOk(s, c);
    var s2 := ApplyMove(s, c, move);
    var g := s2.mig[c];
    assert forall q :: Fills(g, q) ==> q == g.next;
    LocksNext(s, s2, c, g);
  }

  /** The migrating CPU's own account of queue, victims and counters. */
  lemma MoveCounts(s: State, c: nat, move: Move)
    requires MigsOk(s) && HasCpu(s, c) && CanMove(s, c, move)
    ensures MigOk(ApplyMove(s, c, move), c)
  {
    assert MigOk(s, c);
  }

  lemma MoveSpares(s: State, c: nat, move: Move, d: nat)
    requires MigsOk(s) && HasCpu(s, c) && CanMove(s, c, move) && d < |s.cpus| && d != c
    ensures MigOk(ApplyMove(s, c, move), d)
  {
    assert MigOk(s, d) && MigOk(s, c);
    var s2 := ApplyMove(s, c, move);
    MoveLists(s, c, move, d);
  }

  /** What a move of CPU c does to the queue, victims and phase of CPU d. */
  lemma MoveLists(s: State, c: nat, move: Move, d: nat)
    requires HasCpu(s, c) && c < |s.mig| && CanMove(s, c, move) && d < |s.cpus| && d != c
    ensures var s2 := ApplyMove(s, c, move);
      && |s2.cpus| == |s.cpus| && |ListOf(s2, Queue(d))| >= |ListOf(s, Queue(d))|
      && ListOf(s2, Victims(d)) == ListOf(s, Victims(d))
      && (CanRun(s.cpus[d]) ==> CanRun(s2.cpus[d]))
  {
  }

  /** Outside migration each step is apart from it. */
  lemma StepApart(s: State, step: Step)
    requires MigsOk(s) && Enabled(s, step) && !step.Migrate?
    ensures Apart(s, Apply(s, step))
  {
    if step.MakeRunnable? || step.WakeOne? || step.Fork? || step.Exorcise? {
      ThreadStepApart(s, step);
    } else {
      CpuStepApart(s, step);
    }
  }

  lemma ThreadStepApart(s: State, step: Step)
    requires MigsOk(s) && Enabled(s, step) && (step.MakeRunnable? || step.WakeOne? || step.Fork? || step.Exorcise?)
    ensures Apart(s, Apply(s, step))
  {
  }

  lemma CpuStepApart(s: State, step: Step)
    requires MigsOk(s) && Enabled(s, step) && !step.Migrate?
    requires !(step.MakeRunnable? || step.WakeOne? || step.Fork? || step.Exorcise?)
    ensures Apart(s, Apply(s, step))
  {
  }

  // ------------------------------------------------------------------
  // All runs

  lemma StepKeeps(s: State, step: Step)
    requires Inv(s) && Enabled(s, step)
    ensures Inv(Apply(s, step))
  {
    if step.Migrate? {
      MoveCore(s, step.c, step.move);
      MoveLocks(s, step.c, step.move);
      MoveCounts(s, step.c, step.move);
      forall d | 0 <= d < |s.cpus| && d != step.c
        ensures MigOk(Apply(s, step), d)
      {
        MoveSpares(s, step.c, step.move, d);
      }
    } else {
      StepCore(s, step);
      StepApart(s, step);
      ApartKeeps(s, Apply(s, step));
    }
  }

  lemma StepCore(s: State, step: Step)
    requires Core(s) && Enabled(s, step) && !step.Migrate?
    ensures Core(Apply(s, step))
  {
    match step
    case PutAway(c, how) => PutAwayKeeps(s, c, how);
    case Choose(c) => ChooseKeeps(s, c);
    case GoIdle(_) => IdleStepsKeep(s, step);
    case Interrupt(_) => IdleStepsKeep(s, step);
    case Unidle(_) => IdleStepsKeep(s, step);
    case Switch(c) => SwitchKeeps(s, c);
    case Finish(c) => FinishKeeps(s, c);
    case Exorcise(c) => ExorciseKeeps(s, c);
    case Fork(c, t) => ForkKeeps(s, c, t);
    case WakeOne(w) => WakeOneKeeps(s, w);
    case MakeRunnable(i) => MakeRunnableKeeps(s, i);
  }

  /** Boot: every CPU runs its own boot thread, and every list is empty. */
  ghost predicate Init(s: State) {
    && |s.mig| == |s.cpus| && (forall c :: 0 <= c < |s.mig| ==> s.mig[c] == NotMigrating)
    && Flight in s.lists && (forall l :: l in s.lists ==> s.lists[l] == [])
    && (forall c :: 0 <= c < |s.cpus| ==>
          && Queue(c) in s.lists && Zombies(c) in s.lists && Victims(c) in s.lists
          && s.cpus[c].phase == Executing && !s.cpus[c].isidle
          && s.cpus[c].cur in s.threads && s.threads[s.cpus[c].cur] == Thread(Running, c, Off, false))
    && (forall t :: t in s.threads ==> s.threads[t].cpu < |s.cpus| && s.cpus[s.threads[t].cpu].cur == t)
  }

  /** A run: each step is enabled where it is taken. */
  ghost predicate IsRun(s: State, run: seq<Step>)
    decreases |run|
  {
    run == [] || (Enabled(s, run[0]) && IsRun(Apply(s, run[0]), run[1..]))
  }

  ghost function After(s: State, run: seq<Step>): State
    requires IsRun(s, run)
    decreases |run|
  {
    if run == [] then s else After(Apply(s, run[0]), run[1..])
  }

  lemma {:induction false} RunKeeps(s: State, run: seq<Step>)
    requires Inv(s) && IsRun(s, run)
    ensures Inv(After(s, run))
    decreases |run|
  {
    if run != [] {
      StepKeeps(s, run[0]);
      RunKeeps(Apply(s, run[0]), run[1..]);
    }
  }

  /**
   What holds in every reachable state: no thread is current on two CPUs, or
   on two CPUs' stacks; a CPU about to switch loads a saved context or its
   own; no list node is on two lists or twice on one; every thread is running
   on its own CPU or on exactly one list; and an idle CPU whose queue is not
   empty has an interrupt coming.
   */
  ghost predicate Safe(s: State) {
    && (forall c, d :: 0 <= c < d < |s.cpus| ==>
          s.cpus[c].cur != s.cpus[d].cur && Stack(s.cpus[c]) != Stack(s.cpus[d]))
    && (forall c :: 0 <= c < |s.cpus| && s.cpus[c].phase.Switching? ==>
          s.cpus[c].cur == s.cpus[c].phase.prev || (s.cpus[c].cur in s.threads && s.threads[s.cpus[c].cur].saved))
    && (forall l, m, i, j ::
          (l in s.lists && m in s.lists && 0 <= i < |s.lists[l]| && 0 <= j < |s.lists[m]|
           && s.lists[l][i] == s.lists[m][j])
          ==> l == m && i == j)
    && (forall t :: t in s.threads && s.threads[t].node == Off ==>
          s.threads[t].cpu < |s.cpus| && s.cpus[s.threads[t].cpu].cur == t)
    && (forall t :: t in s.threads && s.threads[t].node.On? ==> t in ListOf(s, s.threads[t].node.list))
    && (forall c :: 0 <= c < |s.cpus| && s.cpus[c].phase.Idling? && ListOf(s, Queue(c)) != [] ==> s.cpus[c].unidle)
    && (forall c :: 0 <= c < |s.cpus| && s.cpus[c].phase.Executing? && s.cpus[c].cur in s.threads ==>
          s.threads[s.cpus[c].cur].state == Running)
    && MigrationSafe(s)
  }

  /** The CPU holds the run-queue lock of CPU q. */
  predicate Locks(s: State, c: nat, q: nat)
    requires c < |s.cpus| && c < |s.mig|
  {
    (q == c && OwnLock(s, c)) || Fills(s.mig[c], q)
  }

  /** No run-queue lock is held twice, and a thread to be taken or sent is
      there: neither threadlist_remtail nor threadlist_remhead finds nothing. */
  ghost predicate MigrationSafe(s: State) {
    && |s.mig| == |s.cpus|
    && (forall c, d, q :: 0 <= c < d < |s.cpus| && Locks(s, c, q) ==> !Locks(s, d, q))
    && (forall c :: 0 <= c < |s.cpus| && s.mig[c].Taking? && s.mig[c].taken < s.mig[c].toSend ==>
          ListOf(s, Queue(c)) != [])
    && (forall c :: 0 <= c < |s.cpus| && s.mig[c].Filling? && s.mig[c].toSend > 0 ==> ListOf(s, Victims(c)) != [])
    && (forall c :: 0 <= c < |s.cpus| && s.mig[c].NotMigrating? ==> ListOf(s, Victims(c)) == [])
  }

  lemma InvIsMigrationSafe(s: State)
    requires Inv(s)
    ensures MigrationSafe(s)
  {
    forall c, d, q | 0 <= c < d < |s.cpus| && Locks(s, c, q) ensures !Locks(s, d, q) {
      assert MigOk(s, c) && MigOk(s, d);
    }
    forall c | 0 <= c < |s.cpus| && s.mig[c].Taking? && s.mig[c].taken < s.mig[c].toSend
      ensures ListOf(s, Queue(c)) != []
    {
      assert MigOk(s, c);
    }
    forall c | 0 <= c < |s.cpus| && s.mig[c].Filling? && s.mig[c].toSend > 0 ensures ListOf(s, Victims(c)) != [] {
      assert MigOk(s, c);
    }
    forall c | 0 <= c < |s.cpus| && s.mig[c].NotMigrating? ensures ListOf(s, Victims(c)) == [] {
      assert MigOk(s, c);
    }
  }

  lemma InvIsSafe(s: State)
    requires Inv(s)
    ensures Safe(s)
  {
    InvIsMigrationSafe(s);
    forall c, d | 0 <= c < d < |s.cpus|
      ensures s.cpus[c].cur != s.cpus[d].cur && Stack(s.cpus[c]) != Stack(s.cpus[d])
    {
      assert CpuOk(s, c) && CpuOk(s, d);
    }
    forall c | 0 <= c < |s.cpus| && s.cpus[c].phase.Switching?
      ensures s.cpus[c].cur == s.cpus[c].phase.prev || (s.cpus[c].cur in s.threads && s.threads[s.cpus[c].cur].saved)
    {
      SwitchIsSafe(s, c);
    }
    forall l, m, i, j | l in s.lists && m in s.lists && 0 <= i < |s.lists[l]| && 0 <= j < |s.lists[m]|
        && s.lists[l][i] == s.lists[m][j]
      ensures l == m && i == j
    {
      assert NoDup(s.lists[l]);
    }
    forall t | t in s.threads && s.threads[t].node == Off
      ensures s.threads[t].cpu < |s.cpus| && s.cpus[s.threads[t].cpu].cur == t
    {
      assert ThreadOk(s, t);
    }
    forall c | 0 <= c < |s.cpus| && s.cpus[c].phase.Idling? && ListOf(s, Queue(c)) != []
      ensures s.cpus[c].unidle
    {
      assert CpuOk(s, c);
    }
    forall c | 0 <= c < |s.cpus| && s.cpus[c].phase.Executing? && s.cpus[c].cur in s.threads
      ensures s.threads[s.cpus[c].cur].state == Running
    {
      assert CpuOk(s, c);
    }
  }

  lemma InitInv(s: State)
    requires Init(s)
    ensures Inv(s)
  {
    forall c | 0 <= c < |s.cpus| ensures CpuOk(s, c) {
    }
    forall t | t in s.threads ensures ThreadOk(s, t) {
    }
    forall c | 0 <= c < |s.cpus| ensures MigOk(s, c) {
    }
  }

  /** Safety over every run of any number of CPUs and threads. */
  lemma AllRunsSafe(s: State, run: seq<Step>)
    requires Init(s) && IsRun(s, run)
    ensures Safe(After(s, run))
  {
    InitInv(s);
    RunKeeps(s, run);
    InvIsSafe(After(s, run));
  }

  // ------------------------------------------------------------------
  // Who runs next

  /** The thread that enters the run queue of CPU c by this step, if any: one
      that yields, is made runnable, or is moved there by a migration. */
  function Enters(s: State, step: Step, c: nat): seq<Tid>
    requires Enabled(s, step)
  {
    match step
    case PutAway(d, ToReady) => if d == c then [s.cpus[d].cur] else []
    case MakeRunnable(i) => if s.threads[s.lists[Flight][i]].cpu == c then [s.lists[Flight][i]] else []
    case Migrate(d, SendVictim) =>
      if s.mig[d].next == c && s.lists[Victims(d)][0] != s.cpus[d].cur then [s.lists[Victims(d)][0]] else []
    case Migrate(d, ReturnVictim) => if d == c then [s.lists[Victims(d)][0]] else []
    case _ => []
  }

  /** The thread that is current on CPU c after its next thread_switch, if this
      step chooses one. */
  function Chosen(s: State, step: Step, c: nat): seq<Tid>
    requires Enabled(s, step)
  {
    if step == Choose(c) then [Apply(s, step).cpus[c].cur] else []
  }

  /** Everybody who enters in a run, and everybody who is chosen, in order. */
  ghost function AllEnter(s: State, run: seq<Step>, c: nat): seq<Tid>
    requires IsRun(s, run)
    decreases |run|
  {
    if run == [] then [] else Enters(s, run[0], c) + AllEnter(Apply(s, run[0]), run[1..], c)
  }

  ghost function AllChosen(s: State, run: seq<Step>, c: nat): seq<Tid>
    requires IsRun(s, run)
    decreases |run|
  {
    if run == [] then [] else Chosen(s, run[0], c) + AllChosen(Apply(s, run[0]), run[1..], c)
  }

  /** No migration of CPU c takes threads off its own queue. */
  predicate KeepsThreads(run: seq<Step>, c: nat) { forall i :: 0 <= i < |run| ==> run[i] != Migrate(c, TakeVictim) }

  /** A step lets a thread in at the end, out at the front, or neither. */
  ghost predicate Fifo(s: State, step: Step, c: nat)
    requires Enabled(s, step)
  {
    ListOf(s, Queue(c)) + Enters(s, step, c) == Chosen(s, step, c) + ListOf(Apply(s, step), Queue(c))
  }

  lemma SendIsFifo(s: State, d: nat, c: nat)
    requires Enabled(s, Migrate(d, SendVictim))
    ensures Fifo(s, Migrate(d, SendVictim), c)
  {
    var step := Migrate(d, SendVictim);
    var s2 := Apply(s, step);
    assert s2.lists == Send(s, d, s.mig[d].next).lists;
    if s.mig[d].next == c && s.lists[Victims(d)][0] != s.cpus[d].cur {
      assert s2.lists[Queue(c)] == s.lists[Queue(c)] + [s.lists[Victims(d)][0]];
    } else {
      assert ListOf(s2, Queue(c)) == ListOf(s, Queue(c));
    }
    assert ListOf(s, Queue(c)) + [] == ListOf(s, Queue(c));
  }

  lemma MoveIsFifo(s: State, d: nat, move: Move, c: nat)
    requires Enabled(s, Migrate(d, move)) && (move.TakeVictim? ==> d != c)
    ensures Fifo(s, Migrate(d, move), c)
  {
    if move.SendVictim? {
      SendIsFifo(s, d, c);
    } else {
      assert ListOf(s, Queue(c)) + [] == ListOf(s, Queue(c));
    }
  }

  lemma ThreadIsFifo(s: State, step: Step, c: nat)
    requires Enabled(s, step) && c < |s.cpus| && !step.Migrate?
    ensures Fifo(s, step, c)
  {
    var q, s2 := ListOf(s, Queue(c)), Apply(s, step);
    assert q + [] == q;
    if step == Choose(c) {
      assert s2.lists[Queue(c)] == q[..0] + q[1..];
    } else if step.MakeRunnable? {
      var e := s.threads[s.lists[Flight][step.i]].cpu;
      assert s2.lists[Queue(e)] == s.lists[Queue(e)] + [s.lists[Flight][step.i]];
    }
  }

  lemma StepIsFifo(s: State, step: Step, c: nat)
    requires Enabled(s, step) && c < |s.cpus| && step != Migrate(c, TakeVictim)
    ensures Fifo(s, step, c)
  {
    if step.Migrate? {
      MoveIsFifo(s, step.c, step.move, c);
    } else {
      ThreadIsFifo(s, step, c);
    }
  }

  /**
   The run queue is first in, first out, over every run in which its CPU does
   not migrate threads away: those who were on it, followed by those who
   entered, are those who were chosen, followed by those who are on it now.
   */
  lemma {:induction false} QueueIsFifo(s: State, run: seq<Step>, c: nat)
    requires IsRun(s, run) && c < |s.cpus| && KeepsThreads(run, c)
    ensures ListOf(s, Queue(c)) + AllEnter(s, run, c) == AllChosen(s, run, c) + ListOf(After(s, run), Queue(c))
    decreases |run|
  {
    if run != [] {
      var s2 := Apply(s, run[0]);
      StepIsFifo(s, run[0], c);
      assert |s2.cpus| == |s.cpus|;
      QueueIsFifo(s2, run[1..], c);
      Regroup(ListOf(s, Queue(c)), Enters(s, run[0], c), AllEnter(s2, run[1..], c),
              Chosen(s, run[0], c), ListOf(s2, Queue(c)), AllChosen(s2, run[1..], c), ListOf(After(s, run), Queue(c)));
    }
  }

  lemma Regroup(q: seq<Tid>, e: seq<Tid>, es: seq<Tid>, c: seq<Tid>, q2: seq<Tid>, cs: seq<Tid>, q3: seq<Tid>)
    requires q + e == c + q2 && q2 + es == cs + q3
    ensures q + (e + es) == (c + cs) + q3
  {
    assert q + (e + es) == (q + e) + es;
    assert (c + q2) + es == c + (q2 + es);
    assert c + (cs + q3) == (c + cs) + q3;
  }

  /** How often CPU c chooses in a run. */
  ghost function Turns(run: seq<Step>, c: nat): nat {
    if run == [] then 0 else (if run[0] == Choose(c) then 1 else 0) + Turns(run[1..], c)
  }

  lemma {:induction false} ChosenLength(s: State, run: seq<Step>, c: nat)
    requires IsRun(s, run)
    ensures |AllChosen(s, run, c)| == Turns(run, c)
    decreases |run|
  {
    if run != [] {
      ChosenLength(Apply(s, run[0]), run[1..], c);
    }
  }

  lemma {:induction false} LastChosen(s: State, run: seq<Step>, c: nat)
    requires IsRun(s, run) && run != [] && run[|run| - 1] == Choose(c)
    ensures Turns(run, c) > 0 && |AllChosen(s, run, c)| == Turns(run, c) && c < |After(s, run).cpus|
    ensures After(s, run).cpus[c].cur == AllChosen(s, run, c)[Turns(run, c) - 1]
    decreases |run|
  {
    ChosenLength(s, run, c);
    if |run| == 1 {
      assert run[1..] == [] && After(Apply(s, run[0]), []) == Apply(s, run[0]);
    } else {
      LastChosen(Apply(s, run[0]), run[1..], c);
    }
  }

  /** A thread with i others before it on the queue is current on that CPU after
      the CPU has chosen i + 1 times, whatever else happens in between. */
  lemma TurnComes(s: State, run: seq<Step>, c: nat, i: nat)
    requires IsRun(s, run) && c < |s.cpus| && KeepsThreads(run, c)
    requires i < |ListOf(s, Queue(c))| && Turns(run, c) == i + 1 && run[|run| - 1] == Choose(c)
    ensures c < |After(s, run).cpus| && After(s, run).cpus[c].cur == ListOf(s, Queue(c))[i]
  {
    QueueIsFifo(s, run, c);
    LastChosen(s, run, c);
    var q, es, cs := ListOf(s, Queue(c)), AllEnter(s, run, c), AllChosen(s, run, c);
    assert (q + es)[i] == (cs + ListOf(After(s, run), Queue(c)))[i];
  }

  /** thread_yield: the thread at the head of the queue is current, and the one
      that yielded is the last on it. */
  lemma YieldRunsNext(s: State, c: nat)
    requires Inv(s) && Enabled(s, PutAway(c, ToReady))
    ensures IsRun(s, [PutAway(c, ToReady), Choose(c)])
    ensures var s2 := After(s, [PutAway(c, ToReady), Choose(c)]);
      && c < |s2.cpus| && s2.cpus[c].cur == ListOf(s, Queue(c))[0]
      && ListOf(s2, Queue(c)) == ListOf(s, Queue(c))[1..] + [s.cpus[c].cur]
  {
    var s1 := Apply(s, PutAway(c, ToReady));
    assert CpuOk(s, c);
    assert ListOf(s, Queue(c))[0] in s.threads;
    assert IsRun(Apply(s1, Choose(c)), []);
    RunJoin(s1, Choose(c), []);
    RunJoin(s, PutAway(c, ToReady), [Choose(c)] + []);
    assert [PutAway(c, ToReady)] + ([Choose(c)] + []) == [PutAway(c, ToReady), Choose(c)];
  }

  lemma RunOfThree(s: State, a: Step, b: Step, c: Step)
    requires Enabled(s, a) && Enabled(Apply(s, a), b) && Enabled(Apply(Apply(s, a), b), c)
    ensures IsRun(s, [a, b, c]) && After(s, [a, b, c]) == Apply(Apply(Apply(s, a), b), c)
  {
    var s1 := Apply(s, a);
    RunJoin(Apply(s1, b), c, []);
    RunJoin(s1, b, [c] + []);
    RunJoin(s, a, [b] + ([c] + []));
    assert [a] + ([b] + ([c] + [])) == [a, b, c];
  }

  /** The end of thread_switch: the thread chosen executes on its own stack,
      and the one it displaced is saved. */
  lemma ChosenRuns(s: State, c: nat)
    requires Inv(s) && Enabled(s, Choose(c))
    ensures IsRun(s, [Choose(c), Switch(c), Finish(c)])
    ensures var s2, t, prev := After(s, [Choose(c), Switch(c), Finish(c)]), ListOf(s, Queue(c))[0], s.cpus[c].cur;
      && c < |s2.cpus| && s2.cpus[c].cur == t && s2.cpus[c].phase.Executing? && !s2.cpus[c].isidle
      && t in s2.threads && s2.threads[t].state == Running && !s2.threads[t].saved && s2.threads[t].node == Off
      && (prev != t ==> prev in s2.threads && s2.threads[prev].saved)
  {
    assert CpuOk(s, c);
    var s1 := Apply(s, Choose(c));
    var s2 := Apply(s1, Switch(c));
    var s3 := Apply(s2, Finish(c));
    RunOfThree(s, Choose(c), Switch(c), Finish(c));
  }

  /** A CPU that is idle when a thread is made runnable leaves cpu_idle and
      chooses: no wakeup is lost. */
  lemma IdleCpuWakes(s: State, i: nat, c: nat)
    requires Inv(s) && Enabled(s, MakeRunnable(i)) && s.threads[s.lists[Flight][i]].cpu == c
    requires s.cpus[c].phase.Idling? && s.mig[c].NotMigrating?
    ensures IsRun(s, [MakeRunnable(i), Unidle(c), Choose(c)])
    ensures var s2 := After(s, [MakeRunnable(i), Unidle(c), Choose(c)]);
      c < |s2.cpus| && s2.cpus[c].cur == (ListOf(s, Queue(c)) + [ListOf(s, Flight)[i]])[0]
  {
    assert CpuOk(s, c);
    var s1 := Apply(s, MakeRunnable(i));
    var s2 := Apply(s1, Unidle(c));
    assert s2.lists[Queue(c)] == s.lists[Queue(c)] + [s.lists[Flight][i]];
    assert s2.lists[Queue(c)][0] in s2.threads;
    RunOfThree(s, MakeRunnable(i), Unidle(c), Choose(c));
  }

  /** exorcise destroys a thread that has exited and that no CPU is on. */
  lemma ExorciseTakesTheDead(s: State, c: nat)
    requires Inv(s) && Enabled(s, Exorcise(c))
    ensures var z, s2 := ListOf(s, Zombies(c))[0], Apply(s, Exorcise(c));
      && s.threads[z].state == Dead && (forall d :: 0 <= d < |s.cpus| ==> Stack(s.cpus[d]) != z)
      && s2.threads.Keys == s.threads.Keys - {z} && ListOf(s, Zombies(c)) == [z] + ListOf(s2, Zombies(c))
  {
    var z := ListOf(s, Zombies(c))[0];
    assert ThreadOk(s, z);
    forall d | 0 <= d < |s.cpus|
      ensures Stack(s.cpus[d]) != z
    {
      assert CpuOk(s, d) && CpuOk(s, c);
    }
  }

  /** A new thread enters the queue of the CPU that forked it. */
  lemma ForkedRunsHere(s: State, c: nat, t: Tid)
    requires Inv(s) && Enabled(s, Fork(c, t)) && Unlocked(s, c)
    ensures var s1, i := Apply(s, Fork(c, t)), |ListOf(s, Flight)|;
      && t in s1.threads && s1.threads[t].saved
      && Enabled(s1, MakeRunnable(i)) && ListOf(Apply(s1, MakeRunnable(i)), Queue(c)) == ListOf(s, Queue(c)) + [t]
  {
    assert CpuOk(s, c);
    var s1 := Apply(s, Fork(c, t));
    assert s1.lists[Flight] == s.lists[Flight] + [t];
  }

  /** Sleepers are woken in the order in which they went to sleep. */
  function Sleeps(s: State, step: Step, w: nat): seq<Tid>
    requires Enabled(s, step)
  {
    if step.PutAway? && step.how == ToSleep(w) then [s.cpus[step.c].cur] else []
  }

  /** The thread in flight because of this step. */
  function Wakes(s: State, step: Step, w: nat): seq<Tid>
    requires Enabled(s, step)
  {
    var f := ListOf(Apply(s, step), Flight);
    if step == WakeOne(w) && f != [] then [Last(f)] else []
  }

  ghost function AllSleep(s: State, run: seq<Step>, w: nat): seq<Tid>
    requires IsRun(s, run)
    decreases |run|
  {
    if run == [] then [] else Sleeps(s, run[0], w) + AllSleep(Apply(s, run[0]), run[1..], w)
  }

  ghost function AllWake(s: State, run: seq<Step>, w: nat): seq<Tid>
    requires IsRun(s, run)
    decreases |run|
  {
    if run == [] then [] else Wakes(s, run[0], w) + AllWake(Apply(s, run[0]), run[1..], w)
  }

  lemma MoveLeavesChannels(s: State, c: nat, move: Move, w: nat)
    requires Enabled(s, Migrate(c, move))
    ensures ListOf(Apply(s, Migrate(c, move)), Wchan(w)) == ListOf(s, Wchan(w))
  {
  }

  lemma ChannelStep(s: State, step: Step, w: nat)
    requires Enabled(s, step)
    ensures ListOf(s, Wchan(w)) + Sleeps(s, step, w) == Wakes(s, step, w) + ListOf(Apply(s, step), Wchan(w))
  {
    var q, s2 := ListOf(s, Wchan(w)), Apply(s, step);
    if step == WakeOne(w) {
      assert s2.lists[Wchan(w)] == q[..0] + q[1..] && Last(s2.lists[Flight]) == q[0];
    } else if step.PutAway? && step.how == ToSleep(w) {
      assert s2.lists[Wchan(w)] == q + [s.cpus[step.c].cur];
    } else {
      if step.Migrate? {
        MoveLeavesChannels(s, step.c, step.move, w);
      }
      assert q + [] == [] + q;
    }
  }

  lemma {:induction false} ChannelIsFifo(s: State, run: seq<Step>, w: nat)
    requires IsRun(s, run)
    ensures ListOf(s, Wchan(w)) + AllSleep(s, run, w) == AllWake(s, run, w) + ListOf(After(s, run), Wchan(w))
    decreases |run|
  {
    if run != [] {
      var s2 := Apply(s, run[0]);
      ChannelStep(s, run[0], w);
      ChannelIsFifo(s2, run[1..], w);
      Regroup(ListOf(s, Wchan(w)), Sleeps(s, run[0], w), AllSleep(s2, run[1..], w),
              Wakes(s, run[0], w), ListOf(s2, Wchan(w)), AllWake(s2, run[1..], w), ListOf(After(s, run), Wchan(w)));
    }
  }

  /** A thread that leaves its CPU is last on the list it leaves for, in the
      state that goes with it, and the CPU is between threads. */
  lemma LeavesFor(s: State, c: nat, how: Destination)
    requires Enabled(s, PutAway(c, how))
    ensures var t, s2 := s.cpus[c].cur, Apply(s, PutAway(c, how));
      && t in s2.threads && s2.cpus[c].phase == Choosing && s2.cpus[c].isidle && s2.cpus[c].cur == t
      && (how.ToReady? ==> s2.threads[t].state == Ready && ListOf(s2, Queue(c)) == ListOf(s, Queue(c)) + [t])
      && (how.ToSleep? ==>
            s2.threads[t].state == Sleeping && ListOf(s2, Wchan(how.wchan)) == ListOf(s, Wchan(how.wchan)) + [t])
      && (how.ToZombie? ==> s2.threads[t].state == Dead && ListOf(s2, Zombies(c)) == ListOf(s, Zombies(c)) + [t])
  {
  }

  // ------------------------------------------------------------------
  // What migration counts and takes

  function Times(step: Step, n: nat): seq<Step> { seq(n, i => step) }

  lemma TimesNext(step: Step, n: nat)
    requires n > 0
    ensures Times(step, n) == [step] + Times(step, n - 1)
  {
  }

  /** The number of threads on the run queues of CPUs i to n - 1. */
  function Lengths(lists: map<ListId, seq<Tid>>, i: nat, n: nat): nat
    decreases n - i
  {
    if i >= n then 0 else (if Queue(i) in lists then |lists[Queue(i)]| else 0) + Lengths(lists, i + 1, n)
  }

  /** Nobody holds a run-queue lock. */
  ghost predicate AllFree(s: State) {
    |s.mig| == |s.cpus| && forall d :: 0 <= d < |s.cpus| ==> HasCpu(s, d) && Unlocked(s, d)
  }

  lemma CountOne(s: State, c: nat)
    requires AllFree(s) && c < |s.cpus| && s.mig[c].Counting? && s.mig[c].next < |s.cpus|
    ensures Enabled(s, Migrate(c, Count)) && AllFree(Apply(s, Migrate(c, Count)))
    ensures var g, n := s.mig[c], |s.lists[Queue(s.mig[c].next)]|;
      Apply(s, Migrate(c, Count)) == SetMig(s, c, Counting(g.next + 1, if g.next == c then n else g.mine, g.total + n))
  {
    var s1 := Apply(s, Migrate(c, Count));
    forall d | 0 <= d < |s1.cpus| ensures HasCpu(s1, d) && Unlocked(s1, d) {
      assert HasCpu(s, d) && Unlocked(s, d);
    }
  }

  /** Counting, with no other CPU taking a step: the total is that of all the
      queues, and the CPU's own share of it that of its own. */
  lemma {:induction false} LoneCount(s: State, c: nat)
    requires AllFree(s) && c < |s.cpus| && s.mig[c].Counting? && s.mig[c].next <= |s.cpus|
    ensures var g, run := s.mig[c], Times(Migrate(c, Count), |s.cpus| - s.mig[c].next);
      && IsRun(s, run)
      && After(s, run) == SetMig(s, c, Counting(|s.cpus|, if g.next <= c then |s.lists[Queue(c)]| else g.mine,
                                                g.total + Lengths(s.lists, g.next, |s.cpus|)))
    decreases |s.cpus| - s.mig[c].next
  {
    var g, n := s.mig[c], |s.cpus| - s.mig[c].next;
    if n == 0 {
      assert Times(Migrate(c, Count), n) == [];
      assert s.mig[c := g] == s.mig;
    } else {
      CountOne(s, c);
      var s1 := Apply(s, Migrate(c, Count));
      LoneCount(s1, c);
      TimesNext(Migrate(c, Count), n);
      RunJoin(s, Migrate(c, Count), Times(Migrate(c, Count), n - 1));
    }
  }

  lemma StartKeepsFree(s: State, c: nat)
    requires AllFree(s) && c < |s.cpus| && s.mig[c].NotMigrating? && CanRun(s.cpus[c])
    ensures Enabled(s, Migrate(c, Start)) && Apply(s, Migrate(c, Start)) == SetMig(s, c, Counting(0, 0, 0))
    ensures AllFree(SetMig(s, c, Counting(0, 0, 0)))
  {
    assert HasCpu(s, c);
    var s1 := SetMig(s, c, Counting(0, 0, 0));
    forall d | 0 <= d < |s1.cpus| ensures HasCpu(s1, d) && Unlocked(s1, d) {
      assert HasCpu(s, d) && Unlocked(s, d);
    }
  }

  /** What is decided once the counts are there. */
  lemma Decides(s: State, c: nat, mine: nat, total: nat)
    requires AllFree(s) && c < |s.cpus| && s.mig[c].NotMigrating?
    ensures var s2, share := SetMig(s, c, Counting(|s.cpus|, mine, total)), DivRoundUp(total, |s.cpus|);
      && (mine < share ==> Enabled(s2, Migrate(c, StayPut)) && Apply(s2, Migrate(c, StayPut)) == s)
      && (mine >= share ==> Enabled(s2, Migrate(c, BeginTaking)))
      && (mine >= share ==> Apply(s2, Migrate(c, BeginTaking)) == SetMig(s, c, Taking(share, mine - share, 0)))
  {
    assert HasCpu(s, c) && Unlocked(s, c);
    var s2 := SetMig(s, c, Counting(|s.cpus|, mine, total));
    assert Unlocked(s2, c);
    assert s2.mig[c := NotMigrating] == s.mig;
  }

  /** The decision: with no other CPU taking a step, a CPU gives away what it has
      above its share of all the threads, and stays put when it has less. */
  lemma LoneDecision(s: State, c: nat)
    requires AllFree(s) && c < |s.cpus| && s.mig[c].NotMigrating? && CanRun(s.cpus[c])
    ensures HasCpu(s, c)
    ensures var run := [Migrate(c, Start)] + Times(Migrate(c, Count), |s.cpus|);
      && IsRun(s, run)
      && var s2, mine := After(s, run), |s.lists[Queue(c)]|;
         var share := DivRoundUp(Lengths(s.lists, 0, |s.cpus|), |s.cpus|);
         && (mine < share ==> Enabled(s2, Migrate(c, StayPut)) && Apply(s2, Migrate(c, StayPut)) == s)
         && (mine >= share ==> Enabled(s2, Migrate(c, BeginTaking)))
         && (mine >= share ==> Apply(s2, Migrate(c, BeginTaking)) == SetMig(s, c, Taking(share, mine - share, 0)))
  {
    var mine, total := |s.lists[Queue(c)]|, Lengths(s.lists, 0, |s.cpus|);
    StartKeepsFree(s, c);
    var s1 := SetMig(s, c, Counting(0, 0, 0));
    LoneCount(s1, c);
    RunJoin(s, Migrate(c, Start), Times(Migrate(c, Count), |s.cpus|));
    assert SetMig(s1, c, Counting(|s.cpus|, mine, total)) == SetMig(s, c, Counting(|s.cpus|, mine, total));
    Decides(s, c, mine, total);
  }

  lemma TakesOneLast(s: State, c: nat)
    requires ListsOk(s) && Enabled(s, Migrate(c, TakeVictim))
    ensures var s2, t := Apply(s, Migrate(c, TakeVictim)), Last(s.lists[Queue(c)]);
      && ListsOk(s2) && HasCpu(s2, c) && s2.mig == s.mig[c := s.mig[c].(taken := s.mig[c].taken + 1)]
      && s.lists[Queue(c)] == s2.lists[Queue(c)] + [t] && s2.lists[Victims(c)] == [t] + s.lists[Victims(c)]
  {
    var n := |s.lists[Queue(c)]| - 1;
    RemoveKeeps(s, Queue(c), n);
    AddHeadKeeps(Remove(s, Queue(c), n), Victims(c), s.lists[Queue(c)][n]);
  }

  /** The victims are the last k of queue q, in order. */
  ghost predicate TookLast(s2: State, c: nat, q: seq<Tid>, victims: seq<Tid>, k: nat) {
    k <= |q| && ListOf(s2, Queue(c)) == q[..|q| - k] && ListOf(s2, Victims(c)) == q[|q| - k..] + victims
  }

  lemma TookOneMore(s2: State, c: nat, q: seq<Tid>, q1: seq<Tid>, t: Tid, victims: seq<Tid>, k: nat)
    requires q == q1 + [t] && TookLast(s2, c, q1, [t] + victims, k)
    ensures TookLast(s2, c, q, victims, k + 1)
  {
    assert q1[..|q1| - k] == q[..|q| - (k + 1)];
    assert q1[|q1| - k..] + ([t] + victims) == q[|q| - (k + 1)..] + victims;
  }

  /** Taking k threads: they are the last k of the queue, and the victims are in
      the order they had there. */
  lemma {:induction false} TakesLast(s: State, c: nat, k: nat)
    requires ListsOk(s) && HasCpu(s, c) && c < |s.mig| && s.mig[c].Taking? && s.mig[c].taken + k <= s.mig[c].toSend
    requires k <= |s.lists[Queue(c)]|
    ensures IsRun(s, Times(Migrate(c, TakeVictim), k))
    ensures TookLast(After(s, Times(Migrate(c, TakeVictim), k)), c, s.lists[Queue(c)], s.lists[Victims(c)], k)
    decreases k
  {
    var q := s.lists[Queue(c)];
    if k == 0 {
      assert Times(Migrate(c, TakeVictim), 0) == [];
      assert q[..|q|] == q && q[|q|..] + s.lists[Victims(c)] == s.lists[Victims(c)];
    } else {
      assert Last(q) in s.threads;
      TakesOneLast(s, c);
      var s1 := Apply(s, Migrate(c, TakeVictim));
      TakesLast(s1, c, k - 1);
      TimesNext(Migrate(c, TakeVictim), k);
      RunJoin(s, Migrate(c, TakeVictim), Times(Migrate(c, TakeVictim), k - 1));
      TookOneMore(After(s1, Times(Migrate(c, TakeVictim), k - 1)), c, q, s1.lists[Queue(c)], Last(q),
                  s.lists[Victims(c)], k - 1);
    }
  }

  /** Sending and returning: the first victim leaves the list, except that
      c_curthread goes to its end instead of to another CPU. */
  lemma VictimLeaves(s: State, c: nat, move: Move)
    requires Enabled(s, Migrate(c, move)) && (move.SendVictim? || move.ReturnVictim?)
    ensures var t, s2 := ListOf(s, Victims(c))[0], Apply(s, Migrate(c, move));
      && (move.SendVictim? && t == s.cpus[c].cur ==> ListOf(s2, Victims(c)) == ListOf(s, Victims(c))[1..] + [t])
      && (move.ReturnVictim? || t != s.cpus[c].cur ==> ListOf(s, Victims(c)) == [t] + ListOf(s2, Victims(c)))
      && (move.SendVictim? && t != s.cpus[c].cur ==> t in s2.threads && s2.threads[t].cpu == s.mig[c].next)
  {
  }

  // ------------------------------------------------------------------
  // Why migration must skip c_curthread

  /** SendVictim without its test. */
  function SendUnguarded(s: State, c: nat): State
    requires Enabled(s, Migrate(c, SendVictim))
  {
    var g := s.mig[c];
    SetMig(MoveTo(s, c, g.next), c, Filling(g.share, g.toSend - 1, g.next))
  }

  /** CPU c is filling the queue of CPU d, whose head t has no saved context
      and is not the thread CPU d is running. */
  ghost predicate Poisoned(s: State, c: nat, d: nat, t: Tid, w: nat) {
    && HasCpu(s, c) && InThread(s, d) && Wchan(w) in s.lists && c != d
    && |s.mig| == |s.cpus| && Fills(s.mig[c], d) && !HoldsRunQueue(s.cpus[d])
    && (forall e :: 0 <= e < |s.mig| && e != c ==> !Fills(s.mig[e], d))
    && s.mig[c].toSend <= |s.lists[Victims(c)]|
    && (forall i :: 0 <= i < |s.lists[Victims(c)]| ==> s.lists[Victims(c)][i] in s.threads)
    && s.lists[Queue(d)] != [] && s.lists[Queue(d)][0] == t
    && t in s.threads && !s.threads[t].saved && t != s.cpus[d].cur
  }

  lemma PoisonStays(s: State, c: nat, d: nat, t: Tid, w: nat)
    requires Poisoned(s, c, d, t, w) && s.mig[c].toSend > 0 && |s.lists[Queue(d)]| < s.mig[c].share
    ensures Enabled(s, Migrate(c, SendVictim))
    ensures Poisoned(Apply(s, Migrate(c, SendVictim)), c, d, t, w)
    ensures Apply(s, Migrate(c, SendVictim)).mig[c].toSend == s.mig[c].toSend - 1
  {
  }

  /** The fill goes on to its end; then CPU d puts its thread to sleep and
      loads t. */
  lemma {:induction false} LoadsUnsaved(s: State, c: nat, d: nat, t: Tid, w: nat) returns (run: seq<Step>)
    requires Poisoned(s, c, d, t, w)
    ensures IsRun(s, run) && !Safe(After(s, run))
    decreases s.mig[c].toSend
  {
    if s.mig[c].toSend > 0 && |s.lists[Queue(d)]| < s.mig[c].share {
      PoisonStays(s, c, d, t, w);
      var rest := LoadsUnsaved(Apply(s, Migrate(c, SendVictim)), c, d, t, w);
      RunJoin(s, Migrate(c, SendVictim), rest);
      run := [Migrate(c, SendVictim)] + rest;
    } else {
      var s1 := Apply(s, Migrate(c, LeaveQueue));
      LoadsHead(s1, d, t, w);
      RunJoin(s, Migrate(c, LeaveQueue), [PutAway(d, ToSleep(w)), Choose(d)]);
      run := [Migrate(c, LeaveQueue)] + [PutAway(d, ToSleep(w)), Choose(d)];
    }
  }

  lemma LoadsHead(s: State, d: nat, t: Tid, w: nat)
    requires InThread(s, d) && Unlocked(s, d) && Wchan(w) in s.lists && s.lists[Queue(d)] != []
    requires s.lists[Queue(d)][0] == t
    requires t in s.threads && !s.threads[t].saved && t != s.cpus[d].cur
    ensures var run := [PutAway(d, ToSleep(w)), Choose(d)]; IsRun(s, run) && !Safe(After(s, run))
  {
    var run := [PutAway(d, ToSleep(w)), Choose(d)];
    var s2 := Apply(s, run[0]);
    assert run[1..] == [Choose(d)];
    var s3 := Apply(s2, Choose(d));
    assert IsRun(s3, []) && After(s3, []) == s3;
    assert [Choose(d)][1..] == [];
    assert After(s2, [Choose(d)]) == s3;
    var k := s3.cpus[d];
    assert k.phase.Switching? && k.cur == t != k.phase.prev && !s3.threads[t].saved;
  }

  lemma UnguardedPoisons(s: State, c: nat, w: nat)
    requires LocksOk(s) && Enabled(s, Migrate(c, SendVictim)) && s.lists[Victims(c)][0] == s.cpus[c].cur
    requires MigOk(s, c) && !s.threads[s.cpus[c].cur].saved && s.cpus[c].cur != s.cpus[s.mig[c].next].cur
    requires forall i :: 0 <= i < |s.lists[Victims(c)]| ==> s.lists[Victims(c)][i] in s.threads
    requires InThread(s, s.mig[c].next) && s.lists[Queue(s.mig[c].next)] == [] && Wchan(w) in s.lists
    ensures Poisoned(SendUnguarded(s, c), c, s.mig[c].next, s.cpus[c].cur, w)
  {
    assert Fills(s.mig[c], s.mig[c].next);
  }

  /** Wherever the test fires for an empty queue of a CPU that is executing,
      migrating the thread anyway lets that CPU load a context nobody has
      saved. */
  lemma GuardIsNeeded(s: State, c: nat, w: nat) returns (run: seq<Step>)
    requires Inv(s) && Enabled(s, Migrate(c, SendVictim)) && s.lists[Victims(c)][0] == s.cpus[c].cur
    requires InThread(s, s.mig[c].next) && s.lists[Queue(s.mig[c].next)] == [] && Wchan(w) in s.lists
    ensures IsRun(SendUnguarded(s, c), run) && !Safe(After(SendUnguarded(s, c), run))
  {
    var t, d := s.cpus[c].cur, s.mig[c].next;
    assert CpuOk(s, c) && CpuOk(s, d) && ThreadOk(s, t) && MigOk(s, c);
    UnguardedPoisons(s, c, w);
    run := LoadsUnsaved(SendUnguarded(s, c), c, d, t, w);
  }

  lemma RunJoin(s: State, a: Step, rest: seq<Step>)
    requires Enabled(s, a) && IsRun(Apply(s, a), rest)
    ensures IsRun(s, [a] + rest) && After(s, [a] + rest) == After(Apply(s, a), rest)
  {
    assert ([a] + rest)[1..] == rest;
  }

  /** s2 is two steps after s. */
  ghost predicate Leads(s: State, a: Step, b: Step, s2: State) {
    Enabled(s, a) && Enabled(Apply(s, a), b) && s2 == Apply(Apply(s, a), b)
  }

  lemma Prepend(s: State, a: Step, b: Step, s2: State, rest: seq<Step>)
    requires Leads(s, a, b, s2) && IsRun(s2, rest)
    ensures IsRun(s, [a] + ([b] + rest)) && After(s, [a] + ([b] + rest)) == After(s2, rest)
  {
    RunJoin(Apply(s, a), b, rest);
    RunJoin(s, a, [b] + rest);
  }

  ghost predicate Bystander(s: State, c: nat) { HasCpu(s, c) && s.cpus[c].phase.Executing? && s.lists[Queue(c)] == [] }

  /** Every CPU but the first executes with nothing queued, as at boot. */
  ghost predicate Quiet(s: State, w: nat) {
    && |s.mig| == |s.cpus| >= 2 && HasCpu(s, 0) && Wchan(w) in s.lists
    && (forall c :: 1 <= c < |s.cpus| ==> Bystander(s, c))
    && (forall c :: 1 <= c < |s.mig| ==> s.mig[c].NotMigrating?)
  }

  /** What CPU 0 does to its own thread and lists leaves the others alone. */
  lemma QuietStays(s: State, s': State, w: nat)
    requires Quiet(s, w) && |s'.cpus| == |s.cpus| && |s'.mig| == |s.mig| && s'.cpus[0].cur in s'.threads
    requires forall c :: 1 <= c < |s.cpus| ==> s'.cpus[c] == s.cpus[c] && s'.mig[c] == s.mig[c]
    requires s.threads.Keys <= s'.threads.Keys && s'.lists.Keys == s.lists.Keys
    requires forall c: nat :: 1 <= c < |s.cpus| && Queue(c) in s.lists ==> s'.lists[Queue(c)] == s.lists[Queue(c)]
    ensures Quiet(s', w)
  {
    forall c | 1 <= c < |s'.cpus| ensures Bystander(s', c) { assert Bystander(s, c); }
  }

  /** On CPU 0, t is current; the threads of queue, sleepers and flight, all of
      that CPU, are on its run queue, on wait channel w and in flight. */
  ghost predicate At(s: State, w: nat, t: Tid, phase: Phase, queue: seq<Tid>, sleepers: seq<Tid>, flight: seq<Tid>) {
    && Quiet(s, w) && s.mig[0].NotMigrating? && s.lists[Victims(0)] == [] && s.lists[Flight] == flight
    && s.cpus[0].cur == t && s.cpus[0].phase == phase && s.lists[Queue(0)] == queue && s.lists[Wchan(w)] == sleepers
    && s.threads[t].cpu == 0
    && (forall u :: u in queue || u in sleepers || u in flight ==> u in s.threads && s.threads[u].cpu == 0)
  }

  /** The boot thread b of CPU 0 forks t. */
  lemma Forks(s: State, w: nat, t: Tid) returns (s2: State)
    requires Init(s) && |s.cpus| >= 2 && Wchan(w) in s.lists && t !in s.threads
    ensures Leads(s, Fork(0, t), MakeRunnable(0), s2) && At(s2, w, s.cpus[0].cur, Executing, [t], [], [])
  {
    var s1 := Apply(s, Fork(0, t));
    assert s1.lists[Flight] == [t];
    assert s1.lists[Wchan(w)] == [] && s1.lists[Victims(0)] == [];
    s2 := JoinsQueue(s1, w, s.cpus[0].cur, Executing, [], [], t);
  }

  lemma JoinsQueue(s: State, w: nat, t: Tid, phase: Phase, queue: seq<Tid>, sleepers: seq<Tid>, u: Tid)
    returns (s2: State)
    requires At(s, w, t, phase, queue, sleepers, [u]) && Unlocked(s, 0)
    ensures Enabled(s, MakeRunnable(0)) && s2 == Apply(s, MakeRunnable(0))
    ensures At(s2, w, t, phase, queue + [u], sleepers, [])
  {
    assert u in [u];
    s2 := Apply(s, MakeRunnable(0));
    assert s2.lists[Flight] == [];
    QuietStays(s, s2, w);
  }

  lemma SleepsAndChooses(s: State, w: nat, b: Tid, t: Tid) returns (s2: State)
    requires At(s, w, b, Executing, [t], [], [])
    ensures Leads(s, PutAway(0, ToSleep(w)), Choose(0), s2) && At(s2, w, t, Switching(b), [], [b], [])
  {
    var s1 := Apply(s, PutAway(0, ToSleep(w)));
    assert s1.lists[Wchan(w)] == [b] && s1.lists[Queue(0)] == [t];
    s2 := Apply(s1, Choose(0));
    QuietStays(s, s2, w);
  }

  lemma Switches(s: State, w: nat, b: Tid, t: Tid) returns (s2: State)
    requires At(s, w, t, Switching(b), [], [b], [])
    ensures Leads(s, Switch(0), Finish(0), s2) && At(s2, w, t, Executing, [], [b], [])
  {
    assert b in [b];
    s2 := Apply(Apply(s, Switch(0)), Finish(0));
    QuietStays(s, s2, w);
  }

  /** With t asleep too the CPU idles, t still being its c_curthread. */
  lemma SleepsAndIdles(s: State, w: nat, b: Tid, t: Tid) returns (s2: State)
    requires At(s, w, t, Executing, [], [b], [])
    ensures Leads(s, PutAway(0, ToSleep(w)), GoIdle(0), s2) && At(s2, w, t, Idling, [], [b, t], [])
  {
    var s1 := Apply(s, PutAway(0, ToSleep(w)));
    assert s1.lists[Wchan(w)] == [b, t];
    s2 := Apply(s1, GoIdle(0));
    QuietStays(s, s2, w);
  }

  /** The first sleeper is woken and put on the queue. */
  lemma IsWoken(s: State, w: nat, t: Tid, queue: seq<Tid>, sleepers: seq<Tid>) returns (s2: State)
    requires At(s, w, t, Idling, queue, sleepers, []) && sleepers != []
    ensures Leads(s, WakeOne(w), MakeRunnable(0), s2) && At(s2, w, t, Idling, queue + [sleepers[0]], sleepers[1..], [])
  {
    var u := sleepers[0];
    assert u in sleepers;
    var s1 := Apply(s, WakeOne(w));
    assert s1.lists[Flight] == [u] && s1.lists[Wchan(w)] == sleepers[1..];
    QuietStays(s, s1, w);
    s2 := JoinsQueue(s1, w, t, Idling, queue, sleepers[1..], u);
  }

  /** Migration on CPU 0 is at progress g; its queue and victims are given. */
  ghost predicate Migrating(s: State, w: nat, t: Tid, g: Progress, queue: seq<Tid>, victims: seq<Tid>) {
    && Quiet(s, w) && s.mig[0] == g && s.cpus[0].cur == t && s.cpus[0].phase == Idling
    && s.lists[Queue(0)] == queue && s.lists[Victims(0)] == victims
    && (forall u :: u in queue || u in victims ==> u in s.threads)
  }

  /** A timer interrupt on the idle CPU. */
  lemma TimerFires(s: State, w: nat, t: Tid, queue: seq<Tid>) returns (s2: State)
    requires At(s, w, t, Idling, queue, [], [])
    ensures Leads(s, Interrupt(0), Migrate(0, Start), s2) && Migrating(s2, w, t, Counting(0, 0, 0), queue, [])
  {
    s2 := Apply(Apply(s, Interrupt(0)), Migrate(0, Start));
    QuietStays(s, s2, w);
  }

  lemma {:induction false} CountsAll(s: State, w: nat, t: Tid, i: nat, queue: seq<Tid>)
    returns (run: seq<Step>, s2: State)
    requires i <= |s.cpus|
    requires Migrating(s, w, t, Counting(i, if i == 0 then 0 else |queue|, if i == 0 then 0 else |queue|), queue, [])
    ensures IsRun(s, run) && s2 == After(s, run)
    ensures |s2.cpus| == |s.cpus| && Migrating(s2, w, t, Counting(|s.cpus|, |queue|, |queue|), queue, [])
    decreases |s.cpus| - i
  {
    if i == |s.cpus| {
      run, s2 := [], s;
    } else {
      assert i > 0 ==> Bystander(s, i);
      var s1 := Apply(s, Migrate(0, Count));
      QuietStays(s, s1, w);
      var rest;
      rest, s2 := CountsAll(s1, w, t, i + 1, queue);
      RunJoin(s, Migrate(0, Count), rest);
      run := [Migrate(0, Count)] + rest;
    }
  }

  /** Two threads on one of n >= 2 queues: the share is one, and the thread at
      the tail is one too many. */
  lemma TakesTail(s: State, w: nat, b: Tid, t: Tid) returns (s2: State)
    requires Migrating(s, w, t, Counting(|s.cpus|, 2, 2), [b, t], [])
    ensures Leads(s, Migrate(0, BeginTaking), Migrate(0, TakeVictim), s2)
    ensures Migrating(s2, w, t, Taking(1, 1, 1), [b], [t])
  {
    assert DivRoundUp(2, |s.cpus|) == 1;
    var s1 := Apply(s, Migrate(0, BeginTaking));
    QuietStays(s, s1, w);
    s2 := TakesOne(s1, w, b, t);
  }

  lemma TakesOne(s: State, w: nat, b: Tid, t: Tid) returns (s2: State)
    requires Migrating(s, w, t, Taking(1, 1, 0), [b, t], [])
    ensures Enabled(s, Migrate(0, TakeVictim)) && s2 == Apply(s, Migrate(0, TakeVictim))
    ensures Migrating(s2, w, t, Taking(1, 1, 1), [b], [t])
  {
    assert t in [b, t] && Last([b, t]) == t;
    s2 := Apply(s, Migrate(0, TakeVictim));
    assert [b, t][..1] + [b, t][2..] == [b];
    QuietStays(s, s2, w);
  }

  lemma SkipsItself(s: State, w: nat, b: Tid, t: Tid) returns (s2: State)
    requires Migrating(s, w, t, Taking(1, 1, 1), [b], [t])
    ensures Leads(s, Migrate(0, EndTaking), Migrate(0, Visit), s2) && Migrating(s2, w, t, Sending(1, 1, 1), [b], [t])
  {
    s2 := Apply(Apply(s, Migrate(0, EndTaking)), Migrate(0, Visit));
    QuietStays(s, s2, w);
  }

  /** The run from boot to the moment the test fires. */
  lemma CurrentBecomesVictim(s: State, w: nat, t: Tid) returns (run: seq<Step>, s2: State)
    requires Init(s) && |s.cpus| >= 2 && Wchan(w) in s.lists && t !in s.threads
    ensures IsRun(s, run) && s2 == After(s, run) && Migrating(s2, w, t, Sending(1, 1, 1), [s.cpus[0].cur], [t])
  {
    var b := s.cpus[0].cur;
    var s3 := Forks(s, w, t);
    var s4 := SleepsAndChooses(s3, w, b, t);
    var s5 := Switches(s4, w, b, t);
    var s6 := SleepsAndIdles(s5, w, b, t);
    run, s2 := WokenAndTaken(s6, w, b, t);
    Prepend(s5, PutAway(0, ToSleep(w)), GoIdle(0), s6, run);
    run := [PutAway(0, ToSleep(w))] + ([GoIdle(0)] + run);
    Prepend(s4, Switch(0), Finish(0), s5, run);
    run := [Switch(0)] + ([Finish(0)] + run);
    Prepend(s3, PutAway(0, ToSleep(w)), Choose(0), s4, run);
    run := [PutAway(0, ToSleep(w))] + ([Choose(0)] + run);
    Prepend(s, Fork(0, t), MakeRunnable(0), s3, run);
    run := [Fork(0, t)] + ([MakeRunnable(0)] + run);
  }

  lemma WokenAndTaken(s: State, w: nat, b: Tid, t: Tid) returns (run: seq<Step>, s2: State)
    requires At(s, w, t, Idling, [], [b, t], [])
    ensures IsRun(s, run) && s2 == After(s, run) && Migrating(s2, w, t, Sending(1, 1, 1), [b], [t])
  {
    var s3 := IsWoken(s, w, t, [], [b, t]);
    var s4 := IsWoken(s3, w, t, [b], [t]);
    var s5 := TimerFires(s4, w, t, [b, t]);
    run, s2 := CountedAndTaken(s5, w, b, t);
    Prepend(s4, Interrupt(0), Migrate(0, Start), s5, run);
    run := [Interrupt(0)] + ([Migrate(0, Start)] + run);
    Prepend(s3, WakeOne(w), MakeRunnable(0), s4, run);
    run := [WakeOne(w)] + ([MakeRunnable(0)] + run);
    Prepend(s, WakeOne(w), MakeRunnable(0), s3, run);
    run := [WakeOne(w)] + ([MakeRunnable(0)] + run);
  }

  lemma CountedAndTaken(s: State, w: nat, b: Tid, t: Tid) returns (run: seq<Step>, s2: State)
    requires Migrating(s, w, t, Counting(0, 0, 0), [b, t], [])
    ensures IsRun(s, run) && s2 == After(s, run) && Migrating(s2, w, t, Sending(1, 1, 1), [b], [t])
  {
    var count, s3 := CountsAll(s, w, t, 0, [b, t]);
    var s4 := TakesTail(s3, w, b, t);
    s2 := SkipsItself(s4, w, b, t);
    Prepend(s4, Migrate(0, EndTaking), Migrate(0, Visit), s2, []);
    run := [Migrate(0, EndTaking)] + ([Migrate(0, Visit)] + []);
    Prepend(s3, Migrate(0, BeginTaking), Migrate(0, TakeVictim), s4, run);
    run := [Migrate(0, BeginTaking)] + ([Migrate(0, TakeVictim)] + run);
    Concat(s, count, run);
    run := count + run;
  }

  lemma ReachesTarget(s: State, w: nat, b: Tid, t: Tid) returns (s2: State)
    requires Migrating(s, w, t, Sending(1, 1, 1), [b], [t])
    ensures Enabled(s, Migrate(0, Visit)) && s2 == Apply(s, Migrate(0, Visit))
    ensures Enabled(s2, Migrate(0, SendVictim)) && s2.lists[Victims(0)][0] == s2.cpus[0].cur && s2.mig[0].next == 1
    ensures InThread(s2, 1) && s2.lists[Queue(1)] == [] && Wchan(w) in s2.lists
  {
    assert Bystander(s, 1) && t in [t];
    s2 := Apply(s, Migrate(0, Visit));
  }

  lemma {:induction false} Concat(s: State, a: seq<Step>, b: seq<Step>)
    requires IsRun(s, a) && IsRun(After(s, a), b)
    ensures IsRun(s, a + b) && After(s, a + b) == After(After(s, a), b)
    decreases |a|
  {
    if a == [] {
      assert a + b == b;
    } else {
      assert (a + b)[1..] == a[1..] + b && (a + b)[0] == a[0];
      Concat(Apply(s, a[0]), a[1..], b);
    }
  }

  /**
   On every machine with two CPUs and a wait channel, some run from boot makes
   the test fire: the boot thread forks t, both sleep, CPU 0 idles with t
   current, both are woken, and the timer interrupt that finds two threads
   queued there and none elsewhere takes t, at the tail, to CPU 1. Skipping
   the test there lets CPU 1 load a context nobody has saved.
   */
  lemma GuardFires(s: State, w: nat, t: Tid) returns (run: seq<Step>, s2: State, bad: seq<Step>)
    requires Init(s) && |s.cpus| >= 2 && Wchan(w) in s.lists && t !in s.threads
    ensures IsRun(s, run) && s2 == After(s, run)
    ensures Enabled(s2, Migrate(0, SendVictim)) && s2.lists[Victims(0)][0] == s2.cpus[0].cur
    ensures IsRun(SendUnguarded(s2, 0), bad) && !Safe(After(SendUnguarded(s2, 0), bad))
  {
    var s1;
    run, s1 := CurrentBecomesVictim(s, w, t);
    s2 := ReachesTarget(s1, w, s.cpus[0].cur, t);
    RunJoin(s1, Migrate(0, Visit), []);
    Concat(s, run, [Migrate(0, Visit)] + []);
    run := run + ([Migrate(0, Visit)] + []);
    InitInv(s);
    RunKeeps(s, run);
    bad := GuardIsNeeded(s2, 0, w);
  }
}
