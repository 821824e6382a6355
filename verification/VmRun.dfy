/**
 Whole runs of the virtual memory system. The reference is a machine with the
 bounds of every address space and a map from (address space, page) to
 contents; it knows nothing of frames, swap or faults.
 */
module VmRun {

  import opened KernLib
  import opened Paging
  import V = Vm
  import C = Coremap
  import B = Bitmap

  /** k and mem are the allocations of kernel memory an operation makes, and
      gives the frames that kfree gives back in it. */
  datatype Op =
    | Create(a: nat, k: V.Kmem, gives: seq<nat>)
    | DefineRegion(a: nat, vaddr: nat, memsize: nat, k: V.Kmem, gives: seq<nat>)
    | PrepareLoad(a: nat)
    | Fault(a: nat, vp: nat, k: V.Kmem, gives: seq<nat>)
    | Load(a: nat, vp: nat, k: V.Kmem, gives: seq<nat>)
    | Store(a: nat, vp: nat, page: Page, k: V.Kmem, gives: seq<nat>)
    | Evict
    | Copy(a: nat, b: nat, mem: seq<V.Kmem>, gives: seq<nat>)
    | Destroy(a: nat, gives: seq<nat>)
    | Sbrk(a: nat, increment: int, gives: seq<nat>)
    | AllocKernel(n: nat)
    | FreeKernel(f: nat)

  /** Why an operation fails; Refused stands for a call its caller may not make
      in this state. */
  datatype Error = Efault | Enomem | Einval | Refused

  datatype Outcome = Failed(error: Error) | Done | Loaded(page: Page) | Moved(oldEnd: nat, newEnd: nat)

  // ------------------------------------------------------------------
  // The flat machine

  type Memory = map<Key, Page>

  datatype Flat = Flat(mem: Memory, spaces: map<nat, Bounds>)

  ghost function FlatRead(m: Memory, k: Key): Page { if k in m then m[k] else ZeroPage() }

  /** The pages of a, as pages of b. */
  ghost function Child(m: Memory, a: nat, b: nat): Memory {
    map k | k in m && k.space == a :: Key(b, k.vpage) := m[k]
  }

  lemma ChildAt(m: Memory, a: nat, b: nat, k: Key)
    ensures k in Child(m, a, b) <==> k.space == b && Key(a, k.vpage) in m
    ensures k in Child(m, a, b) ==> Child(m, a, b)[k] == m[Key(a, k.vpage)]
  {
    if k.space == b && Key(a, k.vpage) in m {
      assert Key(b, Key(a, k.vpage).vpage) in Child(m, a, b);
    }
  }

  /** Only stores, copies, destruction and shrinking change the memory. */
  ghost function FlatMem(m: Memory, op: Op, out: Outcome): Memory {
    if out.Failed? then m
    else match op
      case Store(a, vp, page, _, _) => m[Key(a, vp) := page]
      case Copy(a, b, _, _) => m + Child(m, a, b)
      case Destroy(a, _) => map k | k in m && k.space != a :: m[k]
      case Sbrk(a, _, _) =>
        if out.Moved? then map k | k in m && !(k.space == a && out.newEnd <= k.vpage < out.oldEnd) :: m[k] else m
      case _ => m
  }

  ghost function FlatSpaces(spaces: map<nat, Bounds>, op: Op, out: Outcome): map<nat, Bounds> {
    if out.Failed? then spaces
    else match op
      case Create(a, _, _) => spaces[a := Bounds([], 0, 0)]
      case DefineRegion(a, vaddr, memsize, _, _) =>
        if a in spaces then spaces[a := V.AddRegion(spaces[a], V.RegionOf(vaddr, memsize))] else spaces
      case PrepareLoad(a) =>
        if a in spaces then
          var regions := spaces[a].regions;
          spaces[a := Bounds(regions, V.HighestEnd(regions), V.HighestEnd(regions))]
        else spaces
      case Copy(a, b, _, _) => if a in spaces then spaces[b := spaces[a]] else spaces
      case Destroy(a, _) => spaces - {a}
      case Sbrk(a, _, _) =>
        if a in spaces && out.Moved? then spaces[a := spaces[a].(heapEnd := out.newEnd)] else spaces
      case _ => spaces
  }

  ghost function FlatStep(f: Flat, op: Op, out: Outcome): Flat {
    Flat(FlatMem(f.mem, op, out), FlatSpaces(f.spaces, op, out))
  }

  ghost function FlatRun(f: Flat, ops: seq<Op>, outs: seq<Outcome>): Flat
    requires |ops| == |outs|
  {
    if ops == [] then f
    else FlatStep(FlatRun(f, ops[..|ops| - 1], outs[..|ops| - 1]), ops[|ops| - 1], outs[|ops| - 1])
  }

  /** What an operation that does not fail answers. */
  ghost predicate Answers(f: Flat, op: Op, out: Outcome) {
    match op
    case Load(a, vp, _, _) => out == Loaded(FlatRead(f.mem, Key(a, vp)))
    case Sbrk(a, increment, _) =>
      && a in f.spaces && out.Moved?
      && out.oldEnd == f.spaces[a].heapEnd && out.newEnd * V.PAGE_SIZE == f.spaces[a].heapEnd * V.PAGE_SIZE + increment
    case _ => out == Done
  }

  ghost predicate Reads(s: State, m: Memory) { forall k :: Read(s, k) == FlatRead(m, k) }

  ghost predicate Refines(s: State, f: Flat) { s.spaces == f.spaces && Reads(s, f.mem) }

  lemma CopyRefines(s: State, s2: State, m: Memory, op: Op, a: nat, b: nat)
    requires Reads(s, m) && op.Copy? && op.a == a && op.b == b && a != b
    requires forall k :: Read(s2, k) == Read(s, if k.space == b then Key(a, k.vpage) else k)
    requires forall k: Key :: k.space == b ==> Read(s, k) == ZeroPage()
    ensures Reads(s2, FlatMem(m, op, Done))
  {
    var m2 := FlatMem(m, op, Done);
    forall k ensures Read(s2, k) == FlatRead(m2, k) {
      ChildAt(m, a, b, k);
      assert Read(s, Key(a, k.vpage)) == FlatRead(m, Key(a, k.vpage)) && Read(s, k) == FlatRead(m, k);
    }
  }

  lemma ShrinkRefines(s: State, s2: State, m: Memory, op: Op, oldEnd: nat, newEnd: nat)
    requires Reads(s, m) && op.Sbrk? && V.ClearedReads(s, s2, op.a, newEnd, oldEnd)
    ensures Reads(s2, FlatMem(m, op, Moved(oldEnd, newEnd)))
  {
  }

  // ------------------------------------------------------------------
  // When an operation fails, and what it does to frames and entries

  ghost predicate SbrkFails(b: Bounds, increment: int) {
    || !(-0x8000_0000 <= increment < 0x8000_0000)
    || (increment > 0 && b.heapEnd * V.PAGE_SIZE + increment >= V.STACK_BASE * V.PAGE_SIZE)
    || b.heapEnd * V.PAGE_SIZE + increment < b.heapStart * V.PAGE_SIZE
    || increment % V.PAGE_SIZE != 0
  }

  ghost predicate HasUsed(s: State) { exists i :: 0 <= i < |s.frames| && s.frames[i].state == C.Used }

  /** Kernel memory cannot be had. */
  ghost predicate NoMemory(s: State, memStart: nat, k: V.Kmem) { !k.ok || k.claims > V.FreeFrames(s, memStart) }

  /** A call its caller may not make: on an address space that does not exist, or
      exists already, for a segment outside user space, or on a user's frame. */
  ghost predicate Wrong(s: State, op: Op) {
    match op
    case Create(a, _, _) => a in s.spaces
    case DefineRegion(a, vaddr, memsize, _, _) =>
      a !in s.spaces || V.End(V.RegionOf(vaddr, memsize)) >= V.USERSTACK
    case PrepareLoad(a) => a !in s.spaces
    case Copy(a, b, _, _) => a !in s.spaces || b in s.spaces
    case Destroy(a, _) => a !in s.spaces
    case Sbrk(a, _, _) => a !in s.spaces
    case FreeKernel(f) => f >= |s.frames| || s.frames[f].state == C.Used
    case _ => false
  }

  ghost predicate Fails(s: State, memStart: nat, op: Op) {
    || Wrong(s, op)
    || match op
       case Create(_, k, _) => NoMemory(s, memStart, k)
       case DefineRegion(_, _, _, k, _) => NoMemory(s, memStart, k)
       case Fault(a, vp, k, _) => V.FaultFails(s, memStart, a, vp, k)
       case Load(a, vp, k, _) => V.FaultFails(s, memStart, a, vp, k)
       case Store(a, vp, _, k, _) => V.FaultFails(s, memStart, a, vp, k)
       case Evict => !HasUsed(s) || B.AllSet(s.slots)
       case Copy(a, _, mem, _) => V.CopyFails(s, memStart, a, mem)
       case Sbrk(a, increment, _) => SbrkFails(s.spaces[a], increment)
       case AllocKernel(n) => n == 0 || C.NoRun(s.frames, memStart, n)
       case _ => false
  }

  /** The error of a failing operation. */
  ghost function ErrorOf(s: State, op: Op): Error {
    if Wrong(s, op) || op.Evict? then Refused
    else if IsAccess(op) then if V.Present(s.spaces, op.a, op.vp) then Enomem else Efault
    else if op.Sbrk? then
      if !(-0x8000_0000 <= op.increment < 0x8000_0000) then Refused
      else if op.increment > 0 && s.spaces[op.a].heapEnd * V.PAGE_SIZE + op.increment >= V.STACK_BASE * V.PAGE_SIZE
      then Enomem
      else Einval
    else Enomem
  }

  predicate IsAccess(op: Op) { op.Fault? || op.Load? || op.Store? }

  /** The failing operation leaves a page table that ends in a freed entry. */
  ghost predicate Crashes(s: State, memStart: nat, op: Op) {
    IsAccess(op) && V.LeavesDangling(s, memStart, op.a, op.vp, op.k)
  }

  ghost predicate SameEntries(s: State, s2: State) { s2.pages == s.pages && C.SameKernel(s.frames, s2.frames) }

  /** The kernel frames a failing operation leaves claimed or gives back. */
  ghost predicate FailTraffic(s: State, s2: State, memStart: nat, op: Op) {
    if Wrong(s, op) then C.SameKernel(s.frames, s2.frames)
    else if IsAccess(op) then V.FaultTraffic(s, s2, memStart, op.a, op.vp, op.k, op.gives)
    else if op.Copy? then C.GrewAtMost(s.frames, s2.frames, memStart, V.CopyClaims(s, op.a, op.mem), op.gives)
    else if op.Create? || op.DefineRegion? then
      C.Grew(s.frames, s2.frames, memStart, V.Least(op.k.claims, V.FreeFrames(s, memStart)), op.gives)
    else C.SameKernel(s.frames, s2.frames)
  }

  /** Page v of memory went to slot d, and its frame left the user. */
  ghost predicate Evicted(s: State, s2: State, v: nat, d: nat) {
    && v < |s.frames| == |s2.frames| && s.frames[v].state == C.Used && d < |s.slots| && !s.slots[d]
    && s2.pages == s.pages[Owner(s.frames[v]) := OnDisk(d)]
    && C.InKernel(s2.frames[v])
    && forall f: nat {:trigger C.KernelAt(s.frames, s2.frames, f)} :: f < |s.frames| && f != v ==>
      C.KernelAt(s.frames, s2.frames, f)
  }

  ghost predicate Claims(s: State, s2: State, memStart: nat, f: nat, n: nat) {
    memStart <= f && C.FreeRun(s.frames, f, n) && s2.frames == C.Claimed(s.frames, f, n)
  }

  ghost predicate Accessed(s: State, s2: State, memStart: nat, a: nat, vp: nat, k: V.Kmem) {
    V.MadeResident(s, s2, Key(a, vp)) && V.FaultTraffic(s, s2, memStart, a, vp, k, [])
  }

  ghost predicate Destroyed(s: State, s2: State, memStart: nat, a: nat, gives: seq<nat>) {
    && (forall k :: k in s2.pages ==> k.space != a) && V.SameEntries(s.pages, s2.pages, a)
    && C.Traffic(s.frames, s2.frames, memStart, {}, gives)
  }

  /** Which entries and frames an operation changes. */
  ghost predicate Moves(s: State, s2: State, memStart: nat, op: Op, out: Outcome) {
    if out.Failed? then s2.pages == s.pages && FailTraffic(s, s2, memStart, op)
    else match op
      case Create(_, k, _) => s2.pages == s.pages && C.Grew(s.frames, s2.frames, memStart, k.claims, [])
      case DefineRegion(_, _, _, k, _) => s2.pages == s.pages && C.Grew(s.frames, s2.frames, memStart, k.claims, [])
      case PrepareLoad(_) => SameEntries(s, s2)
      case Fault(a, vp, k, _) => Accessed(s, s2, memStart, a, vp, k)
      case Load(a, vp, k, _) => Accessed(s, s2, memStart, a, vp, k)
      case Store(a, vp, _, k, _) => Accessed(s, s2, memStart, a, vp, k)
      case Evict => exists v, d :: Evicted(s, s2, v, d)
      case Copy(a, b, mem, _) =>
        && a in s.spaces && V.CopyMade(s, s2, a, b)
        && C.Grew(s.frames, s2.frames, memStart, V.CopyClaims(s, a, mem), [])
      case Destroy(a, gives) => Destroyed(s, s2, memStart, a, gives)
      case Sbrk(a, increment, gives) =>
        && out.Moved? && V.ClearedEntries(s, s2, a, out.newEnd, out.oldEnd)
        && C.Traffic(s.frames, s2.frames, memStart, {}, if increment < 0 then gives else [])
      case AllocKernel(n) => s2.pages == s.pages && exists f :: Claims(s, s2, memStart, f, n)
      case FreeKernel(f) =>
        s2.pages == s.pages && f < |s.frames| && s2.frames == C.Freed(s.frames, f, s.frames[f].chunk)
  }

  /** One step of the machine and its outcome. */
  ghost predicate StepOk(s: State, s2: State, memStart: nat, op: Op, out: Outcome) {
    && Inv(s2) && (out.Failed? <==> Fails(s, memStart, op)) && (out.Failed? ==> out.error == ErrorOf(s, op))
    && Moves(s, s2, memStart, op, out)
  }

  /** Which frames are free follows from the entries and the kernel's frames. */
  lemma FreeIsRest(s: State, f: nat)
    requires Inv(s) && f < |s.frames|
    ensures s.frames[f].state == C.Free <==>
      !C.InKernel(s.frames[f]) && forall k :: k in s.pages ==> s.pages[k] != InFrame(f)
  {
    assert FrameOk(s, f);
    forall k | k in s.pages ensures EntryOk(s, k) {
    }
  }

  lemma SameIsSame(s: State)
    ensures SameEntries(s, s)
  {
    C.SameKernelSelf(s.frames);
  }

  // ------------------------------------------------------------------
  // One step

  /** Setting up an address space does not change the memory. */
  method SetupStep(vm: V.Vm, op: Op, ghost f: Flat) returns (out: Outcome)
    requires vm.Valid() && Refines(vm.View(), f) && (op.Create? || op.DefineRegion? || op.PrepareLoad?)
    modifies vm, vm.cm, vm.cm.frames
    ensures vm.Valid() && Refines(vm.View(), FlatStep(f, op, out))
    ensures StepOk(old(vm.View()), vm.View(), vm.cm.memStart, op, out)
    ensures out.Failed? || Answers(f, op, out)
  {
    SameIsSame(vm.View());
    match op
    case Create(a, k, gives) =>
      if a in vm.spaces { return Failed(Refused); }
      var ok := vm.AsCreate(a, k, gives);
      return if ok then Done else Failed(Enomem);
    case DefineRegion(a, vaddr, memsize, k, gives) =>
      if a !in vm.spaces || V.End(V.RegionOf(vaddr, memsize)) >= V.USERSTACK { return Failed(Refused); }
      var ok := vm.AsDefineRegion(a, vaddr, memsize, k, gives);
      return if ok then Done else Failed(Enomem);
    case PrepareLoad(a) =>
      if a !in vm.spaces { return Failed(Refused); }
      vm.AsPrepareLoad(a);
      return Done;
  }

  method DestroyStep(vm: V.Vm, op: Op, ghost f: Flat) returns (out: Outcome)
    requires vm.Valid() && Refines(vm.View(), f) && op.Destroy?
    modifies vm, vm.cm, vm.cm.frames, vm.swap.v
    ensures vm.Valid() && Refines(vm.View(), FlatStep(f, op, out))
    ensures StepOk(old(vm.View()), vm.View(), vm.cm.memStart, op, out)
    ensures out.Failed? || Answers(f, op, out)
  {
    SameIsSame(vm.View());
    if op.a !in vm.spaces { return Failed(Refused); }
    vm.AsDestroy(op.a, op.gives);
    return Done;
  }

  method SbrkStep(vm: V.Vm, op: Op, ghost f: Flat) returns (out: Outcome)
    requires vm.Valid() && Refines(vm.View(), f) && op.Sbrk?
    modifies vm, vm.cm, vm.cm.frames, vm.swap.v
    ensures vm.Valid() && Refines(vm.View(), FlatStep(f, op, out))
    ensures StepOk(old(vm.View()), vm.View(), vm.cm.memStart, op, out)
    ensures out.Failed? || Answers(f, op, out)
  {
    ghost var s := vm.View();
    SameIsSame(s);
    if op.a !in vm.spaces || !(-0x8000_0000 <= op.increment < 0x8000_0000) { return Failed(Refused); }
    var r := vm.Sbrk(op.a, op.increment, op.gives);
    if !r.SbrkOk? { return Failed(if r.SbrkEnomem? then Enomem else Einval); }
    ShrinkRefines(s, vm.View(), f.mem, op, r.oldEnd, r.newEnd);
    return Moved(r.oldEnd, r.newEnd);
  }

  method CopyStep(vm: V.Vm, op: Op, ghost f: Flat) returns (out: Outcome)
    requires vm.Valid() && Refines(vm.View(), f) && op.Copy?
    modifies vm, vm.cm, vm.cm.frames, vm.swap.v
    ensures vm.Valid() && Refines(vm.View(), FlatStep(f, op, out))
    ensures StepOk(old(vm.View()), vm.View(), vm.cm.memStart, op, out)
    ensures out.Failed? || Answers(f, op, out)
  {
    ghost var s := vm.View();
    SameIsSame(s);
    if op.a !in vm.spaces || op.b in vm.spaces { return Failed(Refused); }
    V.NoPages(s, op.b);
    var ok := vm.AsCopy(op.a, op.b, op.mem, op.gives);
    if !ok { return Failed(Enomem); }
    CopyRefines(s, vm.View(), f.mem, op, op.a, op.b);
    return Done;
  }

  function FaultError(r: V.FaultResult): Error { if r.Efault? then Efault else Enomem }

  method FaultStep(vm: V.Vm, op: Op, ghost f: Flat) returns (out: Outcome)
    requires vm.Valid() && Refines(vm.View(), f) && op.Fault?
    modifies vm, vm.cm, vm.cm.frames, vm.swap.v
    ensures vm.Sound() && (vm.Valid() <==> !Crashes(old(vm.View()), vm.cm.memStart, op))
    ensures Refines(vm.View(), FlatStep(f, op, out)) && StepOk(old(vm.View()), vm.View(), vm.cm.memStart, op, out)
    ensures out.Failed? || Answers(f, op, out)
  {
    SameIsSame(vm.View());
    var r := vm.VmFault(op.a, op.vp * V.PAGE_SIZE, op.k, op.gives);
    return if r.Ok? then Done else Failed(FaultError(r));
  }

  method LoadStep(vm: V.Vm, op: Op, ghost f: Flat) returns (out: Outcome)
    requires vm.Valid() && Refines(vm.View(), f) && op.Load?
    modifies vm, vm.cm, vm.cm.frames, vm.swap.v
    ensures vm.Sound() && (vm.Valid() <==> !Crashes(old(vm.View()), vm.cm.memStart, op))
    ensures Refines(vm.View(), FlatStep(f, op, out)) && StepOk(old(vm.View()), vm.View(), vm.cm.memStart, op, out)
    ensures out.Failed? || Answers(f, op, out)
  {
    SameIsSame(vm.View());
    var r, page := vm.Load(op.a, op.vp, op.k, op.gives);
    return if r.Ok? then Loaded(page) else Failed(FaultError(r));
  }

  method StoreStep(vm: V.Vm, op: Op, ghost f: Flat) returns (out: Outcome)
    requires vm.Valid() && Refines(vm.View(), f) && op.Store?
    modifies vm, vm.cm, vm.cm.frames, vm.swap.v
    ensures vm.Sound() && (vm.Valid() <==> !Crashes(old(vm.View()), vm.cm.memStart, op))
    ensures Refines(vm.View(), FlatStep(f, op, out)) && StepOk(old(vm.View()), vm.View(), vm.cm.memStart, op, out)
    ensures out.Failed? || Answers(f, op, out)
  {
    SameIsSame(vm.View());
    var r := vm.Store(op.a, op.vp, op.page, op.k, op.gives);
    return if r.Ok? then Done else Failed(FaultError(r));
  }

  method KernelStep(vm: V.Vm, op: Op, ghost f: Flat) returns (out: Outcome)
    requires vm.Valid() && Refines(vm.View(), f) && (op.AllocKernel? || op.FreeKernel?)
    modifies vm, vm.cm, vm.cm.frames, vm.swap.v
    ensures vm.Valid() && Refines(vm.View(), FlatStep(f, op, out))
    ensures StepOk(old(vm.View()), vm.View(), vm.cm.memStart, op, out)
    ensures out.Failed? || Answers(f, op, out)
  {
    ghost var s := vm.View();
    SameIsSame(s);
    match op
    case AllocKernel(n) =>
      var a := vm.AllocKpages(n);
      assert a > 0 ==> Claims(s, vm.View(), vm.cm.memStart, a, n);
      return if a > 0 then Done else Failed(Enomem);
    case FreeKernel(a) =>
      if a >= vm.cm.frames.Length || vm.cm.frames[a].state == C.Used { return Failed(Refused); }
      vm.FreeKpages(a);
      return Done;
  }

  method EvictStep(vm: V.Vm, op: Op, ghost f: Flat) returns (out: Outcome)
    requires vm.Valid() && Refines(vm.View(), f) && op.Evict?
    modifies vm, vm.cm, vm.cm.frames, vm.swap.v
    ensures vm.Valid() && Refines(vm.View(), FlatStep(f, op, out))
    ensures StepOk(old(vm.View()), vm.View(), vm.cm.memStart, op, out)
    ensures out.Failed? || Answers(f, op, out)
  {
    SameIsSame(vm.View());
    var used := AnyUsed(vm.cm);
    var full := AllMarked(vm.swap);
    if !used || full { return Failed(Refused); }
    EvictOne(vm, f);
    return Done;
  }

  method EvictOne(vm: V.Vm, ghost f: Flat)
    requires vm.Valid() && Refines(vm.View(), f) && HasUsed(vm.View()) && !B.AllSet(vm.swap.View())
    modifies vm, vm.cm, vm.cm.frames, vm.swap.v
    ensures vm.Valid() && Refines(vm.View(), f) && exists v, d :: Evicted(old(vm.View()), vm.View(), v, d)
  {
    ghost var s := vm.View();
    var r := vm.Evict();
    ghost var d: nat :| d < |s.slots| && !s.slots[d] && vm.pages == s.pages[Owner(s.frames[r.value]) := OnDisk(d)];
    IsEvicted(s, vm.View(), old(vm.cm.hand), r.value, d);
  }

  lemma IsEvicted(s: State, s2: State, hand: nat, v: nat, d: nat)
    requires v < |s.frames| && hand < |s.frames| && s.frames[v].state == C.Used && d < |s.slots| && !s.slots[d]
    requires s2.frames == C.Marked(C.AfterClock(s.frames, hand, v), v)
    requires s2.pages == s.pages[Owner(s.frames[v]) := OnDisk(d)]
    ensures Evicted(s, s2, v, d)
  {
    forall f: nat | f < |s.frames| && f != v ensures C.KernelAt(s.frames, s2.frames, f) {
      C.EvictionTakesOne(s.frames, hand, v, f);
    }
  }

  method AnyUsed(cm: C.Coremap) returns (b: bool)
    ensures b <==> exists i :: 0 <= i < cm.frames.Length && cm.frames[i].state == C.Used
  {
    for i := 0 to cm.frames.Length
      invariant forall j :: 0 <= j < i ==> cm.frames[j].state != C.Used
    {
      if cm.frames[i].state == C.Used { return true; }
    }
    return false;
  }

  method AllMarked(swap: B.Bitmap) returns (b: bool)
    requires swap.Valid()
    ensures b <==> B.AllSet(swap.View())
  {
    for i := 0 to swap.nbits
      invariant forall j :: 0 <= j < i ==> swap.View()[j]
    {
      var marked := swap.IsSet(i);
      if !marked { return false; }
    }
    return true;
  }

  // ------------------------------------------------------------------
  // Runs

  /** It fails exactly when Fails says so, and otherwise answers as the flat
      machine does. */
  method Step(vm: V.Vm, op: Op, ghost f: Flat) returns (out: Outcome)
    requires vm.Valid() && Refines(vm.View(), f)
    modifies vm, vm.cm, vm.cm.frames, vm.swap.v
    ensures vm.Sound() && (vm.Valid() <==> !Crashes(old(vm.View()), vm.cm.memStart, op))
    ensures Refines(vm.View(), FlatStep(f, op, out)) && StepOk(old(vm.View()), vm.View(), vm.cm.memStart, op, out)
    ensures out.Failed? || Answers(f, op, out)
  {
    if op.Create? || op.DefineRegion? || op.PrepareLoad? {
      out := SetupStep(vm, op, f);
    } else if op.Copy? {
      out := CopyStep(vm, op, f);
    } else if op.Destroy? {
      out := DestroyStep(vm, op, f);
    } else if op.Sbrk? {
      out := SbrkStep(vm, op, f);
    } else if op.Fault? {
      out := FaultStep(vm, op, f);
    } else if op.Load? {
      out := LoadStep(vm, op, f);
    } else if op.Store? {
      out := StoreStep(vm, op, f);
    } else if op.Evict? {
      out := EvictStep(vm, op, f);
    } else {
      out := KernelStep(vm, op, f);
    }
  }

  /**
   The trace of a run: in state i operation i had outcome i, failing exactly
   when Fails says so and otherwise answering what the flat machine answers;
   every state holds, at every page, what the flat machine holds.
   */
  ghost predicate IsTrace(states: seq<State>, memStart: nat, f: Flat, ops: seq<Op>, outs: seq<Outcome>) {
    && |states| == |outs| + 1 && |outs| <= |ops|
    && (forall i {:trigger TraceStep(states, memStart, f, ops, outs, i)} :: 0 <= i < |outs| ==>
          TraceStep(states, memStart, f, ops, outs, i))
    && Refines(states[|outs|], FlatRun(f, ops[..|outs|], outs))
  }

  ghost predicate TraceStep(states: seq<State>, memStart: nat, f: Flat, ops: seq<Op>, outs: seq<Outcome>, i: nat)
    requires i < |outs| <= |ops| && |states| == |outs| + 1
  {
    var g := FlatRun(f, ops[..i], outs[..i]);
    && Refines(states[i], g) && StepOk(states[i], states[i + 1], memStart, ops[i], outs[i])
    && (outs[i].Failed? || Answers(g, ops[i], outs[i]))
  }

  /** The only crash, if any, is the last operation. */
  ghost predicate CrashesLast(states: seq<State>, memStart: nat, ops: seq<Op>, n: nat, crashed: bool) {
    && n <= |ops| && n < |states|
    && (forall i :: 0 <= i < n - 1 ==> !Crashes(states[i], memStart, ops[i]))
    && (crashed <==> n > 0 && Crashes(states[n - 1], memStart, ops[n - 1]))
  }

  /**
   Paging is invisible. Any sequence of operations runs to its end, or to the
   first access that links an entry it then frees. Each operation fails exactly
   when the state it meets lacks an address space, kernel memory, frames or
   swap slots as Fails says, and otherwise answers, and leaves in every page of
   every address space, what the flat machine does. Valid() carries the frame,
   swap and count invariants.
   */
  method Run(vm: V.Vm, ops: seq<Op>, ghost f: Flat)
    returns (outs: seq<Outcome>, crashed: bool, ghost states: seq<State>)
    requires vm.Valid() && Refines(vm.View(), f)
    modifies vm, vm.cm, vm.cm.frames, vm.swap.v
    ensures vm.Sound() && (vm.Valid() <==> !crashed) && (crashed || |outs| == |ops|)
    ensures IsTrace(states, vm.cm.memStart, f, ops, outs) && states[0] == old(vm.View()) && states[|outs|] == vm.View()
    ensures CrashesLast(states, vm.cm.memStart, ops, |outs|, crashed)
  {
    outs, crashed, states := [], false, [vm.View()];
    ghost var s0 := vm.View();
    while |outs| < |ops| && !crashed
      invariant HasRun(vm, s0, f, ops, outs, crashed, states)
      decreases |ops| - |outs|
    {
      var out;
      out, crashed := Advance(vm, ops, outs, s0, f, states);
      outs, states := outs + [out], states + [vm.View()];
    }
  }

  /** The operations so far have run as they should. */
  ghost predicate HasRun(vm: V.Vm, s0: State, f: Flat, ops: seq<Op>, outs: seq<Outcome>, crashed: bool,
                         states: seq<State>)
    reads vm, vm.cm, vm.cm.frames, vm.swap, vm.swap.v
  {
    && vm.Sound() && (vm.Valid() <==> !crashed)
    && IsTrace(states, vm.cm.memStart, f, ops, outs) && states[0] == s0 && states[|outs|] == vm.View()
    && CrashesLast(states, vm.cm.memStart, ops, |outs|, crashed)
  }

  /** The next operation. */
  method Advance(vm: V.Vm, ops: seq<Op>, outs: seq<Outcome>, ghost s0: State, ghost f: Flat, ghost states: seq<State>)
    returns (out: Outcome, crashed: bool)
    requires HasRun(vm, s0, f, ops, outs, false, states) && |outs| < |ops|
    modifies vm, vm.cm, vm.cm.frames, vm.swap.v
    ensures vm.Sound() && HasRun(vm, s0, f, ops, outs + [out], crashed, states + [vm.View()])
  {
    var n := |outs|;
    out := Step(vm, ops[n], FlatRun(f, ops[..n], outs));
    crashed := vm.dangling != {};
    TraceNext(states, vm.cm.memStart, f, ops, outs, vm.View(), out);
    CrashNext(states, vm.cm.memStart, ops, n, vm.View(), crashed);
  }

  lemma CrashNext(states: seq<State>, memStart: nat, ops: seq<Op>, n: nat, s: State, crashed: bool)
    requires CrashesLast(states, memStart, ops, n, false) && n < |ops| && |states| == n + 1
    requires crashed <==> Crashes(states[n], memStart, ops[n])
    ensures CrashesLast(states + [s], memStart, ops, n + 1, crashed)
  {
  }

  lemma TraceNext(states: seq<State>, memStart: nat, f: Flat, ops: seq<Op>, outs: seq<Outcome>, s: State, out: Outcome)
    requires IsTrace(states, memStart, f, ops, outs) && |outs| < |ops|
    requires var n := |outs|; var g := FlatRun(f, ops[..n], outs);
      && StepOk(states[n], s, memStart, ops[n], out) && Refines(s, FlatStep(g, ops[n], out))
      && (out.Failed? || Answers(g, ops[n], out))
    ensures IsTrace(states + [s], memStart, f, ops, outs + [out])
  {
    var n, states2, outs2 := |outs|, states + [s], outs + [out];
    assert ops[..n + 1][..n] == ops[..n] && outs2[..n] == outs;
    forall i | 0 <= i < n + 1 ensures TraceStep(states2, memStart, f, ops, outs2, i) {
      if i < n {
        assert TraceStep(states, memStart, f, ops, outs, i);
        assert outs2[..i] == outs[..i];
      }
    }
  }

  /** In any run a load of a valid page that is resident returns its contents. */
  lemma ResidentLoad(states: seq<State>, memStart: nat, f: Flat, ops: seq<Op>, outs: seq<Outcome>, i: nat)
    requires IsTrace(states, memStart, f, ops, outs) && i < |outs| && ops[i].Load?
    requires V.Present(states[i].spaces, ops[i].a, ops[i].vp)
    requires var k := Key(ops[i].a, ops[i].vp); k in states[i].pages && states[i].pages[k].InFrame?
    ensures outs[i] == Loaded(FlatRead(FlatRun(f, ops[..i], outs[..i]).mem, Key(ops[i].a, ops[i].vp)))
  {
    assert TraceStep(states, memStart, f, ops, outs, i);
  }

  /** A store that did not fail leaves its page resident. */
  lemma StoreLeaves(s: State, s2: State, memStart: nat, op: Op, out: Outcome)
    requires StepOk(s, s2, memStart, op, out) && op.Store? && !out.Failed?
    ensures V.Present(s.spaces, op.a, op.vp) && Key(op.a, op.vp) in s2.pages && s2.pages[Key(op.a, op.vp)].InFrame?
  {
  }

  lemma FlatRunNext(f: Flat, ops: seq<Op>, outs: seq<Outcome>, i: nat)
    requires i < |ops| && i < |outs|
    ensures FlatRun(f, ops[..i + 1], outs[..i + 1]) == FlatStep(FlatRun(f, ops[..i], outs[..i]), ops[i], outs[i])
  {
    assert ops[..i + 1][..i] == ops[..i] && outs[..i + 1][..i] == outs[..i];
  }

  /** In any run, and however full memory is, a load right after a store that
      did not fail returns what was stored. */
  lemma LoadAfterStore(states: seq<State>, memStart: nat, f: Flat, ops: seq<Op>, outs: seq<Outcome>, i: nat)
    requires IsTrace(states, memStart, f, ops, outs) && i + 1 < |outs|
    requires ops[i].Store? && !outs[i].Failed? && ops[i + 1].Load? && ops[i + 1].a == ops[i].a
    requires ops[i + 1].vp == ops[i].vp
    ensures outs[i + 1] == Loaded(ops[i].page)
  {
    assert TraceStep(states, memStart, f, ops, outs, i) && TraceStep(states, memStart, f, ops, outs, i + 1);
    FlatRunNext(f, ops, outs, i);
    StoreLeaves(states[i], states[i + 1], memStart, ops[i], outs[i]);
    ResidentLoad(states, memStart, f, ops, outs, i + 1);
  }

  /** Boot (coremap_bootstrap and vm_bootstrap): whatever memory and disk hold,
      no address space exists and the flat memory is empty. */
  method Boot(firstFree: nat, ramSize: nat, entrySize: nat, ram: seq<Page>, disk: seq<Page>) returns (vm: V.Vm)
    requires firstFree > 0 && |ram| == ramSize / C.PAGE_SIZE
    ensures fresh(vm) && fresh(vm.cm) && fresh(vm.cm.frames) && fresh(vm.swap) && fresh(vm.swap.v)
    ensures vm.Valid() && vm.pages == map[] && Refines(vm.View(), Flat(map[], map[]))
    ensures forall i :: vm.cm.memStart <= i < vm.cm.frames.Length ==> vm.cm.frames[i].state == C.Free
  {
    var cm := new C.Coremap(firstFree, ramSize, entrySize);
    var swap := new B.Bitmap(|disk|);
    vm := new V.Vm(cm, swap, ram, disk);
  }

  /** The same from boot: a machine that starts empty behaves as a flat memory
      that starts as zeros. */
  method BootAndRun(firstFree: nat, ramSize: nat, entrySize: nat, ram: seq<Page>, disk: seq<Page>, ops: seq<Op>)
    returns (vm: V.Vm, outs: seq<Outcome>, crashed: bool, ghost states: seq<State>)
    requires firstFree > 0 && |ram| == ramSize / C.PAGE_SIZE
    ensures vm.Sound() && (vm.Valid() <==> !crashed) && (crashed || |outs| == |ops|)
    ensures IsTrace(states, vm.cm.memStart, Flat(map[], map[]), ops, outs) && states[|outs|] == vm.View()
    ensures CrashesLast(states, vm.cm.memStart, ops, |outs|, crashed)
    ensures states[0].pages == map[] && states[0].spaces == map[]
    ensures forall i :: vm.cm.memStart <= i < |states[0].frames| ==> states[0].frames[i].state == C.Free
  {
    vm := Boot(firstFree, ramSize, entrySize, ram, disk);
    outs, crashed, states := Run(vm, ops, Flat(map[], map[]));
  }
}
