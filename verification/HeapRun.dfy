/**
 Whole runs of the kernel heap: what clients hold after any sequence of kmalloc,
 kfree and their own stores.
 */
module HeapRun {

  import opened Heap
  import K = Kheap
  import P = Pagerefs
  import C = Coremap

  /** Release stands for kfree of an address the client holds, or of NULL. */
  datatype Op = Malloc(size: nat) | Release(a: nat) | Scribble(a: nat, x: nat, v: nat)

  /** What clients hold: address and requested size. */
  type Held = map<nat, nat>

  /** Blocks in clients' hands are at least as large as requested and disjoint. */
  ghost predicate Separate(held: Held) {
    forall a, b :: a in held && b in held && a < b ==> a + held[a] <= b
  }

  ghost function Sizes(live: map<nat, Block>): Held {
    map a | a in live && !live[a].Free? :: live[a].size
  }

  function HeldStep(held: Held, op: Op, result: nat): Held {
    match op
    case Malloc(size) => if result == 0 then held else held[result := size]
    case Release(a) => held - {a}
    case Scribble(_, _, _) => held
  }

  /** The client holds the address, or it is NULL. */
  predicate Allowed(held: Held, op: Op) {
    match op
    case Malloc(size) => size < 0x1_0000_0000
    case Release(a) => a == 0 || a in held
    case Scribble(a, x, _) => a in held && a <= x < a + held[a]
  }

  lemma HeldAreSeparate(kh: K.Kheap)
    requires kh.Valid()
    ensures Separate(Sizes(LiveBlocks(kh.View())))
  {
    var h := kh.View();
    var held := Sizes(LiveBlocks(h));
    forall a, b | a in held && b in held && a < b ensures a + held[a] <= b {
      Disjoint(h, kh.cm.frames[..], kh.cm.memStart, a, b);
      assert BlockOk(h, a);
    }
  }

  /** The heap is in order and no page is wholly free. */
  ghost predicate Sound(m: K.Machine) {
    && Inv(m.h) && NoneWhole(m.h) && Owned(m.h, m.frames, m.memStart)
    && P.Counted(m.roots.flags, m.roots.numinuse) && |m.roots.pages| == P.NUM_PAGEREFPAGES
  }

  /** One allowed operation: kmalloc returns NULL exactly when MallocFails says
      so; frames and references change as stated, and no frame is lost or taken
      from anybody else. */
  ghost predicate StepOk(m: K.Machine, m2: K.Machine, held: Held, op: Op, result: nat) {
    && result !in held && SameShare(m.h.owner, m.frames, {}, m2.h.owner, m2.frames, {})
    && match op
       case Malloc(size) =>
         && (result == 0 <==> K.MallocFails(m, size)) && K.RootsStep(m, m2.roots, size)
         && K.FreeOf(m2) == K.FreeOf(m) - K.FramesTaken(m, size)
       case Release(a) => result == 0 && !K.FreePanics(m, a) && K.FreedBlock(m, m2, a)
       case Scribble(_, _, _) => result == 0 && m2.roots == m.roots && m2.frames == m.frames
  }

  /** The operation fails the assertion of freepageref. */
  ghost predicate Halts(m: K.Machine, op: Op) { op.Release? && K.FreePanics(m, op.a) }

  /** One client operation. */
  method Step(kh: K.Kheap, op: Op, held: Held) returns (result: nat, halted: bool)
    requires kh.Valid() && held == Sizes(LiveBlocks(kh.View())) && Allowed(held, op)
    modifies kh, kh.roots, kh.roots.inuse, kh.cm, kh.cm.frames
    ensures halted <==> Halts(old(kh.Now()), op)
    ensures !halted ==> kh.Valid() && Sizes(LiveBlocks(kh.View())) == HeldStep(held, op, result)
    ensures !halted ==> StepOk(old(kh.Now()), kh.Now(), held, op, result)
  {
    result, halted := 0, false;
    ghost var h := kh.View();
    BlocksManaged(h, kh.cm.frames[..], kh.cm.memStart);
    match op
    case Malloc(size) =>
      result := MallocStep(kh, size, held);
    case Release(a) =>
      halted := kh.Kfree(a);
    case Scribble(a, x, v) =>
      ShareSame(kh.owner, kh.cm.frames[..], {});
      assert BlockOk(h, a);
      kh.ClientWrite(a, x, v);
  }

  method MallocStep(kh: K.Kheap, size: nat, held: Held) returns (result: nat)
    requires kh.Valid() && held == Sizes(LiveBlocks(kh.View())) && size < 0x1_0000_0000 && 0 !in held
    modifies kh, kh.roots, kh.roots.inuse, kh.cm, kh.cm.frames
    ensures kh.Valid() && Sizes(LiveBlocks(kh.View())) == HeldStep(held, Malloc(size), result)
    ensures StepOk(old(kh.Now()), kh.Now(), held, Malloc(size), result)
  {
    ghost var h := kh.View();
    var lost;
    result, lost := kh.Kmalloc(size);
    if result > 0 {
      SizesNew(h, kh.View(), result, size);
    }
  }

  lemma SizesNew(h: Heap, h2: Heap, a: nat, size: nat)
    requires IsNewBlock(h, h2, a, size)
    ensures Sizes(LiveBlocks(h2)) == Sizes(LiveBlocks(h))[a := size] && a !in Sizes(LiveBlocks(h))
  {
  }

  /** States, one before each operation and one after the last. */
  ghost predicate IsTrace(states: seq<K.Machine>, ops: seq<Op>, results: seq<nat>) {
    && |states| == |results| + 1 && |results| <= |ops|
    && (forall i {:trigger TraceStep(states, ops, results, i)} :: 0 <= i < |results| ==>
          TraceStep(states, ops, results, i))
    && Sound(states[|results|]) && HeldRun(ops[..|results|], results) == Sizes(LiveBlocks(states[|results|].h))
  }

  /** Clients hold what they were given and did not free, in blocks that never
      overlap; operations that are not allowed are skipped. */
  ghost predicate TraceStep(states: seq<K.Machine>, ops: seq<Op>, results: seq<nat>, i: nat)
    requires i < |results| <= |ops| && |states| == |results| + 1
  {
    var held := HeldRun(ops[..i], results[..i]);
    && Sound(states[i]) && held == Sizes(LiveBlocks(states[i].h)) && Separate(held)
    && if Allowed(held, ops[i]) then StepOk(states[i], states[i + 1], held, ops[i], results[i])
       else results[i] == 0 && states[i + 1] == states[i]
  }

  /** The next operation is one that halts. */
  ghost predicate HaltsNext(states: seq<K.Machine>, ops: seq<Op>, results: seq<nat>) {
    && |results| < |ops| && |states| == |results| + 1
    && Allowed(HeldRun(ops[..|results|], results), ops[|results|]) && Halts(states[|results|], ops[|results|])
  }

  /**
   Any sequence of operations is carried out to its end, or to the first kfree
   that fails the assertion of freepageref. Throughout, clients hold exactly the
   blocks they were given and did not free, and these never overlap; kmalloc
   returns NULL exactly when there is no free block of its type and no new page
   can be made, or no run of frames is long enough; and no frame is lost.
   */
  method Run(kh: K.Kheap, ops: seq<Op>)
    returns (results: seq<nat>, held: Held, halted: bool, ghost states: seq<K.Machine>)
    requires kh.Valid() && LiveBlocks(kh.View()) == map[]
    modifies kh, kh.roots, kh.roots.inuse, kh.cm, kh.cm.frames
    ensures IsTrace(states, ops, results) && states[0] == old(kh.Now())
    ensures halted <==> HaltsNext(states, ops, results)
    ensures !halted ==> kh.Valid() && |results| == |ops| && states[|results|] == kh.Now()
    ensures held == HeldRun(ops[..|results|], results) && Separate(held)
  {
    results, held, halted, states := [], map[], false, [kh.Now()];
    ghost var m := kh.Now();
    assert Sizes(LiveBlocks(kh.View())) == map[];
    while |results| < |ops| && !halted
      invariant Traced(m, ops, results, held, states) && (!halted ==> HasRun(kh, results, states))
      invariant halted ==> HaltsNext(states, ops, results)
      decreases |ops| - |results|, !halted
    {
      var result, held2;
      result, held2, halted := Advance(kh, ops, results, held, m, states);
      if !halted {
        results, held, states := results + [result], held2, states + [kh.Now()];
      }
    }
  }

  /** The operations so far have run as they should. */
  ghost predicate Traced(m: K.Machine, ops: seq<Op>, results: seq<nat>, held: Held, states: seq<K.Machine>) {
    IsTrace(states, ops, results) && states[0] == m && held == HeldRun(ops[..|results|], results) && Separate(held)
  }

  ghost predicate HasRun(kh: K.Kheap, results: seq<nat>, states: seq<K.Machine>)
    reads kh, kh.cm, kh.cm.frames, kh.roots, kh.roots.inuse
  {
    kh.Valid() && |states| == |results| + 1 && states[|results|] == kh.Now()
  }

  /** The next operation. */
  method Advance(kh: K.Kheap, ops: seq<Op>, results: seq<nat>, held0: Held, ghost m: K.Machine,
                 ghost states: seq<K.Machine>)
    returns (result: nat, held: Held, halted: bool)
    requires HasRun(kh, results, states) && Traced(m, ops, results, held0, states) && |results| < |ops|
    modifies kh, kh.roots, kh.roots.inuse, kh.cm, kh.cm.frames
    ensures halted <==> HaltsNext(states, ops, results)
    ensures !halted ==> HasRun(kh, results + [result], states + [kh.Now()])
    ensures !halted ==> Traced(m, ops, results + [result], held, states + [kh.Now()])
  {
    var op := ops[|results|];
    result, held, halted := 0, held0, false;
    if Allowed(held0, op) {
      result, halted := Step(kh, op, held0);
      held := HeldStep(held0, op, result);
    }
    if !halted {
      HeldRunNext(ops, results, result);
      HeldAreSeparate(kh);
      TraceNext(states, ops, results, kh.Now(), result);
    }
  }

  lemma TraceNext(states: seq<K.Machine>, ops: seq<Op>, results: seq<nat>, m: K.Machine, result: nat)
    requires IsTrace(states, ops, results) && |results| < |ops|
    requires var n, held := |results|, HeldRun(ops[..|results|], results);
      && Separate(held) && Sound(m) && HeldRun(ops[..n + 1], results + [result]) == Sizes(LiveBlocks(m.h))
      && if Allowed(held, ops[n]) then StepOk(states[n], m, held, ops[n], result) else result == 0 && m == states[n]
    ensures IsTrace(states + [m], ops, results + [result])
  {
    var n, states2, results2 := |results|, states + [m], results + [result];
    assert results2[..n] == results && results[..n] == results;
    forall i | 0 <= i < n + 1 ensures TraceStep(states2, ops, results2, i) {
      if i < n {
        assert TraceStep(states, ops, results, i);
        assert results2[..i] == results[..i];
      }
    }
  }

  // ------------------------------------------------------------------
  // The assertion of freepageref over whole runs

  /** Operation i is a kmalloc that loses a page reference. */
  ghost predicate LosesAt(states: seq<K.Machine>, ops: seq<Op>, results: seq<nat>, i: nat)
    requires i < |results| <= |ops| && i < |states|
  {
    && Allowed(HeldRun(ops[..i], results[..i]), ops[i])
    && ops[i].Malloc? && K.MallocLoses(states[i], ops[i].size)
  }

  /** How many of the first n operations do so. */
  ghost function Losses(states: seq<K.Machine>, ops: seq<Op>, results: seq<nat>, n: nat): nat
    requires n <= |results| <= |ops| && n <= |states|
  {
    if n == 0 then 0
    else Losses(states, ops, results, n - 1) + (if LosesAt(states, ops, results, n - 1) then 1 else 0)
  }

  /** Until 256 references have been lost, roots have got their pages in order. */
  lemma {:induction false} OrderOverRun(states: seq<K.Machine>, ops: seq<Op>, results: seq<nat>, n: nat)
    requires IsTrace(states, ops, results) && K.AtBoot(states[0].roots) && n <= |results|
    ensures K.Filled(states[n].roots) && K.AtMost(states[n].roots, Losses(states, ops, results, n))
    ensures Losses(states, ops, results, n) < P.NPAGEREFS_PER_PAGE ==> K.InOrder(states[n].roots)
  {
    if n > 0 {
      var i := n - 1;
      var m, r2, losses := states[i], states[n].roots, Losses(states, ops, results, i);
      OrderOverRun(states, ops, results, i);
      assert TraceStep(states, ops, results, i);
      if Allowed(HeldRun(ops[..i], results[..i]), ops[i]) {
        match ops[i]
        case Malloc(size) =>
          K.OrderStep(m, r2, size);
          K.LossStep(m, r2, size, losses);
          if K.Breaks(m, size) {
            K.BreakNeedsLosses(m, size, losses);
          }
        case Release(a) =>
          if K.EmptiesPage(m.h, a) {
            K.FreeKeepsOrder(m.roots, r2, m.h.blocks[a].id);
            K.FreeKeepsBound(m.roots, r2, m.h.blocks[a].id, losses);
          }
        case Scribble(_, _, _) =>
      }
    }
  }

  /** From boot, no kfree fails the assertion before 256 references have been
      lost. */
  lemma HaltNeedsLosses(states: seq<K.Machine>, ops: seq<Op>, results: seq<nat>)
    requires IsTrace(states, ops, results) && K.AtBoot(states[0].roots) && HaltsNext(states, ops, results)
    ensures Losses(states, ops, results, |results|) >= P.NPAGEREFS_PER_PAGE
  {
    var n := |results|;
    OrderOverRun(states, ops, results, n);
    var m := states[n];
    if K.InOrder(m.roots) {
      K.InOrderIsClear(m.roots, m.h.blocks[ops[n].a].id);
    }
  }

  /** The first i references are in use and no root has a page. */
  ghost predicate LostSoFar(r: K.RootState, i: nat) {
    && |r.flags| == P.NUM_PAGEREFPAGES * P.NPAGEREFS_PER_PAGE && |r.numinuse| == |r.pages| == P.NUM_PAGEREFPAGES
    && i <= P.NPAGEREFS_PER_PAGE && (forall k :: 0 <= k < |r.flags| ==> (r.flags[k] <==> k < i))
    && r.numinuse[0] == i && forall w :: 0 <= w < |r.pages| ==> r.pages[w] == 0
  }

  /** One more is lost. */
  lemma OneMoreLost(m: K.Machine, r2: K.RootState, i: nat, size: nat)
    requires LostSoFar(m.roots, i) && i < P.NPAGEREFS_PER_PAGE && K.FreeOf(m) == 1
    requires size < LARGEST_SUBPAGE_SIZE && m.h.refs == map[] && K.RootsStep(m, r2, size)
    ensures K.MallocLoses(m, size) && K.MallocFails(m, size) && LostSoFar(r2, i + 1)
  {
    assert P.NextRef(m.roots.flags, 0, i);
    K.NextIsUnique(m.roots, 0, i);
    K.TookIsAt(m.roots, r2, 0, 0, i);
  }

  /** Then the second root gets a page although the first has none, and its first
      reference is blocked. */
  lemma NextIsBlocked(m: K.Machine, r2: K.RootState, size: nat)
    requires LostSoFar(m.roots, P.NPAGEREFS_PER_PAGE) && K.FreeOf(m) == 2
    requires size < LARGEST_SUBPAGE_SIZE && m.h.refs == map[] && K.RootsStep(m, r2, size)
    ensures !K.MallocFails(m, size) && K.MakesPage(m, size)
    ensures forall id :: K.Marked(r2.flags, r2.pages, id) ==> K.RefBlocked(r2, id)
  {
    assert P.NextRef(m.roots.flags, 1, 0);
    K.NextIsUnique(m.roots, 1, 0);
    K.TookIsAt(m.roots, r2, 1, 1, 0);
    assert K.Bare(r2, 0);
    assert K.BlockedBefore(r2, 1);
    forall id | K.Marked(r2.flags, r2.pages, id) ensures K.RefBlocked(r2, id) {
      var w: nat, j: nat :| K.IsRef(r2.flags, r2.pages, w, j, id);
      assert K.InRoot(r2, 1, id);
    }
  }

  /**
   It does happen. With two free frames at boot: a page goes to a client, 256
   small requests lose the references of the first root one by one, the page
   comes back, and the next small request gets a reference of the second root.
   Freeing that block fails the assertion.
   */
  method LossesBlockKfree(kh: K.Kheap) returns (panicked: bool)
    requires kh.Valid() && K.AtBoot(kh.Roots()) && kh.refs == map[] && kh.FreeFrames() == 2
    modifies kh, kh.roots, kh.roots.inuse, kh.cm, kh.cm.frames
    ensures panicked
  {
    C.NoRunOfOne(kh.cm.frames[..], kh.cm.memStart);
    var page, lost := kh.Kmalloc(PAGE_SIZE);
    assert page in LiveBlocks(kh.View());
    LoseAll(kh);
    panicked := kh.Kfree(page);
    panicked := BlockedFree(kh);
  }

  method LoseAll(kh: K.Kheap)
    requires kh.Valid() && LostSoFar(kh.Roots(), 0) && kh.refs == map[] && kh.FreeFrames() == 1
    modifies kh, kh.roots, kh.roots.inuse, kh.cm, kh.cm.frames
    ensures kh.Valid() && LostSoFar(kh.Roots(), P.NPAGEREFS_PER_PAGE) && kh.refs == map[] && kh.FreeFrames() == 1
    ensures LiveBlocks(kh.View()) == old(LiveBlocks(kh.View()))
  {
    ghost var live := LiveBlocks(kh.View());
    for i := 0 to P.NPAGEREFS_PER_PAGE
      invariant kh.Valid() && LostSoFar(kh.Roots(), i) && kh.refs == map[] && kh.FreeFrames() == 1
      invariant LiveBlocks(kh.View()) == live
    {
      ghost var m := kh.Now();
      var a, lost := kh.Kmalloc(SIZES[0]);
      OneMoreLost(m, kh.Roots(), i, SIZES[0]);
    }
  }

  method BlockedFree(kh: K.Kheap) returns (panicked: bool)
    requires kh.Valid() && LostSoFar(kh.Roots(), P.NPAGEREFS_PER_PAGE) && kh.refs == map[] && kh.FreeFrames() == 2
    modifies kh, kh.roots, kh.roots.inuse, kh.cm, kh.cm.frames
    ensures panicked
  {
    ghost var m := kh.Now();
    var a, lost := kh.Kmalloc(SIZES[0]);
    NextIsBlocked(m, kh.Roots(), SIZES[0]);
    assert K.Marked(kh.roots.inuse[..], kh.pages, kh.blocks[a].id);
    panicked := kh.Kfree(a);
  }

  ghost function HeldRun(ops: seq<Op>, results: seq<nat>): Held
    requires |ops| == |results|
  {
    if ops == [] then map[]
    else
      var n := |ops| - 1;
      var held := HeldRun(ops[..n], results[..n]);
      if Allowed(held, ops[n]) then HeldStep(held, ops[n], results[n]) else held
  }

  lemma HeldRunNext(ops: seq<Op>, results: seq<nat>, result: nat)
    requires |results| < |ops|
    ensures var n, held := |results|, HeldRun(ops[..|results|], results);
      HeldRun(ops[..n + 1], results + [result]) ==
        if Allowed(held, ops[n]) then HeldStep(held, ops[n], result) else held
  {
    var n := |results|;
    assert ops[..n + 1][..n] == ops[..n] && (results + [result])[..n] == results;
  }
}
