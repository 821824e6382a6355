/**
 Which pages a process can use, told from what it did: the operations of a run
 and their outcomes decide whether an access is EFAULT. Nothing here mentions
 the bounds that the address check compares with.
 */
module Access {

  import opened KernLib
  import opened Paging
  import V = Vm
  import R = VmRun

  /** The operations of a run so far, with their outcomes. */
  datatype History = History(ops: seq<R.Op>, outs: seq<R.Outcome>)

  ghost predicate IsHistory(h: History) { |h.ops| == |h.outs| }

  /** All but the last operation. */
  ghost function Before(h: History): History
    requires IsHistory(h) && h.ops != []
  {
    History(h.ops[..|h.ops| - 1], h.outs[..|h.ops| - 1])
  }

  ghost function LastOp(h: History): R.Op
    requires IsHistory(h) && h.ops != []
  {
    h.ops[|h.ops| - 1]
  }

  ghost function LastOut(h: History): R.Outcome
    requires IsHistory(h) && h.ops != []
  {
    h.outs[|h.ops| - 1]
  }

  /** Address space a was created or copied, and not destroyed since. */
  ghost predicate Exists(h: History, a: nat)
    requires IsHistory(h)
    decreases |h.ops|
  {
    && h.ops != []
    && if LastOut(h).Failed? then Exists(Before(h), a)
       else match LastOp(h)
         case Create(x, _, _) => x == a || Exists(Before(h), a)
         case Copy(_, y, _, _) => y == a || Exists(Before(h), a)
         case Destroy(x, _) => x != a && Exists(Before(h), a)
         case _ => Exists(Before(h), a)
  }

  /** Page vp is one of a segment that a, or the parent it is a copy of, has
      defined. */
  ghost predicate InSegment(h: History, a: nat, vp: nat)
    requires IsHistory(h)
    decreases |h.ops|
  {
    && h.ops != []
    && if LastOut(h).Failed? then InSegment(Before(h), a, vp)
       else match LastOp(h)
         case Create(x, _, _) => x != a && InSegment(Before(h), a, vp)
         case Destroy(x, _) => x != a && InSegment(Before(h), a, vp)
         case Copy(x, y, _, _) => InSegment(Before(h), if y == a then x else a, vp)
         case DefineRegion(x, vaddr, memsize, _, _) =>
           InSegment(Before(h), a, vp) || (x == a && IsSegmentPage(vaddr, memsize, vp))
         case _ => InSegment(Before(h), a, vp)
  }

  /** As many pages as the size needs, from the one that holds the address. */
  predicate IsSegmentPage(vaddr: nat, memsize: nat, vp: nat) {
    vaddr / V.PAGE_SIZE <= vp < vaddr / V.PAGE_SIZE + (memsize + V.PAGE_SIZE - 1) / V.PAGE_SIZE
  }

  /** sbrk has added page vp to the heap of a, or of the parent it is a copy of,
      and has not taken it away since. */
  ghost predicate InHeap(h: History, a: nat, vp: nat)
    requires IsHistory(h)
    decreases |h.ops|
  {
    && h.ops != []
    && if LastOut(h).Failed? then InHeap(Before(h), a, vp)
       else match LastOp(h)
         case Create(x, _, _) => x != a && InHeap(Before(h), a, vp)
         case Destroy(x, _) => x != a && InHeap(Before(h), a, vp)
         case PrepareLoad(x) => x != a && InHeap(Before(h), a, vp)
         case Copy(x, y, _, _) => InHeap(Before(h), if y == a then x else a, vp)
         case Sbrk(x, _, _) =>
           if x == a && Grows(LastOut(h), vp) then true
           else if x == a && Shrinks(LastOut(h), vp) then false
           else InHeap(Before(h), a, vp)
         case _ => InHeap(Before(h), a, vp)
  }

  predicate Grows(out: R.Outcome, vp: nat) { out.Moved? && out.oldEnd <= vp < out.newEnd }

  predicate Shrinks(out: R.Outcome, vp: nat) { out.Moved? && out.newEnd <= vp < out.oldEnd }

  predicate InStack(vp: nat) { V.USERSTACK - V.VM_STACKPAGES <= vp < V.USERSTACK }

  /** A process may use the page. */
  ghost predicate Usable(h: History, a: nat, vp: nat)
    requires IsHistory(h)
  {
    Exists(h, a) && (InStack(vp) || InSegment(h, a, vp) || InHeap(h, a, vp))
  }

  // ------------------------------------------------------------------
  // The bounds agree with the history

  ghost predicate InRegions(regions: seq<Region>, vp: nat) {
    exists i :: 0 <= i < |regions| && regions[i].start <= vp < V.End(regions[i])
  }

  ghost predicate Agrees(spaces: map<nat, Bounds>, h: History, a: nat, vp: nat)
    requires IsHistory(h)
  {
    && (a in spaces <==> Exists(h, a))
    && (a in spaces ==>
          && spaces[a].heapStart <= spaces[a].heapEnd
          && (InSegment(h, a, vp) <==> InRegions(spaces[a].regions, vp))
          && (InHeap(h, a, vp) <==> spaces[a].heapStart <= vp < spaces[a].heapEnd))
  }

  lemma InRegionsAdd(regions: seq<Region>, r: Region, vp: nat)
    ensures InRegions(regions + [r], vp) <==> InRegions(regions, vp) || r.start <= vp < V.End(r)
  {
    var all := regions + [r];
    assert all[|regions|] == r;
    if InRegions(regions, vp) {
      var i :| 0 <= i < |regions| && regions[i].start <= vp < V.End(regions[i]);
      assert all[i] == regions[i];
    }
  }

  /** What an operation that succeeded was allowed to do. */
  ghost predicate Possible(spaces: map<nat, Bounds>, op: R.Op, out: R.Outcome) {
    match op
    case DefineRegion(a, _, _, _, _) => a in spaces
    case PrepareLoad(a) => a in spaces
    case Copy(a, _, _, _) => a in spaces
    case Sbrk(a, _, _) =>
      a in spaces && out.Moved? && out.oldEnd == spaces[a].heapEnd && spaces[a].heapStart <= out.newEnd
    case _ => true
  }

  lemma AgreesStep(spaces: map<nat, Bounds>, h: History, a: nat, vp: nat)
    requires IsHistory(h) && h.ops != [] && (LastOut(h).Failed? || Possible(spaces, LastOp(h), LastOut(h)))
    requires Agrees(spaces, Before(h), a, vp)
    requires LastOp(h).Copy? ==> Agrees(spaces, Before(h), LastOp(h).a, vp)
    ensures Agrees(R.FlatSpaces(spaces, LastOp(h), LastOut(h)), h, a, vp)
  {
    var op := LastOp(h);
    if op.DefineRegion? && a in spaces {
      InRegionsAdd(spaces[a].regions, V.RegionOf(op.vaddr, op.memsize), vp);
    }
  }

  /** The first n operations of a trace. */
  ghost function Prefix(ops: seq<R.Op>, outs: seq<R.Outcome>, n: nat): (h: History)
    requires n <= |ops| && n <= |outs|
    ensures IsHistory(h) && |h.ops| == n
  {
    History(ops[..n], outs[..n])
  }

  const EMPTY := R.Flat(map[], map[])

  ghost predicate FromBoot(states: seq<State>, memStart: nat, ops: seq<R.Op>, outs: seq<R.Outcome>) {
    R.IsTrace(states, memStart, EMPTY, ops, outs)
  }

  lemma SucceedsLegally(states: seq<State>, memStart: nat, ops: seq<R.Op>, outs: seq<R.Outcome>, i: nat)
    requires FromBoot(states, memStart, ops, outs) && i < |outs| && !outs[i].Failed?
    ensures Possible(R.FlatRun(EMPTY, ops[..i], outs[..i]).spaces, ops[i], outs[i])
  {
    assert R.TraceStep(states, memStart, EMPTY, ops, outs, i);
    assert !R.Fails(states[i], memStart, ops[i]);
  }

  lemma {:induction false} AgreesAlways(states: seq<State>, memStart: nat, ops: seq<R.Op>, outs: seq<R.Outcome>, n: nat,
                                        a: nat, vp: nat)
    requires FromBoot(states, memStart, ops, outs) && n <= |outs|
    ensures Agrees(R.FlatRun(EMPTY, ops[..n], outs[..n]).spaces, Prefix(ops, outs, n), a, vp)
    decreases n
  {
    if n > 0 {
      var h := Prefix(ops, outs, n);
      var f := R.FlatRun(EMPTY, ops[..n - 1], outs[..n - 1]);
      assert ops[..n][..n - 1] == ops[..n - 1] && outs[..n][..n - 1] == outs[..n - 1];
      assert Before(h) == Prefix(ops, outs, n - 1);
      AgreesAlways(states, memStart, ops, outs, n - 1, a, vp);
      if ops[n - 1].Copy? {
        AgreesAlways(states, memStart, ops, outs, n - 1, ops[n - 1].a, vp);
      }
      if !outs[n - 1].Failed? {
        SucceedsLegally(states, memStart, ops, outs, n - 1);
      }
      AgreesStep(f.spaces, h, a, vp);
    }
  }

  /**
   The address check, over every run from boot: an access is EFAULT exactly
   when its address space does not exist, or the page is neither in the stack,
   nor in a segment that was defined, nor in a part of the heap that sbrk has
   added and not taken away.
   */
  lemma EfaultIsExact(states: seq<State>, memStart: nat, ops: seq<R.Op>, outs: seq<R.Outcome>, i: nat)
    requires FromBoot(states, memStart, ops, outs) && i < |outs| && R.IsAccess(ops[i])
    ensures outs[i] == R.Failed(R.Efault) <==> !Usable(Prefix(ops, outs, i), ops[i].a, ops[i].vp)
  {
    var a, vp := ops[i].a, ops[i].vp;
    assert R.TraceStep(states, memStart, EMPTY, ops, outs, i);
    AgreesAlways(states, memStart, ops, outs, i, a, vp);
    assert V.Present(states[i].spaces, a, vp) <==> Usable(Prefix(ops, outs, i), a, vp);
  }

  // ------------------------------------------------------------------
  // What follows for a process

  /** The operation does not change which pages of a exist. */
  predicate Leaves(op: R.Op, out: R.Outcome, a: nat) {
    || out.Failed?
    || match op
       case Create(x, _, _) => x != a
       case DefineRegion(x, _, _, _, _) => x != a
       case PrepareLoad(x) => x != a
       case Copy(_, y, _, _) => y != a
       case Destroy(x, _) => x != a
       case Sbrk(x, _, _) => x != a
       case _ => true
  }

  predicate Quiet(ops: seq<R.Op>, outs: seq<R.Outcome>, i: nat, j: nat, a: nat)
    requires i <= j <= |outs| <= |ops|
  {
    forall k :: i <= k < j ==> Leaves(ops[k], outs[k], a)
  }

  lemma {:induction false} QuietKeeps(ops: seq<R.Op>, outs: seq<R.Outcome>, i: nat, j: nat, a: nat, vp: nat)
    requires i <= j <= |outs| <= |ops| && Quiet(ops, outs, i, j, a)
    ensures Usable(Prefix(ops, outs, j), a, vp) <==> Usable(Prefix(ops, outs, i), a, vp)
    ensures InSegment(Prefix(ops, outs, j), a, vp) <==> InSegment(Prefix(ops, outs, i), a, vp)
    decreases j - i
  {
    if i < j {
      var h := Prefix(ops, outs, j);
      assert Leaves(ops[j - 1], outs[j - 1], a);
      assert ops[..j][..j - 1] == ops[..j - 1] && outs[..j][..j - 1] == outs[..j - 1];
      assert Before(h) == Prefix(ops, outs, j - 1);
      QuietKeeps(ops, outs, i, j - 1, a, vp);
    }
  }

  /** Operation i succeeded, nothing has changed the pages of a since, and
      operation j is an access to page vp of it. */
  ghost predicate AccessAfter(states: seq<State>, memStart: nat, ops: seq<R.Op>, outs: seq<R.Outcome>, i: nat, j: nat,
                              a: nat, vp: nat)
  {
    && FromBoot(states, memStart, ops, outs) && i < j < |outs| && !outs[i].Failed?
    && R.IsAccess(ops[j]) && ops[j].a == a && ops[j].vp == vp && Quiet(ops, outs, i + 1, j, a)
  }

  lemma AccessIs(states: seq<State>, memStart: nat, ops: seq<R.Op>, outs: seq<R.Outcome>, i: nat, j: nat, a: nat,
                 vp: nat)
    requires AccessAfter(states, memStart, ops, outs, i, j, a, vp)
    ensures var h := Prefix(ops, outs, i + 1);
      && (outs[j] == R.Failed(R.Efault) <==> !Usable(h, a, vp))
      && Before(h) == Prefix(ops, outs, i) && LastOp(h) == ops[i] && LastOut(h) == outs[i]
  {
    EfaultIsExact(states, memStart, ops, outs, j);
    QuietKeeps(ops, outs, i + 1, j, a, vp);
    assert ops[..i + 1][..i] == ops[..i] && outs[..i + 1][..i] == outs[..i];
  }

  lemma ActsOnExisting(states: seq<State>, memStart: nat, ops: seq<R.Op>, outs: seq<R.Outcome>, i: nat, a: nat)
    requires FromBoot(states, memStart, ops, outs) && i < |outs| && !outs[i].Failed?
    requires (ops[i].Sbrk? || ops[i].DefineRegion? || ops[i].Copy?) && ops[i].a == a
    ensures Exists(Prefix(ops, outs, i), a)
  {
    SucceedsLegally(states, memStart, ops, outs, i);
    AgreesAlways(states, memStart, ops, outs, i, a, 0);
  }

  /** Pages sbrk has added can be used. */
  lemma GrownIsUsable(states: seq<State>, memStart: nat, ops: seq<R.Op>, outs: seq<R.Outcome>, i: nat, j: nat, a: nat,
                      vp: nat)
    requires AccessAfter(states, memStart, ops, outs, i, j, a, vp) && ops[i].Sbrk? && ops[i].a == a
    requires Grows(outs[i], vp)
    ensures outs[j] != R.Failed(R.Efault)
  {
    AccessIs(states, memStart, ops, outs, i, j, a, vp);
    ActsOnExisting(states, memStart, ops, outs, i, a);
  }

  /** Pages sbrk has taken away cannot, outside the stack and the segments. */
  lemma ShrunkIsGone(states: seq<State>, memStart: nat, ops: seq<R.Op>, outs: seq<R.Outcome>, i: nat, j: nat, a: nat,
                     vp: nat)
    requires AccessAfter(states, memStart, ops, outs, i, j, a, vp) && ops[i].Sbrk? && ops[i].a == a
    requires Shrinks(outs[i], vp) && !InStack(vp) && !InSegment(Prefix(ops, outs, i), a, vp)
    ensures outs[j] == R.Failed(R.Efault)
  {
    AccessIs(states, memStart, ops, outs, i, j, a, vp);
  }

  /** Every page of a segment that was defined can be used. */
  lemma SegmentIsUsable(states: seq<State>, memStart: nat, ops: seq<R.Op>, outs: seq<R.Outcome>, i: nat, j: nat, a: nat,
                        vp: nat)
    requires AccessAfter(states, memStart, ops, outs, i, j, a, vp) && ops[i].DefineRegion? && ops[i].a == a
    requires IsSegmentPage(ops[i].vaddr, ops[i].memsize, vp)
    ensures outs[j] != R.Failed(R.Efault)
  {
    AccessIs(states, memStart, ops, outs, i, j, a, vp);
    ActsOnExisting(states, memStart, ops, outs, i, a);
  }

  /** A new address space has its stack and nothing else. */
  lemma NewSpaceHasStack(states: seq<State>, memStart: nat, ops: seq<R.Op>, outs: seq<R.Outcome>, i: nat, j: nat,
                         a: nat, vp: nat)
    requires AccessAfter(states, memStart, ops, outs, i, j, a, vp) && ops[i].Create? && ops[i].a == a
    ensures outs[j] == R.Failed(R.Efault) <==> !InStack(vp)
  {
    AccessIs(states, memStart, ops, outs, i, j, a, vp);
  }

  /** A child may use exactly the pages its parent could. */
  lemma ChildLikeParent(states: seq<State>, memStart: nat, ops: seq<R.Op>, outs: seq<R.Outcome>, i: nat, j: nat,
                        a: nat, b: nat, vp: nat)
    requires AccessAfter(states, memStart, ops, outs, i, j, b, vp) && ops[i].Copy? && ops[i].a == a && ops[i].b == b
    ensures outs[j] == R.Failed(R.Efault) <==> !Usable(Prefix(ops, outs, i), a, vp)
  {
    AccessIs(states, memStart, ops, outs, i, j, b, vp);
    ActsOnExisting(states, memStart, ops, outs, i, a);
  }

  /** A destroyed address space has no pages. */
  lemma DestroyedHasNone(states: seq<State>, memStart: nat, ops: seq<R.Op>, outs: seq<R.Outcome>, i: nat, j: nat,
                         a: nat, vp: nat)
    requires AccessAfter(states, memStart, ops, outs, i, j, a, vp) && ops[i].Destroy? && ops[i].a == a
    ensures outs[j] == R.Failed(R.Efault)
  {
    AccessIs(states, memStart, ops, outs, i, j, a, vp);
  }

  // ------------------------------------------------------------------
  // Where sbrk starts

  ghost function SpacesAt(ops: seq<R.Op>, outs: seq<R.Outcome>, n: nat): map<nat, Bounds>
    requires n <= |outs| <= |ops|
  {
    R.FlatRun(EMPTY, ops[..n], outs[..n]).spaces
  }

  lemma SpacesNext(ops: seq<R.Op>, outs: seq<R.Outcome>, n: nat)
    requires n < |outs| <= |ops|
    ensures SpacesAt(ops, outs, n + 1) == R.FlatSpaces(SpacesAt(ops, outs, n), ops[n], outs[n])
  {
    assert ops[..n + 1][..n] == ops[..n] && outs[..n + 1][..n] == outs[..n];
  }

  lemma {:induction false} QuietBounds(ops: seq<R.Op>, outs: seq<R.Outcome>, i: nat, j: nat, a: nat)
    requires i <= j <= |outs| <= |ops| && Quiet(ops, outs, i, j, a) && a in SpacesAt(ops, outs, i)
    ensures a in SpacesAt(ops, outs, j) && SpacesAt(ops, outs, j)[a] == SpacesAt(ops, outs, i)[a]
    decreases j - i
  {
    if i < j {
      assert Leaves(ops[j - 1], outs[j - 1], a);
      QuietBounds(ops, outs, i, j - 1, a);
      SpacesNext(ops, outs, j - 1);
    }
  }

  /** sbrk of a succeeds in operation j, and nothing has changed the pages of a
      since operation i. */
  ghost predicate SbrkAfter(states: seq<State>, memStart: nat, ops: seq<R.Op>, outs: seq<R.Outcome>, i: nat, j: nat,
                            a: nat)
  {
    && FromBoot(states, memStart, ops, outs) && i < j < |outs| && !outs[i].Failed? && outs[j].Moved?
    && ops[j].Sbrk? && ops[j].a == a && Quiet(ops, outs, i + 1, j, a)
  }

  /** Each sbrk starts where the one before it ended. */
  lemma SbrkContinues(states: seq<State>, memStart: nat, ops: seq<R.Op>, outs: seq<R.Outcome>, i: nat, j: nat, a: nat)
    requires SbrkAfter(states, memStart, ops, outs, i, j, a) && ops[i].Sbrk? && ops[i].a == a
    ensures outs[i].Moved? && outs[j].oldEnd == outs[i].newEnd
    ensures outs[j].newEnd * V.PAGE_SIZE == outs[j].oldEnd * V.PAGE_SIZE + ops[j].increment
  {
    SucceedsLegally(states, memStart, ops, outs, i);
    SucceedsLegally(states, memStart, ops, outs, j);
    SpacesNext(ops, outs, i);
    QuietBounds(ops, outs, i + 1, j, a);
    assert R.TraceStep(states, memStart, EMPTY, ops, outs, j);
  }

  /** The first one starts after every segment that was defined before the heap
      was set up. */
  lemma HeapAfterSegments(states: seq<State>, memStart: nat, ops: seq<R.Op>, outs: seq<R.Outcome>, i: nat, j: nat,
                          a: nat, vp: nat)
    requires SbrkAfter(states, memStart, ops, outs, i, j, a) && ops[i].PrepareLoad? && ops[i].a == a
    ensures InSegment(Prefix(ops, outs, i), a, vp) ==> vp < outs[j].oldEnd
  {
    SucceedsLegally(states, memStart, ops, outs, i);
    SucceedsLegally(states, memStart, ops, outs, j);
    SpacesNext(ops, outs, i);
    QuietBounds(ops, outs, i + 1, j, a);
    AgreesAlways(states, memStart, ops, outs, i, a, vp);
  }
}
