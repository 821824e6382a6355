/**
 The kernel heap allocator of kern/vm/kmalloc.c: subpage blocks with free lists
 kept inside the pages, whole pages for large requests, and page references
 kept in pages of their own. It sits on the contiguous coremap allocator.
 */
module Kheap {

  import opened KernLib
  import opened Heap
  import P = Pagerefs
  import C = Coremap

  const PAGEREF_SIZE := 16

  /** Address of reference j on the page of references f. */
  function RefAddress(f: nat, j: nat): nat { f * PAGE_SIZE + j * PAGEREF_SIZE }

  /** blocktype: the smallest block that fits. */
  method BlockType(size: nat) returns (t: nat)
    requires size <= LARGEST_SUBPAGE_SIZE
    ensures t < NSIZES && size <= Size(t) && forall u :: 0 <= u < t ==> Size(u) < size
  {
    t := 0;
    while size > SIZES[t]
      invariant t < NSIZES && forall u :: 0 <= u < t ==> Size(u) < size
      decreases NSIZES - t
    {
      t := t + 1;
    }
  }

  /** The block type a small request is served from. */
  function TypeFor(size: nat): (t: nat)
    requires size <= LARGEST_SUBPAGE_SIZE
    ensures t < NSIZES && size <= Size(t) && forall u :: 0 <= u < t ==> Size(u) < size
  {
    if size <= 16 then 0 else if size <= 32 then 1 else if size <= 64 then 2 else if size <= 128 then 3
    else if size <= 256 then 4 else if size <= 512 then 5 else if size <= 1024 then 6 else 7
  }

  /** No page of the type has a free block. */
  ghost predicate NoBlock(refs: map<nat, PageRef>, t: nat) {
    forall id :: id in refs && refs[id].blk == t ==> refs[id].nfree == 0
  }

  /** The roots as values: the flags of all references, how many of each root are
      in use, and the frame of each root's page, 0 when there is none. */
  datatype RootState = RootState(flags: seq<bool>, numinuse: seq<nat>, pages: seq<nat>)

  /** The next reference belongs to a root that has no page yet. */
  ghost predicate NextIsBare(r: RootState) {
    exists w: nat, j: nat :: P.NextRef(r.flags, w, j) && w < |r.pages| && r.pages[w] == 0
  }

  /** There is a frame for the new page but none for its reference: the
      reference stays marked in a root without a page. */
  ghost predicate LosesRef(free: nat, r: RootState) { free == 1 && NextIsBare(r) }

  /** When no new page of blocks can be made, free frames being left. */
  ghost predicate NoNewPage(free: nat, r: RootState) { free == 0 || P.AllUsed(r.flags) || LosesRef(free, r) }

  /** All that decides what the allocator can do: the heap, the frames and the
      references. */
  datatype Machine = Machine(h: Heap, frames: seq<C.Frame>, memStart: nat, roots: RootState)

  ghost function FreeOf(m: Machine): nat { C.FreeCount(m.frames, m.memStart, |m.frames|) }

  /** When a request for less than half a page gets NULL. */
  ghost predicate SmallFails(m: Machine, size: nat)
    requires size <= LARGEST_SUBPAGE_SIZE
  {
    NoBlock(m.h.refs, TypeFor(size)) && NoNewPage(FreeOf(m), m.roots)
  }

  /** When it also leaves a reference marked in a root without a page. */
  ghost predicate SmallLoses(m: Machine, size: nat)
    requires size <= LARGEST_SUBPAGE_SIZE
  {
    NoBlock(m.h.refs, TypeFor(size)) && LosesRef(FreeOf(m), m.roots)
  }

  /** When kmalloc returns NULL. */
  ghost predicate MallocFails(m: Machine, size: nat) {
    if size < LARGEST_SUBPAGE_SIZE then SmallFails(m, size)
    else size > 0x1_0000_0000 - PAGE_SIZE || C.NoRun(m.frames, m.memStart, DivRoundUp(size, PAGE_SIZE))
  }

  ghost predicate MallocLoses(m: Machine, size: nat) { size < LARGEST_SUBPAGE_SIZE && SmallLoses(m, size) }

  /** A request that has to make a page, and gets a frame for it. */
  ghost predicate MakesPage(m: Machine, size: nat) {
    size < LARGEST_SUBPAGE_SIZE && NoBlock(m.h.refs, TypeFor(size)) && FreeOf(m) > 0
  }

  /** Frames that go to pages of references when one is taken with free frames
      left. */
  ghost function RefFrames(r: RootState, free: nat): nat { if NextIsBare(r) && free > 0 then 1 else 0 }

  /** The frames kmalloc takes. */
  ghost function FramesTaken(m: Machine, size: nat): nat {
    if MallocFails(m, size) then 0
    else if size >= LARGEST_SUBPAGE_SIZE then DivRoundUp(size, PAGE_SIZE)
    else if MakesPage(m, size) then 1 + RefFrames(m.roots, FreeOf(m) - 1)
    else 0
  }

  /** Taking reference j of root w, which gets a page if it has none and a frame
      is free. */
  ghost predicate TookAt(r: RootState, r2: RootState, free: nat, w: nat, j: nat) {
    && P.NextRef(r.flags, w, j) && w < |r.numinuse| && w < |r.pages|
    && r2.flags == r.flags[w * P.NPAGEREFS_PER_PAGE + j := true]
    && r2.numinuse == r.numinuse[w := r.numinuse[w] + 1]
    && |r2.pages| == |r.pages| && r2.pages == r.pages[w := r2.pages[w]]
    && (if r.pages[w] == 0 && free > 0 then r2.pages[w] > 0 else r2.pages[w] == r.pages[w])
  }

  /** What allocpageref does to the roots. */
  ghost predicate TookRef(r: RootState, r2: RootState, free: nat) {
    if P.AllUsed(r.flags) then r2 == r else exists w, j :: TookAt(r, r2, free, w, j)
  }

  /** What kmalloc does to the roots. */
  ghost predicate RootsStep(m: Machine, r2: RootState, size: nat) {
    if MakesPage(m, size) then TookRef(m.roots, r2, FreeOf(m) - 1) else r2 == m.roots
  }

  /** No reference has been taken. */
  ghost predicate AtBoot(r: RootState) {
    && |r.flags| == P.NUM_PAGEREFPAGES * P.NPAGEREFS_PER_PAGE && |r.numinuse| == |r.pages| == P.NUM_PAGEREFPAGES
    && (forall i :: 0 <= i < |r.flags| ==> !r.flags[i])
    && (forall w :: 0 <= w < |r.pages| ==> r.numinuse[w] == 0 && r.pages[w] == 0)
  }

  /** The same by block type: the frames a block of type t takes. */
  ghost function PageFrames(m: Machine, t: nat): nat {
    if NoBlock(m.h.refs, t) && !NoNewPage(FreeOf(m), m.roots) then 1 + RefFrames(m.roots, FreeOf(m) - 1) else 0
  }

  ghost predicate PageRoots(m: Machine, r2: RootState, t: nat) {
    if NoBlock(m.h.refs, t) && FreeOf(m) > 0 then TookRef(m.roots, r2, FreeOf(m) - 1) else r2 == m.roots
  }

  /** Of all pages at most that of id is wholly free. */
  ghost predicate NoneWholeBut(refs: map<nat, PageRef>, id: nat) {
    forall id2 :: id2 in refs && id2 != id && refs[id2].blk < NSIZES ==> refs[id2].nfree < Capacity(refs[id2].blk)
  }

  predicate IsWhole(p: PageRef) { p.blk < NSIZES && p.nfree == Capacity(p.blk) }

  /** One block of the page has been taken. */
  predicate IsFirst(p: PageRef) { p.blk < NSIZES && p.nfree + 1 == Capacity(p.blk) }

  // ------------------------------------------------------------------
  // What freepageref asserts

  /** The root has references in use but no page. */
  ghost predicate Bare(r: RootState, v: nat) {
    v < |r.pages| && v < |r.numinuse| && r.pages[v] == 0 && r.numinuse[v] > 0
  }

  /** On its way to root w freepageref meets such a root, and its assertion
      fails. */
  ghost predicate BlockedBefore(r: RootState, w: nat) { exists v: nat :: v < w && Bare(r, v) }

  predicate InRoot(r: RootState, w: nat, id: nat) {
    w < |r.pages| && r.pages[w] > 0 && r.pages[w] * PAGE_SIZE <= id < (r.pages[w] + 1) * PAGE_SIZE
  }

  ghost predicate RefBlocked(r: RootState, id: nat) { exists w: nat :: InRoot(r, w, id) && BlockedBefore(r, w) }

  /** Freeing the block makes its page wholly free. */
  ghost predicate EmptiesPage(h: Heap, a: nat) {
    && a in h.blocks && h.blocks[a].Live? && h.blocks[a].id in h.refs
    && IsFirst(h.refs[h.blocks[a].id])
  }

  /** When kfree fails the assertion. */
  ghost predicate FreePanics(m: Machine, a: nat) { EmptiesPage(m.h, a) && RefBlocked(m.roots, m.h.blocks[a].id) }

  /** The frames kfree gives back. */
  ghost function FramesGiven(m: Machine, a: nat): nat {
    if a in m.h.blocks && m.h.blocks[a].Big? then m.h.blocks[a].npages else if EmptiesPage(m.h, a) then 1 else 0
  }

  /** What kfree of block a does: it leaves the live blocks, its page goes exactly
      when it becomes wholly free, and no frame is lost. */
  ghost predicate FreedBlock(m: Machine, m2: Machine, a: nat) {
    && m2.memStart == m.memStart && |m2.frames| == |m.frames|
    && LiveBlocks(m2.h) == LiveBlocks(m.h) - {a} && NoneWhole(m2.h)
    && m2.h.refs.Keys == KeptRefs(m.h, a)
    && SameShare(m.h.owner, m.frames, {}, m2.h.owner, m2.frames, {})
    && FreeOf(m2) == FreeOf(m) + FramesGiven(m, a) && RootsFreed(m, m2.roots, a)
  }

  /** Block a of the page of id is free again. */
  ghost predicate PutTo(m: Machine, m2: Machine, id: nat, a: nat) {
    && LiveBlocks(m2.h) == LiveBlocks(m.h) - {a} && m2.h.owner == m.h.owner
    && m2.memStart == m.memStart && m2.frames == m.frames && m2.roots == m.roots
    && id in m.h.refs && m2.h.refs.Keys == m.h.refs.Keys
    && m2.h.refs[id].blk == m.h.refs[id].blk < NSIZES
    && m2.h.refs[id].nfree == m.h.refs[id].nfree + 1 <= Capacity(m.h.refs[id].blk)
    && forall id2 :: id2 in m.h.refs && id2 != id ==> m2.h.refs[id2] == m.h.refs[id2]
  }

  /** The page of id is gone if it was wholly free. */
  ghost predicate Released(m: Machine, m2: Machine, id: nat)
    requires id in m.h.refs
  {
    && m2.memStart == m.memStart && |m2.frames| == |m.frames|
    && LiveBlocks(m2.h) == LiveBlocks(m.h)
    && m2.h.refs == (if IsWhole(m.h.refs[id]) then m.h.refs - {id} else m.h.refs)
    && SameShare(m.h.owner, m.frames, {}, m2.h.owner, m2.frames, {})
    && FreeOf(m2) == FreeOf(m) + (if IsWhole(m.h.refs[id]) then 1 else 0)
    && (if IsWhole(m.h.refs[id]) then FreedRef(m.roots, m2.roots, id) else m2.roots == m.roots)
  }

  lemma FreedBlockFrom(m: Machine, m1: Machine, m2: Machine, id: nat, a: nat)
    requires a in m.h.blocks && m.h.blocks[a].Live? && m.h.blocks[a].id == id && NoneWhole(m.h)
    requires PutTo(m, m1, id, a) && Released(m1, m2, id)
    ensures FreedBlock(m, m2, a)
  {
    assert EmptiesPage(m.h, a) <==> IsWhole(m1.h.refs[id]);
  }

  /** What freepageref does to the roots. */
  ghost predicate FreedRef(r: RootState, r2: RootState, id: nat) {
    exists w: nat, j: nat :: FreedAt(r, r2, id, w, j)
  }

  ghost predicate FreedAt(r: RootState, r2: RootState, id: nat, w: nat, j: nat) {
    && IsRef(r.flags, r.pages, w, j, id) && w < |r.numinuse| && r.numinuse[w] > 0
    && r2.flags == r.flags[w * P.NPAGEREFS_PER_PAGE + j := false]
    && r2.numinuse == r.numinuse[w := r.numinuse[w] - 1] && r2.pages == r.pages
  }

  /** What kfree does to the roots. */
  ghost predicate RootsFreed(m: Machine, r2: RootState, a: nat) {
    if EmptiesPage(m.h, a) then FreedRef(m.roots, r2, m.h.blocks[a].id) else r2 == m.roots
  }

  // ------------------------------------------------------------------
  // When it holds

  /** Roots get their pages in order. */
  ghost predicate InOrder(r: RootState) {
    forall v, w :: 0 <= v < w < |r.pages| && r.pages[w] > 0 ==> r.pages[v] > 0
  }

  /** A root that was passed over is full. */
  ghost predicate Filled(r: RootState) {
    && |r.numinuse| == |r.pages| == P.NUM_PAGEREFPAGES
    && forall v, w :: 0 <= v < w < |r.pages| && r.pages[w] > 0 && r.pages[v] == 0 ==>
      r.numinuse[v] == P.NPAGEREFS_PER_PAGE
  }

  /** No reference is blocked exactly while roots have got their pages in
      order. */
  lemma ClearInOrder(r: RootState)
    requires Filled(r)
    ensures InOrder(r) <==> forall w: nat :: w < |r.pages| && r.pages[w] > 0 ==> !BlockedBefore(r, w)
  {
    if !InOrder(r) {
      var v, w :| 0 <= v < w < |r.pages| && r.pages[w] > 0 && r.pages[v] == 0;
      assert Bare(r, v) && BlockedBefore(r, w);
    }
  }

  lemma InOrderIsClear(r: RootState, id: nat)
    requires Filled(r) && InOrder(r)
    ensures !RefBlocked(r, id)
  {
    ClearInOrder(r);
  }

  /** The request gets a page for a root although one before it has none. */
  ghost predicate Breaks(m: Machine, size: nat) {
    MakesPage(m, size) && FreeOf(m) >= 2 && exists w: nat, j: nat :: PassesOver(m.roots, w, j)
  }

  ghost predicate PassesOver(r: RootState, w: nat, j: nat) {
    && P.NextRef(r.flags, w, j) && w < |r.pages| && r.pages[w] == 0
    && exists v :: 0 <= v < w && r.pages[v] == 0
  }

  /** All references before the first free one are in use. */
  lemma FullBefore(r: RootState, w: nat, j: nat, v: nat)
    requires P.Counted(r.flags, r.numinuse) && P.NextRef(r.flags, w, j)
    ensures v < w ==> r.numinuse[v] == P.NPAGEREFS_PER_PAGE
    ensures r.numinuse[w] < P.NPAGEREFS_PER_PAGE
  {
    var n := P.NPAGEREFS_PER_PAGE;
    if v < w {
      P.CountFull(r.flags, v * n, (v + 1) * n);
    }
    P.CountFull(r.flags, w * n, (w + 1) * n);
    assert !r.flags[w * n + j];
  }

  /** There is only one first free reference. */
  lemma TookIsAt(r: RootState, r2: RootState, free: nat, w: nat, j: nat)
    requires TookRef(r, r2, free) && P.NextRef(r.flags, w, j)
    ensures TookAt(r, r2, free, w, j)
  {
    NextIsUnique(r, w, j);
    var w2: nat, j2: nat :| TookAt(r, r2, free, w2, j2);
    NextIsOne(r.flags, w, j, w2, j2);
  }

  lemma NextIsOne(flags: seq<bool>, w: nat, j: nat, w2: nat, j2: nat)
    requires P.NextRef(flags, w, j) && P.NextRef(flags, w2, j2)
    ensures w == w2 && j == j2
  {
    var i, i2 := w * P.NPAGEREFS_PER_PAGE + j, w2 * P.NPAGEREFS_PER_PAGE + j2;
    assert !flags[i] && !flags[i2];
  }

  /** kmalloc keeps the order of pages except exactly when it passes over a root
      that has lost all its references. */
  lemma OrderStep(m: Machine, r2: RootState, size: nat)
    requires RootsStep(m, r2, size) && P.Counted(m.roots.flags, m.roots.numinuse) && Filled(m.roots)
    ensures Filled(r2) && (InOrder(r2) <==> InOrder(m.roots) && !Breaks(m, size))
  {
    var r := m.roots;
    if MakesPage(m, size) && !P.AllUsed(r.flags) {
      var w: nat, j: nat :| TookAt(r, r2, FreeOf(m) - 1, w, j);
      forall v: nat ensures v < w ==> r.numinuse[v] == P.NPAGEREFS_PER_PAGE {
        FullBefore(r, w, j, v);
      }
      FullBefore(r, w, j, w);
      if Breaks(m, size) {
        var w2: nat, j2: nat :| PassesOver(r, w2, j2);
        NextIsOne(r.flags, w, j, w2, j2);
        var v :| 0 <= v < w && r.pages[v] == 0;
        assert r2.pages[v] == 0 && r2.pages[w] > 0;
      } else if r.pages[w] == 0 && FreeOf(m) >= 2 {
        assert !PassesOver(r, w, j);
        assert forall x :: w < x < |r.pages| ==> r.pages[x] == 0;
        assert forall v :: 0 <= v < w ==> r.pages[v] > 0;
      } else {
        assert r2.pages == r.pages;
      }
    }
  }

  lemma FreeKeepsOrder(r: RootState, r2: RootState, id: nat)
    requires FreedRef(r, r2, id) && Filled(r)
    ensures Filled(r2) && (InOrder(r2) <==> InOrder(r))
  {
    var w: nat, j: nat :| FreedAt(r, r2, id, w, j);
  }

  /** At most so many references of any root without a page are in use. */
  ghost predicate AtMost(r: RootState, losses: nat) {
    && |r.numinuse| == |r.pages|
    && forall v :: 0 <= v < |r.pages| && r.pages[v] == 0 ==> r.numinuse[v] <= losses
  }

  /** Only losses use up references of a root without a page. */
  lemma LossStep(m: Machine, r2: RootState, size: nat, losses: nat)
    requires RootsStep(m, r2, size) && AtMost(m.roots, losses)
    ensures AtMost(r2, if MallocLoses(m, size) then losses + 1 else losses)
  {
    var r := m.roots;
    if MakesPage(m, size) && !P.AllUsed(r.flags) {
      var w: nat, j: nat :| TookAt(r, r2, FreeOf(m) - 1, w, j);
      NextIsUnique(r, w, j);
    }
  }

  lemma FreeKeepsBound(r: RootState, r2: RootState, id: nat, losses: nat)
    requires FreedRef(r, r2, id) && AtMost(r, losses)
    ensures AtMost(r2, losses)
  {
    var w: nat, j: nat :| FreedAt(r, r2, id, w, j);
  }

  /** A root is passed over only after 256 losses. */
  lemma BreakNeedsLosses(m: Machine, size: nat, losses: nat)
    requires Breaks(m, size) && P.Counted(m.roots.flags, m.roots.numinuse) && AtMost(m.roots, losses)
    ensures losses >= P.NPAGEREFS_PER_PAGE
  {
    var w: nat, j: nat :| PassesOver(m.roots, w, j);
    var v :| 0 <= v < w && m.roots.pages[v] == 0;
    FullBefore(m.roots, w, j, v);
  }

  lemma NextIsUnique(r: RootState, w: nat, j: nat)
    requires P.NextRef(r.flags, w, j)
    ensures !P.AllUsed(r.flags) && (NextIsBare(r) <==> w < |r.pages| && r.pages[w] == 0)
  {
    if NextIsBare(r) {
      var w2: nat, j2: nat :| P.NextRef(r.flags, w2, j2) && w2 < |r.pages| && r.pages[w2] == 0;
      var i, i2 := w * P.NPAGEREFS_PER_PAGE + j, w2 * P.NPAGEREFS_PER_PAGE + j2;
      assert !r.flags[i] && !r.flags[i2];
    }
  }

  /** When no reference could be had, no frame went to one. */
  lemma NoneGained(r: RootState, free: nat, lost: bool)
    requires (lost && free == 0) || P.AllUsed(r.flags)
    ensures RefFrames(r, free) == 0
  {
    if P.AllUsed(r.flags) {
      NoneIsNext(r);
    }
  }

  lemma NoneIsNext(r: RootState)
    requires P.AllUsed(r.flags)
    ensures !NextIsBare(r)
  {
  }

  /** kmalloc's page count; the sum wraps for sizes near 2^32, and then the
      request is for no pages at all. */
  method PagesFor(size: nat) returns (npages: nat)
    requires 0 < size < 0x1_0000_0000
    ensures size > 0x1_0000_0000 - PAGE_SIZE ==> npages == 0
    ensures size <= 0x1_0000_0000 - PAGE_SIZE ==>
      npages == DivRoundUp(size, PAGE_SIZE) && 0 < npages && size <= npages * PAGE_SIZE
  {
    npages := (size + PAGE_SIZE - 1) % 0x1_0000_0000 / PAGE_SIZE;
  }

  // ------------------------------------------------------------------
  // References and their flags

  /** id is reference j of root w, and it is marked in use. */
  ghost predicate IsRef(flags: seq<bool>, pages: seq<nat>, w: nat, j: nat, id: nat) {
    && |pages| == P.NUM_PAGEREFPAGES && |flags| == P.NUM_PAGEREFPAGES * P.NPAGEREFS_PER_PAGE
    && w < P.NUM_PAGEREFPAGES && j < P.NPAGEREFS_PER_PAGE
    && 0 < pages[w] && id == RefAddress(pages[w], j) && flags[w * P.NPAGEREFS_PER_PAGE + j]
  }

  ghost predicate Marked(flags: seq<bool>, pages: seq<nat>, id: nat) {
    exists w: nat, j: nat :: IsRef(flags, pages, w, j, id)
  }

  /** Every reference on the lists is marked, on a root's page that the heap owns. */
  ghost predicate RefsOk(flags: seq<bool>, pages: seq<nat>, refs: map<nat, PageRef>, owner: map<nat, Owner>) {
    && |pages| == P.NUM_PAGEREFPAGES && |flags| == P.NUM_PAGEREFPAGES * P.NPAGEREFS_PER_PAGE
    && (forall w :: 0 <= w < |pages| && pages[w] > 0 ==> pages[w] in owner && owner[pages[w]] == RefPage(w))
    && (forall id {:trigger Marked(flags, pages, id)} :: id in refs ==> Marked(flags, pages, id))
  }

  /** A reference stays marked when more flags are set and more pages added. */
  lemma StillMarked(flags: seq<bool>, pages: seq<nat>, flags2: seq<bool>, pages2: seq<nat>, id: nat)
    requires Marked(flags, pages, id) && |pages2| == |pages| && |flags2| == |flags|
    requires forall w :: 0 <= w < |pages| && pages[w] > 0 ==> pages2[w] == pages[w]
    requires forall i :: 0 <= i < |flags| && flags[i] ==> flags2[i]
    ensures Marked(flags2, pages2, id)
  {
    var w: nat, j: nat :| IsRef(flags, pages, w, j, id);
    assert IsRef(flags2, pages2, w, j, id);
  }

  /** A reference on the lists has its own flag set. */
  lemma UsedIsMarked(flags: seq<bool>, pages: seq<nat>, refs: map<nat, PageRef>, owner: map<nat, Owner>, w: nat, j: nat)
    requires RefsOk(flags, pages, refs, owner) && w < P.NUM_PAGEREFPAGES && j < P.NPAGEREFS_PER_PAGE && pages[w] > 0
    ensures RefAddress(pages[w], j) in refs ==> flags[w * P.NPAGEREFS_PER_PAGE + j]
  {
    var id := RefAddress(pages[w], j);
    if id in refs {
      assert Marked(flags, pages, id);
      var w2: nat, j2: nat :| IsRef(flags, pages, w2, j2, id);
      assert owner[pages[w]] == RefPage(w) && owner[pages[w2]] == RefPage(w2);
    }
  }

  /** References lie on pages the heap owns. */
  lemma RefPageOwned(flags: seq<bool>, pages: seq<nat>, refs: map<nat, PageRef>, owner: map<nat, Owner>, f: nat, j: nat)
    requires RefsOk(flags, pages, refs, owner) && j < P.NPAGEREFS_PER_PAGE
    ensures RefAddress(f, j) in refs ==> f in owner
  {
    if RefAddress(f, j) in refs {
      assert Marked(flags, pages, RefAddress(f, j));
      var w2: nat, j2: nat :| IsRef(flags, pages, w2, j2, RefAddress(f, j));
    }
  }

  lemma RefsMark(flags: seq<bool>, pages: seq<nat>, refs: map<nat, PageRef>, owner: map<nat, Owner>, i: nat)
    requires RefsOk(flags, pages, refs, owner) && i < |flags|
    ensures RefsOk(flags[i := true], pages, refs, owner)
  {
    forall id | id in refs ensures Marked(flags[i := true], pages, id) {
      StillMarked(flags, pages, flags[i := true], pages, id);
    }
  }

  lemma RefsNewPage(flags: seq<bool>, pages: seq<nat>, refs: map<nat, PageRef>, owner: map<nat, Owner>, w: nat, f: nat)
    requires RefsOk(flags, pages, refs, owner) && w < |pages| && pages[w] == 0 && f !in owner
    ensures RefsOk(flags, pages[w := f], refs, owner[f := RefPage(w)])
  {
    forall id | id in refs ensures Marked(flags, pages[w := f], id) {
      StillMarked(flags, pages, flags, pages[w := f], id);
    }
  }

  /** A reference taken off the lists may be unmarked. */
  lemma RefsUnmark(flags: seq<bool>, pages: seq<nat>, refs: map<nat, PageRef>, owner: map<nat, Owner>,
                   w: nat, j: nat, id: nat, f: nat)
    requires RefsOk(flags, pages, refs, owner) && IsRef(flags, pages, w, j, id)
    requires f in owner ==> !owner[f].RefPage?
    ensures RefsOk(flags[w * P.NPAGEREFS_PER_PAGE + j := false], pages, refs - {id}, owner - {f})
  {
    var flags2 := flags[w * P.NPAGEREFS_PER_PAGE + j := false];
    forall id2 | id2 in refs && id2 != id ensures Marked(flags2, pages, id2) {
      assert Marked(flags, pages, id2);
      var w2: nat, j2: nat :| IsRef(flags, pages, w2, j2, id2);
      assert IsRef(flags2, pages, w2, j2, id2);
    }
  }

  lemma RefsSame(flags: seq<bool>, pages: seq<nat>, refs: map<nat, PageRef>, refs2: map<nat, PageRef>,
                 owner: map<nat, Owner>)
    requires RefsOk(flags, pages, refs, owner) && refs2.Keys == refs.Keys
    ensures RefsOk(flags, pages, refs2, owner)
  {
  }

  lemma RefsLess(flags: seq<bool>, pages: seq<nat>, refs: map<nat, PageRef>, owner: map<nat, Owner>, f: nat)
    requires RefsOk(flags, pages, refs, owner) && f in owner && !owner[f].RefPage?
    ensures RefsOk(flags, pages, refs, owner - {f})
  {
  }

  /** A marked reference may come into use. */
  lemma RefsUse(flags: seq<bool>, pages: seq<nat>, refs: map<nat, PageRef>, owner: map<nat, Owner>, id: nat,
                r: PageRef, f: nat)
    requires RefsOk(flags, pages, refs, owner) && Marked(flags, pages, id) && f !in owner
    ensures RefsOk(flags, pages, refs[id := r], owner[f := HeapPage(id)])
  {
  }

  /** The references left after block a is freed. */
  ghost function KeptRefs(h: Heap, a: nat): set<nat> {
    if EmptiesPage(h, a) then h.refs.Keys - {h.blocks[a].id} else h.refs.Keys
  }

  class Kheap {
    const cm: C.Coremap
    const roots: P.Roots
    /** Frame of each root's page of references, 0 when there is none. */
    var pages: seq<nat>
    var refs: map<nat, PageRef>
    var words: map<nat, nat>
    var sizebases: seq<seq<nat>>
    var allbase: seq<nat>
    ghost var free: map<nat, seq<nat>>
    ghost var blocks: map<nat, Block>
    ghost var owner: map<nat, Owner>

    ghost function View(): Heap
      reads this
    {
      Heap(refs, words, sizebases, allbase, free, blocks, owner)
    }

    /** The number of free frames. */
    ghost function FreeFrames(): nat
      reads cm.frames
    {
      C.FreeCount(cm.frames[..], cm.memStart, cm.frames.Length)
    }

    ghost function Roots(): RootState
      reads this, roots, roots.inuse
    {
      RootState(roots.inuse[..], roots.numinuse, pages)
    }

    ghost function Now(): Machine
      reads this, cm.frames, roots, roots.inuse
    {
      Machine(View(), cm.frames[..], cm.memStart, Roots())
    }

    ghost predicate RootsOk()
      reads this, roots, roots.inuse
    {
      roots.Valid() && RefsOk(roots.inuse[..], pages, refs, owner)
    }

    ghost predicate Apart()
      reads this
    {
      (cm.frames as object) != (roots.inuse as object) && (cm as object) != (roots as object)
    }

    /** Valid except that a page may be wholly free. */
    ghost predicate Consistent()
      reads this, cm, cm.frames, roots, roots.inuse
    {
      Apart() && cm.Valid() && RootsOk() && Inv(View()) && Owned(View(), cm.frames[..], cm.memStart)
    }

    ghost predicate Valid()
      reads this, cm, cm.frames, roots, roots.inuse
    {
      Consistent() && NoneWhole(View())
    }

    constructor (cm: C.Coremap)
      requires cm.Valid()
      ensures Valid() && this.cm == cm && fresh(roots) && fresh(roots.inuse)
      ensures LiveBlocks(View()) == map[] && refs == map[] && AtBoot(Roots())
    {
      this.cm := cm;
      roots := new P.Roots();
      pages := seq(P.NUM_PAGEREFPAGES, w => 0);
      refs, words, free, blocks, owner := map[], map[], map[], map[], map[];
      sizebases, allbase := seq(NSIZES, t => []), [];
    }

    // ----------------------------------------------------------------
    // Allocation

    /** A run of frames for a large block; 0 when there is none. */
    method GetPages(n: nat) returns (f: nat)
      requires Consistent()
      modifies cm`count, cm.frames
      ensures Consistent() && (f == 0 <==> n == 0 || C.NoRun(old(cm.frames[..]), cm.memStart, n))
      ensures f == 0 ==> cm.frames[..] == old(cm.frames[..])
      ensures f > 0 ==> cm.memStart <= f && f !in owner && C.IsChunk(cm.frames[..], f, n)
      ensures f > 0 ==> C.FreeRun(old(cm.frames[..]), f, n) && cm.frames[..] == C.Claimed(old(cm.frames[..]), f, n)
      ensures f > 0 ==> FreeFrames() == old(FreeFrames()) - n
      ensures Roots() == old(Roots())
    {
      ghost var frames := cm.frames[..];
      cm.CountFree();
      f := cm.AllocateKernel(n);
      cm.CountFree();
      if f > 0 {
        OwnedClaim(View(), frames, cm.memStart, f, n);
      }
    }

    /** A frame for a page; 0 when there is none. held and more are frames in hand,
        held a chunk of one among them. */
    method GetPage(ghost held: nat, ghost more: set<nat>) returns (f: nat)
      requires Consistent()
      modifies cm`count, cm.frames
      ensures Consistent() && (f == 0 <==> old(FreeFrames()) == 0)
      ensures f == 0 ==> cm.frames[..] == old(cm.frames[..])
      ensures f > 0 ==> cm.memStart <= f && f !in owner && C.IsChunk(cm.frames[..], f, 1)
      ensures FreeFrames() == (if f > 0 then old(FreeFrames()) - 1 else 0) && Roots() == old(Roots())
      ensures C.IsChunk(old(cm.frames[..]), held, 1) ==> C.IsChunk(cm.frames[..], held, 1) && (f > 0 ==> f != held)
      ensures f > 0 ==> SameShare(owner, old(cm.frames[..]), more, owner, cm.frames[..], more + Range(f, 1))
    {
      ghost var frames := cm.frames[..];
      C.NoRunOfOne(frames, cm.memStart);
      f := GetPages(1);
      if f > 0 {
        ShareClaim(owner, frames, more, f, 1);
        if C.IsChunk(frames, held, 1) {
          C.ClaimSpares(frames, f, 1, held, 1);
        }
      }
    }

    /** Gives back a chunk the heap does not use. */
    method PutPages(f: nat, ghost n: nat)
      requires Consistent() && cm.memStart <= f && f !in owner && C.IsChunk(cm.frames[..], f, n)
      modifies cm`count, cm.frames
      ensures Consistent() && cm.frames[..] == C.Freed(old(cm.frames[..]), f, n)
      ensures FreeFrames() == old(FreeFrames()) + n
      ensures Roots() == old(Roots())
    {
      cm.CountFree();
      OwnedFree(View(), cm.frames[..], cm.memStart, f, n);
      cm.FreeKernel(f);
      cm.CountFree();
    }

    /** allocpagerefpage for root w. */
    method AllocPagerefPage(w: nat, ghost held: nat) returns (ok: bool)
      requires Consistent() && w < P.NUM_PAGEREFPAGES && pages[w] == 0
      requires held !in owner && C.IsChunk(cm.frames[..], held, 1)
      modifies this`pages, this`owner, cm`count, cm.frames
      ensures Consistent() && (ok <==> old(FreeFrames()) > 0)
      ensures FreeFrames() == if ok then old(FreeFrames()) - 1 else 0
      ensures SameShare(old(owner), old(cm.frames[..]), Range(held, 1), owner, cm.frames[..], Range(held, 1))
      ensures Roots() == old(Roots()).(pages := pages)
      ensures ok ==> pages == old(pages)[w := pages[w]] && pages[w] > 0
      ensures !ok ==> pages == old(pages) && owner == old(owner)
      ensures held !in owner && C.IsChunk(cm.frames[..], held, 1)
      ensures ok ==> forall j :: 0 <= j < P.NPAGEREFS_PER_PAGE ==> RefAddress(pages[w], j) !in refs
    {
      ghost var frames := cm.frames[..];
      var f := GetPage(held, Range(held, 1));
      if f == 0 {
        ShareSame(owner, frames, Range(held, 1));
        return false;
      }
      ShareAdd(owner, cm.frames[..], Range(held, 1), f, RefPage(w));
      ghost var flags, owner0 := roots.inuse[..], owner;
      AddRefPageKeeps(View(), f, w);
      forall j: nat | j < P.NPAGEREFS_PER_PAGE ensures RefAddress(f, j) !in refs {
        RefPageOwned(flags, pages, refs, owner, f, j);
      }
      RefsNewPage(flags, pages, refs, owner, w, f);
      OwnedAdd(View(), AddRefPage(View(), f, w), cm.frames[..], cm.memStart, f);
      pages := pages[w := f];
      owner := owner[f := RefPage(w)];
      ShareTrans(owner0, frames, Range(held, 1), owner0, cm.frames[..], Range(held, 1) + Range(f, 1), owner,
                 cm.frames[..], Range(held, 1));
      return true;
    }

    /** Marking one more reference. */
    method MarkPageref() returns (r: Option<(nat, nat)>)
      requires Consistent()
      modifies roots`numinuse, roots.inuse
      ensures Consistent()
      ensures r.None? <==> P.AllUsed(old(roots.inuse[..]))
      ensures r.None? ==> Roots() == old(Roots())
      ensures r.Some? ==>
        && var (w, j) := r.value;
        && P.NextRef(old(roots.inuse[..]), w, j) && TookAt(old(Roots()), Roots(), 0, w, j)
        && (pages[w] > 0 ==> RefAddress(pages[w], j) !in refs)
    {
      ghost var flags := roots.inuse[..];
      r := roots.Alloc();
      if r.Some? {
        RefsMark(flags, pages, refs, owner, r.value.0 * P.NPAGEREFS_PER_PAGE + r.value.1);
        if pages[r.value.0] > 0 {
          UsedIsMarked(flags, pages, refs, owner, r.value.0, r.value.1);
        }
      }
    }

    /**
     allocpageref; 0 when all references are in use or when the root has no
     page and none can be had (lost), which leaves the reference marked. held
     is a chunk the caller has not used yet.
     */
    method AllocPageref(ghost held: nat) returns (id: nat, lost: bool)
      requires Consistent() && held !in owner && C.IsChunk(cm.frames[..], held, 1)
      modifies this`pages, this`owner, roots`numinuse, roots.inuse, cm`count, cm.frames
      ensures Consistent() && View() == old(View()).(owner := owner)
      ensures held !in owner && C.IsChunk(cm.frames[..], held, 1)
      ensures lost <==> old(FreeFrames()) == 0 && NextIsBare(old(Roots()))
      ensures id == 0 <==> lost || P.AllUsed(old(roots.inuse[..]))
      ensures TookRef(old(Roots()), Roots(), old(FreeFrames()))
      ensures FreeFrames() == old(FreeFrames()) - RefFrames(old(Roots()), old(FreeFrames()))
      ensures SameShare(old(owner), old(cm.frames[..]), Range(held, 1), owner, cm.frames[..], Range(held, 1))
      ensures id > 0 ==> id !in refs && Marked(roots.inuse[..], pages, id)
    {
      ghost var r0, free := Roots(), FreeFrames();
      ShareSame(owner, cm.frames[..], Range(held, 1));
      var r := MarkPageref();
      if r.None? {
        NoneIsNext(r0);
        return 0, false;
      }
      var w, j := r.value.0, r.value.1;
      NextIsUnique(r0, w, j);
      if pages[w] == 0 {
        var ok := AllocPagerefPage(w, held);
        if !ok {
          assert TookAt(r0, Roots(), free, w, j);
          return 0, true;
        }
      }
      id, lost := RefAddress(pages[w], j), false;
      assert IsRef(roots.inuse[..], pages, w, j, id);
      assert TookAt(r0, Roots(), free, w, j);
    }

    /** The loop that links all blocks of a fresh page f. */
    method BuildList(f: nat, t: nat)
      requires t < NSIZES
      modifies this`words
      ensures Chain(words, FullList(f, t)) && SameOutside(old(words), words, f)
    {
      Divides(t);
      PlaceIsOnPage(f, t, 0);
      LinkedNext(words, f, t, 0);
      words := words[f * PAGE_SIZE := 0];
      for i := 1 to Capacity(t)
        invariant Linked(words, f, t, i) && SameOutside(old(words), words, f)
      {
        PlaceIsOnPage(f, t, i);
        LinkedNext(words, f, t, i);
        words := words[f * PAGE_SIZE + i * SIZES[t] := f * PAGE_SIZE + (i - 1) * SIZES[t]];
      }
      LinkedChain(words, f, t);
    }

    /** The part of subpage_kmalloc that makes a new page of blocks of type t;
        0 when no page or no reference can be had. */
    method NewPage(t: nat) returns (id: nat, lost: bool)
      requires Consistent() && t < NSIZES
      modifies this, roots`numinuse, roots.inuse, cm`count, cm.frames
      ensures Consistent() && LiveBlocks(View()) == LiveBlocks(old(View()))
      ensures lost <==> LosesRef(old(FreeFrames()), old(Roots()))
      ensures id == 0 <==> NoNewPage(old(FreeFrames()), old(Roots()))
      ensures SameShare(old(owner), old(cm.frames[..]), {}, owner, cm.frames[..], {})
      ensures FreeFrames() ==
        old(FreeFrames()) - if id == 0 then 0 else 1 + RefFrames(old(Roots()), old(FreeFrames()) - 1)
      ensures
        if old(FreeFrames()) == 0 then Roots() == old(Roots())
        else TookRef(old(Roots()), Roots(), old(FreeFrames()) - 1)
      ensures id == 0 ==> refs == old(refs)
      ensures id > 0 ==> id !in old(refs) && id in refs && refs == old(refs)[id := refs[id]]
      ensures id > 0 ==> refs[id].blk == t && refs[id].nfree == Capacity(t)
    {
      ghost var frames := cm.frames[..];
      ShareSame(owner, frames, {});
      var f := GetPage(0, {});
      if f == 0 {
        return 0, false;
      }
      assert {} + Range(f, 1) == Range(f, 1);
      ghost var owner0, claimed := owner, cm.frames[..];
      id, lost := NewPageAt(f, t);
      ShareTrans(owner0, frames, {}, owner0, claimed, Range(f, 1), owner, cm.frames[..], {});
    }

    /** The rest of it, with page f in hand. */
    method NewPageAt(f: nat, t: nat) returns (id: nat, lost: bool)
      requires Consistent() && t < NSIZES && cm.memStart <= f && f !in owner && C.IsChunk(cm.frames[..], f, 1)
      modifies this, roots`numinuse, roots.inuse, cm`count, cm.frames
      ensures Consistent() && LiveBlocks(View()) == LiveBlocks(old(View()))
      ensures lost <==> old(FreeFrames()) == 0 && NextIsBare(old(Roots()))
      ensures id == 0 <==> lost || P.AllUsed(old(roots.inuse[..]))
      ensures SameShare(old(owner), old(cm.frames[..]), Range(f, 1), owner, cm.frames[..], {})
      ensures FreeFrames() ==
        old(FreeFrames()) + (if id == 0 then 1 else 0) - RefFrames(old(Roots()), old(FreeFrames()))
      ensures TookRef(old(Roots()), Roots(), old(FreeFrames()))
      ensures id == 0 ==> refs == old(refs)
      ensures id > 0 ==> id !in old(refs) && id in refs && refs == old(refs)[id := refs[id]]
      ensures id > 0 ==> refs[id].blk == t && refs[id].nfree == Capacity(t)
    {
      ghost var owner0, frames := owner, cm.frames[..];
      id, lost := AllocPageref(f);
      ghost var owner1, frames1 := owner, cm.frames[..];
      if id == 0 {
        NoneGained(old(Roots()), old(FreeFrames()), lost);
        ChunkHasNoUsers(cm.frames[..], f, 1);
        ShareFree(owner, cm.frames[..], {}, f, 1);
        PutPages(f, 1);
      } else {
        ShareAdd(owner, cm.frames[..], {}, f, HeapPage(id));
        AddHeapPage(id, f, t);
      }
      assert {} + Range(f, 1) == Range(f, 1);
      ShareTrans(owner0, frames, Range(f, 1), owner1, frames1, Range(f, 1), owner, cm.frames[..], {});
    }

    /** Page f becomes a page of free blocks with reference id. */
    method AddHeapPage(id: nat, f: nat, t: nat)
      requires Consistent() && t < NSIZES && id !in refs && Marked(roots.inuse[..], pages, id)
      requires cm.memStart <= f && f !in owner && C.IsChunk(cm.frames[..], f, 1)
      modifies this`words, this`refs, this`sizebases, this`allbase, this`free, this`blocks, this`owner
      ensures Consistent() && LiveBlocks(View()) == LiveBlocks(old(View()))
      ensures id in refs && refs == old(refs)[id := refs[id]] && refs[id].blk == t && refs[id].nfree == Capacity(t)
      ensures owner == old(owner)[f := HeapPage(id)]
      ensures Roots() == old(Roots())
    {
      FillPage(id, f, t);
    }

    method FillPage(id: nat, f: nat, t: nat)
      requires RefsOk(roots.inuse[..], pages, refs, owner) && Inv(View()) && Owned(View(), cm.frames[..], cm.memStart)
      requires t < NSIZES && id !in refs && Marked(roots.inuse[..], pages, id)
      requires 0 < cm.memStart <= f && f !in owner && C.IsChunk(cm.frames[..], f, 1)
      modifies this`words, this`refs, this`sizebases, this`allbase, this`free, this`blocks, this`owner
      ensures RefsOk(roots.inuse[..], pages, refs, owner) && Inv(View()) && Owned(View(), cm.frames[..], cm.memStart)
      ensures LiveBlocks(View()) == LiveBlocks(old(View()))
      ensures id in refs && refs == old(refs)[id := refs[id]] && refs[id].blk == t && refs[id].nfree == Capacity(t)
      ensures owner == old(owner)[f := HeapPage(id)]
    {
      ghost var h := View();
      RefsUse(roots.inuse[..], pages, refs, owner, id, PageRef(f, t, HeadOffset(FullList(f, t), f), Capacity(t)), f);
      BuildList(f, t);
      InstallPage(id, f, t, h);
      OwnedAdd(h, View(), cm.frames[..], cm.memStart, f);
    }

    /** The reference is filled in and put at the head of both lists. */
    method InstallPage(id: nat, f: nat, t: nat, ghost h: Heap)
      requires Inv(h) && View() == h.(words := words) && id !in refs && 0 < f && f !in owner && t < NSIZES
      requires Chain(words, FullList(f, t)) && SameOutside(h.words, words, f)
      modifies this`refs, this`sizebases, this`allbase, this`free, this`blocks, this`owner
      ensures View() == AddPage(h, id, f, t, words) && Inv(View()) && LiveBlocks(View()) == LiveBlocks(h)
    {
      AddPageKeeps(h, id, f, t, words);
      AddPageLive(h, id, f, t, words);
      FullHead(f, t);
      Divides(t);
      var n := PAGE_SIZE / SIZES[t];
      refs := refs[id := PageRef(f, t, (n - 1) * SIZES[t], n)];
      sizebases := sizebases[t := [id] + sizebases[t]];
      allbase := [id] + allbase;
      free := free[id := FullList(f, t)];
      blocks := blocks + FreshBlocks(FullList(f, t), id);
      owner := owner[f := HeapPage(id)];
    }

    /** The allocation proper: the head of the page's free list, which is found
        through the link in its first word. */
    method TakeBlock(id: nat, size: nat) returns (a: nat)
      requires Inv(View()) && id in refs && refs[id].nfree > 0 && refs[id].blk < NSIZES && size <= Size(refs[id].blk)
      modifies this`refs, this`free, this`blocks
      ensures old(id in free && free[id] != []) && a == old(free[id][0])
      ensures View() == Pop(old(View()), id, size) && Inv(View())
    {
      ghost var h := View();
      PopKeeps(h, id, size);
      TakeFacts(h, id);
      var r := refs[id];
      a := r.page * PAGE_SIZE + r.freeOffset;
      var next := words[a];
      refs := refs[id := r.(nfree := r.nfree - 1,
                            freeOffset := if next != 0 then next - r.page * PAGE_SIZE else INVALID_OFFSET)];
      blocks := blocks[a := Live(id, size)];
      free := free[id := free[id][1..]];
    }

    /** The search of subpage_kmalloc for a page with a free block. */
    method FindPage(t: nat) returns (r: Option<nat>)
      requires Consistent() && t < NSIZES
      ensures r.Some? ==> r.value in refs && refs[r.value].blk == t && refs[r.value].nfree > 0
      ensures r.None? <==> NoBlock(refs, t)
    {
      var i := 0;
      assert SizeListOk(View(), t);
      while i < |sizebases[t]|
        invariant forall j :: 0 <= j < i && j < |sizebases[t]| ==>
          sizebases[t][j] in refs && refs[sizebases[t][j]].nfree == 0
      {
        SizeListEntry(View(), t, i);
        if refs[sizebases[t][i]].nfree > 0 {
          return Some(sizebases[t][i]);
        }
        i := i + 1;
      }
      forall id | id in refs && refs[id].blk == t ensures refs[id].nfree == 0 {
        assert id in sizebases[t];
      }
      return None;
    }

    /** subpage_kmalloc */
    method SubpageKmalloc(size: nat) returns (a: nat, lost: bool)
      requires Valid() && size <= LARGEST_SUBPAGE_SIZE
      modifies this, roots`numinuse, roots.inuse, cm`count, cm.frames
      ensures Valid()
      ensures (a == 0 <==> SmallFails(old(Now()), size)) && (lost <==> SmallLoses(old(Now()), size))
      ensures a == 0 ==> LiveBlocks(View()) == LiveBlocks(old(View())) && refs == old(refs)
      ensures a > 0 ==> IsNewBlock(old(View()), View(), a, size)
      ensures a > 0 ==> a in blocks && blocks[a].Live?
      ensures a > 0 && NoBlock(old(refs), TypeFor(size)) ==> blocks[a].id in refs && IsFirst(refs[blocks[a].id])
      ensures SameShare(old(owner), old(cm.frames[..]), {}, owner, cm.frames[..], {})
      ensures FreeFrames() == old(FreeFrames()) - PageFrames(old(Now()), TypeFor(size))
      ensures PageRoots(old(Now()), Roots(), TypeFor(size))
    {
      var t := BlockType(size);
      assert t == TypeFor(size);
      var id;
      id, lost := PageFor(t);
      if id.None? {
        return 0, lost;
      }
      ghost var h := View();
      a := TakeBlock(id.value, size);
      TakenBlock(old(View()), h, id.value, size);
      RefsSame(roots.inuse[..], pages, h.refs, refs, owner);
    }

    /** A page of blocks of type t that has a free one, fresh if need be. */
    method PageFor(t: nat) returns (id: Option<nat>, lost: bool)
      requires Valid() && t < NSIZES
      modifies this, roots`numinuse, roots.inuse, cm`count, cm.frames
      ensures Consistent() && LiveBlocks(View()) == LiveBlocks(old(View()))
      ensures id.None? <==> NoBlock(old(refs), t) && NoNewPage(old(FreeFrames()), old(Roots()))
      ensures lost <==> NoBlock(old(refs), t) && LosesRef(old(FreeFrames()), old(Roots()))
      ensures id.None? ==> refs == old(refs)
      ensures id.Some? ==> id.value in refs && refs[id.value].blk == t && refs[id.value].nfree > 0
      ensures id.Some? && NoBlock(old(refs), t) ==> refs[id.value].nfree == Capacity(t)
      ensures id.Some? ==> NoneWholeBut(refs, id.value)
      ensures SameShare(old(owner), old(cm.frames[..]), {}, owner, cm.frames[..], {})
      ensures FreeFrames() == old(FreeFrames()) - PageFrames(old(Now()), t) && PageRoots(old(Now()), Roots(), t)
    {
      ShareSame(owner, cm.frames[..], {});
      lost := false;
      id := FindPage(t);
      if id.None? {
        id, lost := FreshPage(t);
      }
    }

    /** The search found none. */
    method FreshPage(t: nat) returns (id: Option<nat>, lost: bool)
      requires Valid() && t < NSIZES
      modifies this, roots`numinuse, roots.inuse, cm`count, cm.frames
      ensures Consistent() && LiveBlocks(View()) == LiveBlocks(old(View()))
      ensures id.None? <==> NoNewPage(old(FreeFrames()), old(Roots()))
      ensures lost <==> LosesRef(old(FreeFrames()), old(Roots()))
      ensures id.None? ==> refs == old(refs)
      ensures id.Some? ==>
        && id.value in refs && refs[id.value].blk == t && refs[id.value].nfree == Capacity(t) > 0
        && NoneWholeBut(refs, id.value)
      ensures SameShare(old(owner), old(cm.frames[..]), {}, owner, cm.frames[..], {})
      ensures FreeFrames() ==
        old(FreeFrames()) - if id.None? then 0 else 1 + RefFrames(old(Roots()), old(FreeFrames()) - 1)
      ensures
        if old(FreeFrames()) == 0 then Roots() == old(Roots())
        else TookRef(old(Roots()), Roots(), old(FreeFrames()) - 1)
    {
      var made;
      made, lost := NewPage(t);
      Divides(t);
      id := if made == 0 then None else Some(made);
    }

    /** The whole-page branch of kmalloc, for a 32-bit size. */
    method KmallocLarge(size: nat) returns (a: nat)
      requires Valid() && LARGEST_SUBPAGE_SIZE <= size < 0x1_0000_0000
      modifies this`blocks, this`owner, cm`count, cm.frames
      ensures Valid()
      ensures a == 0 ==> View() == old(View())
      ensures FreeFrames() == old(FreeFrames()) - if a == 0 then 0 else DivRoundUp(size, PAGE_SIZE)
      ensures a > 0 ==> IsNewBlock(old(View()), View(), a, size)
      ensures a == 0 <==>
        size > 0x1_0000_0000 - PAGE_SIZE || C.NoRun(old(cm.frames[..]), cm.memStart, DivRoundUp(size, PAGE_SIZE))
      ensures a > 0 ==> a in blocks && blocks[a] == Big(DivRoundUp(size, PAGE_SIZE), size)
      ensures SameShare(old(owner), old(cm.frames[..]), {}, owner, cm.frames[..], {})
    {
      ghost var owner0, frames := owner, cm.frames[..];
      ShareSame(owner, frames, {});
      var npages := PagesFor(size);
      var f := GetPages(npages);
      if f == 0 {
        return 0;
      }
      a := f * PAGE_SIZE;
      ShareClaim(owner, frames, {}, f, npages);
      ShareAdd(owner, cm.frames[..], {}, f, BigPage(npages));
      ghost var h := View();
      AddBigKeeps(h, f, npages, size);
      AddBigLive(h, f, npages, size);
      OwnedAdd(h, AddBig(h, f, npages, size), cm.frames[..], cm.memStart, f);
      blocks := blocks[a := Big(npages, size)];
      owner := owner[f := BigPage(npages)];
      assert View() == AddBig(h, f, npages, size);
      ShareTrans(owner0, frames, {}, owner0, cm.frames[..], {} + Range(f, npages), owner, cm.frames[..], {});
    }

    /** kmalloc: NULL exactly when there is no room, or a block no client had,
        large enough and aligned to its block or page size. */
    method Kmalloc(size: nat) returns (a: nat, lost: bool)
      requires Valid() && size < 0x1_0000_0000
      modifies this, roots`numinuse, roots.inuse, cm`count, cm.frames
      ensures Valid()
      ensures FreeFrames() == old(FreeFrames()) - FramesTaken(old(Now()), size) && RootsStep(old(Now()), Roots(), size)
      ensures a == 0 || size >= LARGEST_SUBPAGE_SIZE ==> refs == old(refs)
      ensures a > 0 && MakesPage(old(Now()), size) ==>
        a in blocks && blocks[a].Live? && blocks[a].id in refs && IsFirst(refs[blocks[a].id])
      ensures a == 0 <==> MallocFails(old(Now()), size)
      ensures lost <==> MallocLoses(old(Now()), size)
      ensures SameShare(old(owner), old(cm.frames[..]), {}, owner, cm.frames[..], {})
      ensures a == 0 ==> LiveBlocks(View()) == LiveBlocks(old(View()))
      ensures a > 0 ==> IsNewBlock(old(View()), View(), a, size)
      ensures a > 0 ==> a in blocks && (blocks[a].Big? <==> size >= LARGEST_SUBPAGE_SIZE)
      ensures a > 0 && size >= LARGEST_SUBPAGE_SIZE ==> blocks[a] == Big(DivRoundUp(size, PAGE_SIZE), size)
    {
      if size >= LARGEST_SUBPAGE_SIZE {
        a := KmallocLarge(size);
        lost := false;
      } else {
        a, lost := SubpageKmalloc(size);
      }
    }

    // ----------------------------------------------------------------
    // Freeing

    /** The block goes to the head of its page's free list. */
    method GiveBlock(id: nat, a: nat)
      requires Inv(View()) && a in blocks && blocks[a].Live? && blocks[a].id == id
      modifies this`refs, this`words, this`free, this`blocks
      ensures old(id in refs && id in free) && View() == Push(old(View()), id, a) && Inv(View())
    {
      ghost var h := View();
      PushKeeps(h, id, a);
      GiveFacts(h, id, a);
      var r := refs[id];
      words := words[a := if r.freeOffset == INVALID_OFFSET then 0 else r.page * PAGE_SIZE + r.freeOffset];
      refs := refs[id := r.(nfree := r.nfree + 1, freeOffset := a - r.page * PAGE_SIZE)];
      free := free[id := [a] + free[id]];
      blocks := blocks[a := Free(id)];
    }

    /** Position of a reference on a list, as the loops of remove_lists find it. */
    method Position(q: seq<nat>, id: nat) returns (i: nat)
      requires id in q
      ensures i < |q| && q[i] == id
    {
      i := 0;
      while q[i] != id
        invariant i < |q| && id in q[i..]
        decreases |q| - i
      {
        i := i + 1;
      }
    }

    /** freepageref: finds the root whose page holds the reference. Its assertion
        fails exactly when a bare root comes before that one. */
    method FreePageref(id: nat, ghost f: nat) returns (panicked: bool)
      requires roots.Valid() && RefsOk(roots.inuse[..], pages, refs, owner) && Marked(roots.inuse[..], pages, id)
      requires f in owner ==> !owner[f].RefPage?
      modifies roots`numinuse, roots.inuse
      ensures panicked <==> RefBlocked(old(Roots()), id)
      ensures !panicked ==> roots.Valid() && RefsOk(roots.inuse[..], pages, refs - {id}, owner - {f})
      ensures !panicked ==> FreedRef(old(Roots()), Roots(), id)
    {
      ghost var v: nat, k: nat :| IsRef(roots.inuse[..], pages, v, k, id);
      ghost var flags, r0 := roots.inuse[..], Roots();
      assert InRoot(r0, v, id);
      for w := 0 to P.NUM_PAGEREFPAGES
        invariant w <= v && !BlockedBefore(r0, w)
      {
        if pages[w] == 0 {
          if roots.numinuse[w] != 0 {
            assert Bare(r0, w);
            return true;
          }
        } else if pages[w] * PAGE_SIZE <= id < (pages[w] + 1) * PAGE_SIZE {
          var j := (id - pages[w] * PAGE_SIZE) / PAGEREF_SIZE;
          SameRoot(flags, pages, refs, owner, v, k, id, w);
          RefsUnmark(flags, pages, refs, owner, w, j, id, f);
          OnlyRoot(r0, refs, owner, id, w);
          roots.Free(w, j);
          assert FreedAt(r0, Roots(), id, w, j);
          return false;
        }
      }
      assert false;
    }

    /** A wholly free page: its reference leaves both lists and is given back,
        and then the page itself. */
    method ReleasePage(id: nat) returns (panicked: bool)
      requires Consistent() && id in refs && refs[id].blk < NSIZES && refs[id].nfree == Capacity(refs[id].blk)
      modifies this`refs, this`sizebases, this`allbase, this`free, this`blocks, this`owner
      modifies roots`numinuse, roots.inuse, cm`count, cm.frames
      ensures panicked <==> RefBlocked(old(Roots()), id)
      ensures !panicked ==> Consistent() && refs == old(refs) - {id} && LiveBlocks(View()) == LiveBlocks(old(View()))
      ensures !panicked ==> SameShare(old(owner), old(cm.frames[..]), {}, owner, cm.frames[..], {})
      ensures !panicked ==> FreeFrames() == old(FreeFrames()) + 1 && FreedRef(old(Roots()), Roots(), id)
    {
      var f := refs[id].page;
      ghost var owner0 := owner;
      assert RefOk(View(), id) && owner[f] == HeapPage(id);
      panicked := DetachPage(id);
      if !panicked {
        ChunkHasNoUsers(cm.frames[..], f, 1);
        GivesBack(owner0, cm.frames[..], f);
        PutPages(f, 1);
      }
    }

    /** The part under the spinlock: the page is not the heap's any more. */
    method DetachPage(id: nat) returns (panicked: bool)
      requires RootsOk() && Inv(View()) && Owned(View(), cm.frames[..], cm.memStart)
      requires id in refs && refs[id].blk < NSIZES && refs[id].nfree == Capacity(refs[id].blk)
      modifies this`refs, this`sizebases, this`allbase, this`free, this`blocks, this`owner
      modifies roots`numinuse, roots.inuse
      ensures panicked <==> RefBlocked(old(Roots()), id)
      ensures !panicked ==> Inv(View()) && refs == old(refs) - {id} && LiveBlocks(View()) == LiveBlocks(old(View()))
      ensures !panicked && (cm.frames as object) != (roots.inuse as object) ==>
        RootsOk() && Owned(View(), cm.frames[..], cm.memStart)
      ensures !panicked ==> FreedRef(old(Roots()), Roots(), id)
      ensures var f := old(refs)[id].page;
        && f in old(owner) && Frames(old(owner)[f]) == 1
        && (!panicked ==> owner == old(owner) - {f} && cm.memStart <= f)
    {
      ghost var h := View();
      var f := refs[id].page;
      assert RefOk(h, id);
      var i, j := Unlink(id);
      ghost var h2 := DropPage(h, id, i, j);
      OwnedLess(h, h2, cm.frames[..], cm.memStart, f);
      DropPageKeeps(h, id, i, j);
      DropPageLive(h, id, i, j);
      panicked := FreePageref(id, f);
      if panicked {
        return;
      }
      DropRef(id);
      assert View() == h2;
    }

    method DropRef(id: nat)
      modifies this`refs
      ensures refs == old(refs) - {id} && Roots() == old(Roots())
    {
      refs := refs - {id};
    }

    /** remove_lists, with the bookkeeping of the page. */
    method Unlink(id: nat) returns (ghost i: nat, ghost j: nat)
      requires Inv(View()) && id in refs && refs[id].blk < NSIZES
      modifies this`sizebases, this`allbase, this`free, this`blocks, this`owner
      ensures i < |old(sizebases)[refs[id].blk]| && old(sizebases)[refs[id].blk][i] == id
      ensures j < |old(allbase)| && old(allbase)[j] == id && |old(sizebases)| == NSIZES
      ensures View() == DropPage(old(View()), id, i, j).(refs := refs)
    {
      var t := refs[id].blk;
      assert SizeListOk(View(), t);
      assert id in sizebases[t] && id in allbase;
      var k := Position(sizebases[t], id);
      sizebases := sizebases[t := Without(sizebases[t], k)];
      var m := Position(allbase, id);
      allbase := Without(allbase, m);
      free := free - {id};
      blocks := map a | a in blocks && blocks[a] != Free(id) :: blocks[a];
      owner := owner - {refs[id].page};
      i, j := k, m;
    }

    /** The search of subpage_kfree for the page that holds an address. */
    method FindRef(a: nat) returns (r: Option<nat>)
      requires Inv(View())
      ensures r.Some? ==> r.value in refs && refs[r.value].page == a / PAGE_SIZE
      ensures r.None? ==> forall id :: id in refs ==> refs[id].page != a / PAGE_SIZE
    {
      var i := 0;
      while i < |allbase|
        invariant forall j :: 0 <= j < i && j < |allbase| ==>
          allbase[j] in refs && refs[allbase[j]].page != a / PAGE_SIZE
      {
        assert allbase[i] in allbase;
        var id := allbase[i];
        if refs[id].page * PAGE_SIZE <= a < (refs[id].page + 1) * PAGE_SIZE {
          return Some(id);
        }
        i := i + 1;
      }
      forall id | id in refs ensures refs[id].page != a / PAGE_SIZE {
        assert id in allbase;
      }
      return None;
    }

    /** subpage_kfree for a live block; not ok when it is on no heap page. */
    method SubpageKfree(a: nat) returns (ok: bool, panicked: bool)
      requires Valid() && a in LiveBlocks(View())
      modifies this`refs, this`words, this`sizebases, this`allbase, this`free, this`blocks, this`owner
      modifies roots`numinuse, roots.inuse, cm`count, cm.frames
      ensures ok == old(blocks[a]).Live? && (panicked <==> FreePanics(old(Now()), a))
      ensures !panicked ==> Valid()
      ensures ok && !panicked ==> FreedBlock(old(Now()), Now(), a)
      ensures !ok ==> Now() == old(Now())
    {
      var found := FindRef(a);
      LivePage(View(), a);
      if found.None? {
        return false, false;
      }
      var id := found.value;
      assert a % SIZES[refs[id].blk] == 0;
      ok := true;
      panicked := FreeOnPage(id, a);
    }

    /** A block of the page of id is freed, and the page if it was the last. */
    method FreeOnPage(id: nat, a: nat) returns (panicked: bool)
      requires Valid() && a in blocks && blocks[a].Live? && blocks[a].id == id
      modifies this`refs, this`words, this`sizebases, this`allbase, this`free, this`blocks, this`owner
      modifies roots`numinuse, roots.inuse, cm`count, cm.frames
      ensures panicked <==> FreePanics(old(Now()), a)
      ensures !panicked ==> Valid() && FreedBlock(old(Now()), Now(), a)
    {
      ghost var m := Now();
      PutBlock(id, a);
      ghost var m1 := Now();
      assert EmptiesPage(m.h, a) <==> IsWhole(m1.h.refs[id]);
      panicked := ReleaseIfWhole(id);
      if !panicked {
        FreedBlockFrom(m, m1, Now(), id, a);
      }
    }

    /** The page is given back when all its blocks are free. */
    method ReleaseIfWhole(id: nat) returns (panicked: bool)
      requires Consistent() && id in refs && refs[id].blk < NSIZES
      modifies this`refs, this`sizebases, this`allbase, this`free, this`blocks, this`owner
      modifies roots`numinuse, roots.inuse, cm`count, cm.frames
      ensures panicked <==> IsWhole(old(refs)[id]) && RefBlocked(old(Roots()), id)
      ensures !panicked ==> Consistent() && Released(old(Now()), Now(), id)
    {
      ShareSame(owner, cm.frames[..], {});
      panicked := false;
      if refs[id].nfree == PAGE_SIZE / SIZES[refs[id].blk] {
        panicked := ReleasePage(id);
      }
    }

    /** The block is free again. */
    method PutBlock(id: nat, a: nat)
      requires Valid() && a in blocks && blocks[a].Live? && blocks[a].id == id
      modifies this`refs, this`words, this`free, this`blocks
      ensures Consistent() && PutTo(old(Now()), Now(), id, a)
    {
      ghost var h := View();
      PushKeeps(h, id, a);
      GiveBlock(id, a);
      PushLive(h, id, a);
      RefsSame(roots.inuse[..], pages, h.refs, refs, owner);
      FreeAtMost(View(), id);
    }

    /** kfree of NULL or of a live block. The assertion of freepageref fails
        exactly when the block's page becomes wholly free and a bare root comes
        before the root of its reference. */
    method Kfree(a: nat) returns (panicked: bool)
      requires Valid() && (a == 0 || a in LiveBlocks(View()))
      modifies this`refs, this`words, this`sizebases, this`allbase, this`free, this`blocks, this`owner
      modifies roots`numinuse, roots.inuse, cm`count, cm.frames
      ensures panicked <==> FreePanics(old(Now()), a)
      ensures !panicked ==> Valid() && FreedBlock(old(Now()), Now(), a)
      ensures a in old(blocks) && old(blocks)[a].Big? ==> refs == old(refs)
    {
      if a == 0 {
        ShareSame(owner, cm.frames[..], {});
        BlocksManaged(View(), cm.frames[..], cm.memStart);
        return false;
      }
      var ok;
      ok, panicked := SubpageKfree(a);
      if !ok {
        FreeBig(a);
      }
    }

    /** free_kpages for a large block. */
    method FreeBig(a: nat)
      requires Valid() && a in blocks && blocks[a].Big?
      modifies this`blocks, this`owner, cm`count, cm.frames
      ensures Valid() && LiveBlocks(View()) == LiveBlocks(old(View())) - {a}
      ensures FreeFrames() == old(FreeFrames()) + old(blocks)[a].npages
      ensures SameShare(old(owner), old(cm.frames[..]), {}, owner, cm.frames[..], {})
    {
      ghost var h := View();
      var f := a / PAGE_SIZE;
      ghost var n := ForgetBig(a);
      ChunkHasNoUsers(cm.frames[..], f, n);
      GivesBack(h.owner, cm.frames[..], f);
      PutPages(f, n);
    }

    /** The block is no longer the heap's. */
    ghost method ForgetBig(a: nat) returns (n: nat)
      requires Valid() && a in blocks && blocks[a].Big?
      modifies this`blocks, this`owner
      ensures Valid() && LiveBlocks(View()) == LiveBlocks(old(View())) - {a}
      ensures var f := a / PAGE_SIZE;
        && f in old(owner) && owner == old(owner) - {f} && Frames(old(owner)[f]) == n
        && cm.memStart <= f && C.IsChunk(cm.frames[..], f, n) && n == old(blocks)[a].npages
    {
      ghost var h := View();
      assert BlockOk(h, a);
      var f := a / PAGE_SIZE;
      n := blocks[a].npages;
      DropBigKeeps(h, f);
      DropBigLive(h, f);
      RefsLess(roots.inuse[..], pages, refs, owner, f);
      OwnedLess(h, DropBig(h, f), cm.frames[..], cm.memStart, f);
      blocks := blocks - {a};
      owner := owner - {f};
      assert View() == DropBig(h, f);
    }

    /** A client writes a word of its own block. */
    method ClientWrite(a: nat, x: nat, v: nat)
      requires Valid() && a in LiveBlocks(View()) && BlockOk(View(), a) && a <= x < a + Length(View(), a)
      modifies this`words
      ensures Valid() && LiveBlocks(View()) == LiveBlocks(old(View())) && View() == old(View()).(words := words)
    {
      ghost var h := View();
      ClientWriteKeeps(h, cm.frames[..], cm.memStart, a, x, v);
      words := words[x := v];
      assert View() == h.(words := words);
    }
  }

  lemma SameRoot(flags: seq<bool>, pages: seq<nat>, refs: map<nat, PageRef>, owner: map<nat, Owner>, v: nat, k: nat,
                 id: nat, w: nat)
    requires RefsOk(flags, pages, refs, owner) && IsRef(flags, pages, v, k, id)
    requires w < P.NUM_PAGEREFPAGES && 0 < pages[w] && pages[w] * PAGE_SIZE <= id < (pages[w] + 1) * PAGE_SIZE
    ensures w == v && (id - pages[w] * PAGE_SIZE) / PAGEREF_SIZE == k
  {
    assert pages[w] == pages[v];
  }

  /** The page of a reference belongs to one root. */
  lemma OnlyRoot(r: RootState, refs: map<nat, PageRef>, owner: map<nat, Owner>, id: nat, w: nat)
    requires RefsOk(r.flags, r.pages, refs, owner) && InRoot(r, w, id)
    ensures RefBlocked(r, id) <==> BlockedBefore(r, w)
  {
    if RefBlocked(r, id) {
      var v: nat :| InRoot(r, v, id) && BlockedBefore(r, v);
      assert r.pages[v] == r.pages[w];
    }
  }
}
