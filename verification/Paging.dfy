/**
 Demand paging on values: frames, swap and page tables together refine a flat
 memory from (address space, page) to contents. The operations of kern/vm/vm.c
 and kern/vm/addrspace.c are sequences of the steps defined here.
 */
module Paging {

  import opened Coremap

  type Page = seq<bv8>

  function ZeroPage(): Page { seq(PAGE_SIZE, i => 0) }

  datatype Key = Key(space: nat, vpage: nat)

  /** A MAPPED entry holds a frame and a SWAPPED one a disk page. */
  datatype Loc = InFrame(frame: nat) | OnDisk(slot: nat)

  datatype Region = Region(start: nat, npages: nat)

  /** The parts of an address space other than its page table; page numbers. */
  datatype Bounds = Bounds(regions: seq<Region>, heapStart: nat, heapEnd: nat)

  /** pages is the union of all page tables, and slotKey says which entry each
      marked swap bit belongs to. */
  datatype State = State(frames: seq<Frame>, ram: seq<Page>, disk: seq<Page>, slots: seq<bool>,
                         pages: map<Key, Loc>, slotKey: map<nat, Key>, spaces: map<nat, Bounds>)

  function Owner(f: Frame): Key { Key(f.owner, f.vpage) }

  // ------------------------------------------------------------------
  // Invariant

  ghost predicate Shape(s: State) { |s.ram| == |s.frames| && |s.disk| == |s.slots| }

  /** A used frame backs the entry at its recorded owner and address. */
  ghost predicate FrameOk(s: State, f: nat)
    requires f < |s.frames|
  {
    s.frames[f].state == Used ==> Owner(s.frames[f]) in s.pages && s.pages[Owner(s.frames[f])] == InFrame(f)
  }

  ghost predicate FramesOk(s: State) {
    forall f: nat {:trigger FrameOk(s, f)} :: f < |s.frames| ==> FrameOk(s, f)
  }

  /** A marked swap bit belongs to the entry slotKey names, and to no other. */
  ghost predicate SlotOk(s: State, d: nat)
    requires d < |s.slots|
  {
    && (s.slots[d] <==> d in s.slotKey)
    && (s.slots[d] ==> s.slotKey[d] in s.pages && s.pages[s.slotKey[d]] == OnDisk(d))
  }

  ghost predicate SlotsOk(s: State) {
    forall d: nat {:trigger SlotOk(s, d)} :: d < |s.slots| ==> SlotOk(s, d)
  }

  ghost predicate EntryOk(s: State, k: Key)
    requires k in s.pages
  {
    && k.space in s.spaces
    && match s.pages[k]
       case InFrame(f) => f < |s.frames| && s.frames[f].state == Used && Owner(s.frames[f]) == k
       case OnDisk(d) => d < |s.slots| && s.slots[d] && d in s.slotKey && s.slotKey[d] == k
  }

  ghost predicate EntriesOk(s: State) {
    forall k {:trigger EntryOk(s, k)} :: k in s.pages ==> EntryOk(s, k)
  }

  ghost predicate Inv(s: State) { Shape(s) && FramesOk(s) && SlotsOk(s) && EntriesOk(s) }

  /** Two entries never share a frame or a swap slot. */
  lemma NoSharing(s: State, k1: Key, k2: Key)
    requires Inv(s) && k1 in s.pages && k2 in s.pages && s.pages[k1] == s.pages[k2]
    ensures k1 == k2
  {
    assert EntryOk(s, k1) && EntryOk(s, k2);
  }

  /** Each used frame backs exactly one MAPPED entry, at its recorded owner. */
  lemma FrameHasOneEntry(s: State, f: nat)
    requires Inv(s) && f < |s.frames| && s.frames[f].state == Used
    ensures forall k :: k in s.pages && s.pages[k] == InFrame(f) <==> k == Owner(s.frames[f])
  {
    assert FrameOk(s, f);
    forall k | k in s.pages && s.pages[k] == InFrame(f) ensures k == Owner(s.frames[f]) {
      assert EntryOk(s, k);
    }
  }

  /** Each marked swap bit belongs to exactly one SWAPPED entry, each clear one
      to none. */
  lemma SlotHasOneEntry(s: State, d: nat)
    requires Inv(s) && d < |s.slots|
    ensures s.slots[d] ==> d in s.slotKey && forall k :: k in s.pages && s.pages[k] == OnDisk(d) <==> k == s.slotKey[d]
    ensures !s.slots[d] ==> forall k :: k in s.pages ==> s.pages[k] != OnDisk(d)
  {
    assert SlotOk(s, d);
    forall k | k in s.pages && s.pages[k] == OnDisk(d) ensures s.slots[d] && k == s.slotKey[d] {
      assert EntryOk(s, k);
    }
  }

  // ------------------------------------------------------------------
  // The flat view

  ghost function Read(s: State, k: Key): Page {
    if k !in s.pages then ZeroPage()
    else match s.pages[k]
      case InFrame(f) => if f < |s.ram| then s.ram[f] else ZeroPage()
      case OnDisk(d) => if d < |s.disk| then s.disk[d] else ZeroPage()
  }

  /** The contents of every page of every address space are the same. */
  ghost predicate SameMemory(s: State, s2: State) { s2.spaces == s.spaces && forall k :: Read(s2, k) == Read(s, k) }

  // ------------------------------------------------------------------
  // Steps

  /** A free frame f becomes the backing of the absent page k. */
  function MapPage(s: State, k: Key, f: nat, page: Page, ref: bool): State
    requires f < |s.frames| == |s.ram|
  {
    s.(frames := s.frames[f := Frame(Used, 1, k.space, k.vpage, ref)],
       ram := s.ram[f := page], pages := s.pages[k := InFrame(f)])
  }

  lemma MapPageKeeps(s: State, k: Key, f: nat, page: Page, ref: bool)
    requires Inv(s) && f < |s.frames| && s.frames[f].state == Free && k !in s.pages && k.space in s.spaces
    ensures Inv(MapPage(s, k, f, page, ref)) && SameKernel(s.frames, MapPage(s, k, f, page, ref).frames)
    ensures forall k2 :: Read(MapPage(s, k, f, page, ref), k2) == if k2 == k then page else Read(s, k2)
  {
    var s2 := MapPage(s, k, f, page, ref);
    SameKernelUpdate(s.frames, f, s2.frames[f]);
    forall k2 | k2 in s2.pages
      ensures EntryOk(s2, k2) && Read(s2, k2) == if k2 == k then page else Read(s, k2)
    {
      if k2 != k {
        assert EntryOk(s, k2);
      }
    }
    forall f2: nat | f2 < |s2.frames| ensures FrameOk(s2, f2) {
      assert FrameOk(s, f2);
    }
    forall d2: nat | d2 < |s2.slots| ensures SlotOk(s2, d2) {
      assert SlotOk(s, d2);
    }
  }

  /** The page k, swapped out to slot d, comes back into the free frame f. */
  function SwapIn(s: State, k: Key, f: nat, d: nat, ref: bool): State
    requires d < |s.slots| == |s.disk| && f < |s.frames| == |s.ram|
  {
    s.(frames := s.frames[f := Frame(Used, 1, k.space, k.vpage, ref)], ram := s.ram[f := s.disk[d]],
       slots := s.slots[d := false], slotKey := s.slotKey - {d}, pages := s.pages[k := InFrame(f)])
  }

  lemma SwapInKeeps(s: State, k: Key, f: nat, d: nat, ref: bool)
    requires Inv(s) && f < |s.frames| && s.frames[f].state == Free && k in s.pages && s.pages[k] == OnDisk(d)
    ensures d < |s.slots| && s.slots[d]
    ensures Inv(SwapIn(s, k, f, d, ref)) && SameMemory(s, SwapIn(s, k, f, d, ref))
    ensures SameKernel(s.frames, SwapIn(s, k, f, d, ref).frames)
  {
    assert EntryOk(s, k);
    var s2 := SwapIn(s, k, f, d, ref);
    SameKernelUpdate(s.frames, f, s2.frames[f]);
    forall k2 | k2 in s2.pages ensures EntryOk(s2, k2) && Read(s2, k2) == Read(s, k2) {
      assert EntryOk(s, k2);
    }
    forall f2: nat | f2 < |s2.frames| ensures FrameOk(s2, f2) {
      assert FrameOk(s, f2);
    }
    forall d2: nat | d2 < |s2.slots| ensures SlotOk(s2, d2) {
      assert SlotOk(s, d2);
    }
  }

  /** The used frame v is written to the clear slot d. */
  function SwapOut(s: State, v: nat, d: nat): State
    requires v < |s.frames| == |s.ram| && d < |s.slots| == |s.disk|
  {
    s.(frames := s.frames[v := s.frames[v].(state := InEviction)], disk := s.disk[d := s.ram[v]],
       slots := s.slots[d := true], slotKey := s.slotKey[d := Owner(s.frames[v])],
       pages := s.pages[Owner(s.frames[v]) := OnDisk(d)])
  }

  lemma SwapOutKeeps(s: State, v: nat, d: nat)
    requires Inv(s) && v < |s.frames| && s.frames[v].state == Used && d < |s.slots| && !s.slots[d]
    ensures Inv(SwapOut(s, v, d)) && SameMemory(s, SwapOut(s, v, d))
  {
    assert FrameOk(s, v) && SlotOk(s, d);
    var s2 := SwapOut(s, v, d);
    forall k2 | k2 in s2.pages ensures EntryOk(s2, k2) && Read(s2, k2) == Read(s, k2) {
      assert EntryOk(s, k2);
    }
    forall f2: nat | f2 < |s2.frames| ensures FrameOk(s2, f2) {
      assert FrameOk(s, f2);
    }
    forall d2: nat | d2 < |s2.slots| ensures SlotOk(s2, d2) {
      assert SlotOk(s, d2);
    }
  }

  /** The MAPPED entry k is removed and its frame f given back. */
  function DropMapped(s: State, k: Key, f: nat): State
    requires f < |s.frames|
  {
    s.(frames := s.frames[f := FREE], pages := s.pages - {k})
  }

  lemma DropMappedKeeps(s: State, k: Key, f: nat)
    requires Inv(s) && k in s.pages && s.pages[k] == InFrame(f)
    ensures f < |s.frames| && s.frames[f].state == Used && Inv(DropMapped(s, k, f))
    ensures SameKernel(s.frames, DropMapped(s, k, f).frames)
    ensures forall k2 :: Read(DropMapped(s, k, f), k2) == if k2 == k then ZeroPage() else Read(s, k2)
  {
    assert EntryOk(s, k);
    var s2 := DropMapped(s, k, f);
    SameKernelUpdate(s.frames, f, FREE);
    forall k2 | k2 in s2.pages ensures EntryOk(s2, k2) && Read(s2, k2) == Read(s, k2) {
      assert EntryOk(s, k2);
    }
    forall f2: nat | f2 < |s2.frames| ensures FrameOk(s2, f2) {
      assert FrameOk(s, f2);
    }
    forall d2: nat | d2 < |s2.slots| ensures SlotOk(s2, d2) {
      assert SlotOk(s, d2);
    }
  }

  /** The SWAPPED entry k is removed and its slot d given back. */
  function DropSwapped(s: State, k: Key, d: nat): State
    requires d < |s.slots|
  {
    s.(slots := s.slots[d := false], slotKey := s.slotKey - {d}, pages := s.pages - {k})
  }

  lemma DropSwappedKeeps(s: State, k: Key, d: nat)
    requires Inv(s) && k in s.pages && s.pages[k] == OnDisk(d)
    ensures d < |s.slots| && s.slots[d] && Inv(DropSwapped(s, k, d))
    ensures forall k2 :: Read(DropSwapped(s, k, d), k2) == if k2 == k then ZeroPage() else Read(s, k2)
  {
    assert EntryOk(s, k);
    var s2 := DropSwapped(s, k, d);
    forall k2 | k2 in s2.pages ensures EntryOk(s2, k2) && Read(s2, k2) == Read(s, k2) {
      assert EntryOk(s, k2);
    }
    forall f2: nat | f2 < |s2.frames| ensures FrameOk(s2, f2) {
      assert FrameOk(s, f2);
    }
    forall d2: nat | d2 < |s2.slots| ensures SlotOk(s2, d2) {
      assert SlotOk(s, d2);
    }
  }

  /** A store by the user to the resident page k. */
  function StorePage(s: State, k: Key, page: Page): State
    requires k in s.pages && s.pages[k].InFrame? && s.pages[k].frame < |s.ram|
  {
    s.(ram := s.ram[s.pages[k].frame := page])
  }

  lemma StorePageKeeps(s: State, k: Key, page: Page)
    requires Inv(s) && k in s.pages && s.pages[k].InFrame?
    ensures s.pages[k].frame < |s.ram| && Inv(StorePage(s, k, page))
    ensures forall k2 :: Read(StorePage(s, k, page), k2) == if k2 == k then page else Read(s, k2)
  {
    assert EntryOk(s, k);
    var s2 := StorePage(s, k, page);
    forall k2 | k2 in s2.pages
      ensures EntryOk(s2, k2) && Read(s2, k2) == if k2 == k then page else Read(s, k2)
    {
      assert EntryOk(s, k2);
    }
    forall f2: nat | f2 < |s2.frames| ensures FrameOk(s2, f2) {
      assert FrameOk(s, f2);
    }
    forall d2: nat | d2 < |s2.slots| ensures SlotOk(s2, d2) {
      assert SlotOk(s, d2);
    }
  }

  /** Used frames keep their owner, address and contents; nothing else becomes
      used. Reference bits and kernel pages may change. */
  ghost predicate SameUsed(s: State, frames: seq<Frame>, ram: seq<Page>) {
    && |frames| == |s.frames| && |ram| == |s.ram|
    && (forall f :: 0 <= f < |frames| ==> (frames[f].state == Used <==> s.frames[f].state == Used))
    && (forall f :: 0 <= f < |frames| && f < |ram| && frames[f].state == Used ==>
          Owner(frames[f]) == Owner(s.frames[f]) && ram[f] == s.ram[f])
  }

  lemma SameUsedKeeps(s: State, frames: seq<Frame>, ram: seq<Page>)
    requires Inv(s) && SameUsed(s, frames, ram)
    ensures Inv(s.(frames := frames, ram := ram)) && SameMemory(s, s.(frames := frames, ram := ram))
  {
    var s2 := s.(frames := frames, ram := ram);
    forall k2 | k2 in s2.pages ensures EntryOk(s2, k2) && Read(s2, k2) == Read(s, k2) {
      assert EntryOk(s, k2);
    }
    forall f2: nat | f2 < |s2.frames| ensures FrameOk(s2, f2) {
      assert FrameOk(s, f2);
    }
    forall d2: nat | d2 < |s2.slots| ensures SlotOk(s2, d2) {
      assert SlotOk(s, d2);
    }
  }

  /** Address spaces may be added, changed, or removed once empty. */
  lemma SpacesKeeps(s: State, spaces: map<nat, Bounds>)
    requires Inv(s) && forall k :: k in s.pages ==> k.space in spaces
    ensures Inv(s.(spaces := spaces))
    ensures forall k :: Read(s.(spaces := spaces), k) == Read(s, k)
  {
    var s2 := s.(spaces := spaces);
    forall k2 | k2 in s2.pages ensures EntryOk(s2, k2) {
      assert EntryOk(s, k2);
    }
    forall f2: nat | f2 < |s2.frames| ensures FrameOk(s2, f2) {
      assert FrameOk(s, f2);
    }
    forall d2: nat | d2 < |s2.slots| ensures SlotOk(s2, d2) {
      assert SlotOk(s, d2);
    }
  }
}
