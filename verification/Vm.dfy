/**
 The virtual memory system of kern/vm/vm.c, kern/vm/addrspace.c and sys_sbrk.
 Each operation runs on the coremap array, the swap bitmap and the page-table
 lists, and is proved to be a step of the flat memory of module Paging.
 */
module Vm {

  import opened KernLib
  import opened Paging
  import opened PageTable
  import C = Coremap
  import B = Bitmap

  const PAGE_SIZE := C.PAGE_SIZE
  const USERSTACK := 0x8000_0000 / PAGE_SIZE
  const VM_STACKPAGES := 128
  const STACK_BASE := USERSTACK - VM_STACKPAGES

  /** The address check of vm_fault, on page numbers. */
  predicate ValidPage(b: Bounds, vp: nat) {
    || STACK_BASE <= vp < USERSTACK
    || b.heapStart <= vp < b.heapEnd
    || exists i :: 0 <= i < |b.regions| && b.regions[i].start <= vp < End(b.regions[i])
  }

  predicate Present(spaces: map<nat, Bounds>, a: nat, vp: nat) { a in spaces && ValidPage(spaces[a], vp) }

  /** What one allocation of kernel memory does: how many frames kmalloc claims
      for its own pages, and whether it succeeds if it gets them. */
  datatype Kmem = Kmem(ok: bool, claims: nat)

  ghost function FreeFrames(s: State, memStart: nat): nat { C.FreeCount(s.frames, memStart, |s.frames|) }

  /** When vm_fault returns an error: a wrong address, no frame for a page that
      is swapped out, or no kernel memory for a new entry and its lock, or no
      frame left after that. */
  ghost predicate FaultFails(s: State, memStart: nat, a: nat, vp: nat, k: Kmem) {
    || !Present(s.spaces, a, vp)
    || (if Key(a, vp) in s.pages then s.pages[Key(a, vp)].OnDisk? && FreeFrames(s, memStart) == 0
        else !k.ok || FreeFrames(s, memStart) <= k.claims)
  }

  /** When that error frees the new entry after it has been linked: its own
      kernel memory took the last frames. */
  ghost predicate LeavesDangling(s: State, memStart: nat, a: nat, vp: nat, k: Kmem) {
    Present(s.spaces, a, vp) && Key(a, vp) !in s.pages && k.ok && FreeFrames(s, memStart) == k.claims
  }

  /** The frames a fault claims for kernel memory. */
  ghost function FaultClaims(s: State, memStart: nat, a: nat, vp: nat, k: Kmem): nat {
    if !Present(s.spaces, a, vp) || Key(a, vp) in s.pages then 0 else Least(k.claims, FreeFrames(s, memStart))
  }

  function Least(a: nat, b: nat): nat { if a < b then a else b }

  /** The page is resident: where it was, or in a frame that was free. */
  ghost predicate MadeResident(s: State, s2: State, k: Key) {
    && k in s2.pages && s2.pages[k].InFrame? && s2.pages == s.pages[k := s2.pages[k]]
    && (if k in s.pages && s.pages[k].InFrame? then s2.pages[k] == s.pages[k]
        else s2.pages[k].frame < |s.frames| && s.frames[s2.pages[k].frame].state == C.Free)
  }

  function End(r: Region): nat { r.start + r.npages }

  /** The pages as_define_region records. It masks the page offset off the
      address before it would add the offset to the size. */
  function RegionOf(vaddr: nat, memsize: nat): Region { Region(vaddr / PAGE_SIZE, DivRoundUp(memsize, PAGE_SIZE)) }

  function AddRegion(b: Bounds, r: Region): Bounds { b.(regions := b.regions + [r]) }

  /** The region holds every byte of the segment. */
  ghost predicate Covers(r: Region, vaddr: nat, memsize: nat) {
    forall x: nat :: InSegment(x, vaddr, memsize) ==> r.start <= x / PAGE_SIZE < End(r)
  }

  predicate InSegment(x: nat, vaddr: nat, memsize: nat) { vaddr <= x < vaddr + memsize }

  /** A segment is covered exactly when its size, counted from the start of its
      first page, needs no more pages than the size alone. */
  lemma RegionCovers(vaddr: nat, memsize: nat)
    ensures Covers(RegionOf(vaddr, memsize), vaddr, memsize) <==>
      memsize == 0 || vaddr % PAGE_SIZE + memsize <= DivRoundUp(memsize, PAGE_SIZE) * PAGE_SIZE
  {
    var r := RegionOf(vaddr, memsize);
    if memsize > 0 {
      var last := vaddr + memsize - 1;
      assert InSegment(last, vaddr, memsize);
      assert vaddr % PAGE_SIZE + memsize <= r.npages * PAGE_SIZE <==> last < End(r) * PAGE_SIZE;
      if last < End(r) * PAGE_SIZE {
        forall x: nat | InSegment(x, vaddr, memsize) ensures r.start <= x / PAGE_SIZE < End(r) {
        }
      }
    }
  }

  /** Two bytes across a page boundary get one page. */
  lemma RegionFallsShort()
    ensures !Covers(RegionOf(PAGE_SIZE - 1, 2), PAGE_SIZE - 1, 2)
  {
    RegionCovers(PAGE_SIZE - 1, 2);
  }

  /** The end of the segment that ends highest. */
  function HighestEnd(regions: seq<Region>): (h: nat)
    ensures forall i :: 0 <= i < |regions| ==> End(regions[i]) <= h
    ensures h == 0 || exists i :: 0 <= i < |regions| && End(regions[i]) == h
  {
    if regions == [] then 0
    else
      var n := |regions| - 1;
      var h := HighestEnd(regions[..n]);
      assert regions[..n] + [regions[n]] == regions;
      if End(regions[n]) > h then End(regions[n]) else h
  }

  /** Segments and heap lie below the top of user space. */
  predicate BoundsOk(b: Bounds) {
    b.heapStart <= b.heapEnd < USERSTACK && forall i :: 0 <= i < |b.regions| ==> End(b.regions[i]) < USERSTACK
  }

  /** sys_sbrk's arithmetic on the 32-bit type long. */
  function Signed32(x: int): int { (x + 0x8000_0000) % 0x1_0000_0000 - 0x8000_0000 }

  datatype SbrkResult = SbrkEnomem | SbrkEinval | SbrkOk(oldEnd: nat, newEnd: nat)

  /** When sys_sbrk refuses, and why; on unbounded integers. */
  ghost predicate SbrkSpec(b: Bounds, increment: int, r: SbrkResult) {
    && (r.SbrkEnomem? <==> increment > 0 && b.heapEnd * PAGE_SIZE + increment >= STACK_BASE * PAGE_SIZE)
    && (r.SbrkEinval? <==>
          && !r.SbrkEnomem?
          && (b.heapEnd * PAGE_SIZE + increment < b.heapStart * PAGE_SIZE || increment % PAGE_SIZE != 0))
    && (r.SbrkOk? ==> r.oldEnd == b.heapEnd && r.newEnd * PAGE_SIZE == b.heapEnd * PAGE_SIZE + increment)
  }

  /** The checks of sys_sbrk, made on 32-bit longs whose sum may wrap. */
  method CheckSbrk(b: Bounds, increment: int) returns (r: SbrkResult)
    requires BoundsOk(b) && -0x8000_0000 <= increment < 0x8000_0000
    ensures SbrkSpec(b, increment, r)
    ensures r.SbrkOk? ==> BoundsOk(b.(heapEnd := r.newEnd)) && (increment < 0 <==> r.newEnd < r.oldEnd)
  {
    var oldEnd := Signed32(b.heapEnd * PAGE_SIZE);
    if increment == 0 {
      return SbrkOk(b.heapEnd, b.heapEnd);
    }
    var newEnd := Signed32(oldEnd + increment);
    if (increment > 0 && newEnd < oldEnd) || (increment < 0 && newEnd < Signed32(b.heapStart * PAGE_SIZE)) {
      return if increment > 0 then SbrkEnomem else SbrkEinval;
    }
    if increment > 0 && newEnd >= STACK_BASE * PAGE_SIZE {
      return SbrkEnomem;
    }
    if increment % PAGE_SIZE != 0 {
      return SbrkEinval;
    }
    return SbrkOk(b.heapEnd, newEnd / PAGE_SIZE);
  }

  datatype FaultResult = Efault | Enomem | Ok(frame: nat)

  class Vm {
    const cm: C.Coremap
    const swap: B.Bitmap
    var ram: seq<Page>
    var disk: seq<Page>
    var tables: map<nat, seq<Pte>>
    var spaces: map<nat, Bounds>
    /** The address spaces whose page table ends in an entry that was freed. */
    var dangling: set<nat>
    ghost var pages: map<Key, Loc>
    ghost var slotKey: map<nat, Key>

    ghost function View(): State
      reads this, cm, cm.frames, swap, swap.v
      requires swap.Valid()
    {
      State(cm.frames[..], ram, disk, swap.View(), pages, slotKey, spaces)
    }

    ghost predicate Valid()
      reads this, cm, cm.frames, swap, swap.v
    {
      Sound() && dangling == {}
    }

    /** All but the ends of the page tables is in order. */
    ghost predicate Sound()
      reads this, cm, cm.frames, swap, swap.v
    {
      && (cm.frames as object) != (swap.v as object)
      && cm.Valid() && swap.Valid()
      && Inv(View())
      && tables.Keys == spaces.Keys && Agree(tables, pages)
      && forall a :: a in spaces ==> BoundsOk(spaces[a])
    }

    /** Boot: an empty machine over a bootstrapped coremap and swap bitmap. */
    constructor (cm: C.Coremap, swap: B.Bitmap, ram: seq<Page>, disk: seq<Page>)
      requires (cm.frames as object) != (swap.v as object)
      requires cm.Valid() && swap.Valid() && |ram| == cm.frames.Length && |disk| == swap.nbits
      requires forall i :: 0 <= i < cm.frames.Length ==> cm.frames[i].state != C.Used
      requires forall i :: 0 <= i < swap.nbits ==> !swap.View()[i]
      ensures Valid() && this.cm == cm && this.swap == swap && spaces == map[] && pages == map[]
    {
      this.cm, this.swap, this.ram, this.disk := cm, swap, ram, disk;
      tables, spaces, pages, slotKey := map[], map[], map[], map[];
      dangling := {};
    }

    /** A resident page sits in a managed frame. */
    lemma FrameOfEntry(s: State, k: Key, f: nat)
      requires Valid() && s == View() && k in pages && pages[k] == InFrame(f)
      ensures cm.memStart <= f < cm.frames.Length && cm.frames[f].state == C.Used
    {
      assert EntryOk(s, k);
    }

    // ----------------------------------------------------------------
    // Kernel memory

    /** The number of free frames. */
    ghost function Room(): nat
      reads cm.frames
    {
      C.FreeCount(cm.frames[..], cm.memStart, cm.frames.Length)
    }

    /** One allocation of kernel memory, as far as it claims frames. */
    method Claim(k: Kmem) returns (ok: bool, ghost got: set<nat>)
      requires Valid()
      modifies this`ram, cm`count, cm.frames
      ensures Valid() && SameMemory(old(View()), View())
      ensures ok <==> k.ok && k.claims <= old(Room())
      ensures |got| == Least(k.claims, old(Room())) && Room() == old(Room()) - |got|
      ensures C.Claims(old(cm.frames[..]), cm.frames[..], cm.memStart, got)
    {
      ok, got := k.ok, {};
      ghost var s := View();
      C.ClaimsNone(s.frames, cm.memStart);
      var i := 0;
      while i < k.claims
        invariant i <= k.claims && i <= old(Room()) && Valid() && SameMemory(s, View())
        invariant |got| == i && Room() == old(Room()) - i && C.Claims(s.frames, cm.frames[..], cm.memStart, got)
      {
        ghost var frames := cm.frames[..];
        var f := ClaimOne();
        if f == 0 {
          return false, got;
        }
        C.ClaimsMore(s.frames, frames, cm.memStart, got, f);
        i, got := i + 1, got + {f};
      }
    }

    /** alloc_kpages(1), as kmalloc calls it. */
    method ClaimOne() returns (f: nat)
      requires Valid()
      modifies this`ram, cm`count, cm.frames
      ensures Valid() && SameMemory(old(View()), View()) && (f == 0 <==> old(Room()) == 0)
      ensures f == 0 ==> cm.frames[..] == old(cm.frames[..])
      ensures f > 0 ==> cm.memStart <= f && C.FreeRun(old(cm.frames[..]), f, 1) && Room() == old(Room()) - 1
      ensures f > 0 ==> cm.frames[..] == C.Claimed(old(cm.frames[..]), f, 1)
    {
      C.NoRunOfOne(cm.frames[..], cm.memStart);
      cm.CountFree();
      ghost var frames := cm.frames[..];
      f := AllocKpages(1);
      if f > 0 {
        C.BusyClaimed(frames, cm.memStart, f, 1);
        cm.CountFree();
      }
    }

    /** kfree gives back pages of its own: those of gives that are kernel chunks
        of one. frames0 and got are the state and the claims before. */
    method GiveBack(gives: seq<nat>, ghost frames0: seq<C.Frame>, ghost got: set<nat>)
      requires Sound() && C.Traffic(frames0, cm.frames[..], cm.memStart, got, [])
      modifies cm`count, cm.frames
      ensures Sound() && SameMemory(old(View()), View())
      ensures C.Traffic(frames0, cm.frames[..], cm.memStart, got, gives)
    {
      ghost var s := View();
      for i := 0 to |gives|
        invariant Sound() && SameMemory(s, View())
        invariant C.Traffic(frames0, cm.frames[..], cm.memStart, got, gives[..i])
      {
        ghost var frames := cm.frames[..];
        C.TrafficGive(frames0, frames, cm.memStart, got, gives[..i], gives[i]);
        assert gives[..i + 1] == gives[..i] + [gives[i]];
        GiveOne(gives[i]);
      }
      assert gives[..|gives|] == gives;
    }

    method GiveOne(f: nat)
      requires Sound()
      modifies cm`count, cm.frames
      ensures Sound() && SameMemory(old(View()), View())
      ensures cm.frames[..] ==
        if C.CanGive(old(cm.frames[..]), cm.memStart, f) then old(cm.frames[..])[f := C.FREE] else old(cm.frames[..])
    {
      ghost var frames := cm.frames[..];
      if cm.memStart <= f < cm.frames.Length && cm.frames[f].state == C.Fixed && cm.frames[f].chunk == 1 {
        FreeKpages(f);
        assert C.Freed(frames, f, 1) == frames[f := C.FREE];
      }
    }

    // ----------------------------------------------------------------
    // Faults

    /** read_swap_disk; fails exactly when the slot is not marked. */
    method ReadSwapDisk(f: nat, d: nat, unmark: bool) returns (failed: bool)
      requires swap.Valid() && f < |ram| && d < swap.nbits == |disk|
      modifies this`ram, swap.v
      ensures swap.Valid() && failed == !old(swap.View())[d]
      ensures failed ==> ram == old(ram) && swap.View() == old(swap.View())
      ensures !failed ==> ram == old(ram)[f := disk[d]]
      ensures !failed ==> swap.View() == if unmark then old(swap.View())[d := false] else old(swap.View())
    {
      var marked := swap.IsSet(d);
      if !marked {
        return true;
      }
      ram := ram[f := disk[d]];
      if unmark {
        swap.Unmark(d);
      }
      return false;
    }

    /** The SWAPPED branch of vm_fault; 0 means no free frame. */
    method FaultSwapped(a: nat, i: nat) returns (f: nat)
      requires Valid() && a in tables && i < |tables[a]| && tables[a][i].loc.OnDisk?
      modifies this`ram, this`tables, this`pages, this`slotKey, cm`count, cm.frames, swap.v
      ensures Valid() && SameMemory(old(View()), View())
      ensures f == 0 <==> old(Room()) == 0
      ensures f == 0 ==> View() == old(View()) && tables == old(tables)
      ensures f > 0 ==> f < cm.frames.Length && cm.frames[f].state == C.Used && f >= cm.memStart
      ensures f > 0 ==> pages == old(pages)[Key(a, old(tables)[a][i].vpage) := InFrame(f)]
      ensures f > 0 ==> old(cm.frames[f]).state == C.Free && C.SameKernel(old(cm.frames[..]), cm.frames[..])
    {
      ghost var s := View();
      f := FrameFor(a, tables[a][i].vpage, false);
      if f > 0 {
        SwapBack(a, i, f, s);
      } else {
        assert View() == s;
      }
    }

    /** allocate_user_page, and how many frames are left. */
    method FrameFor(a: nat, vp: nat, copyCall: bool) returns (f: nat)
      requires cm.Valid()
      modifies cm`count, cm.frames
      ensures cm.Valid() && (f == 0 <==> old(Room()) == 0) && Room() == if f > 0 then old(Room()) - 1 else 0
      ensures f == 0 ==> cm.frames[..] == old(cm.frames[..])
      ensures f > 0 ==>
        && cm.memStart <= f < cm.frames.Length && old(cm.frames[f]).state == C.Free
        && cm.frames[..] == old(cm.frames[..])[f := C.Frame(C.Used, 1, a, vp, !copyCall)]
    {
      cm.CountFree();
      f := cm.AllocateUser(a, vp, copyCall);
      cm.CountFree();
    }

    /** All but the frames is as in s, where frame f was free; now it is the
        frame of page vp of a. */
    ghost predicate HasFrame(s: State, a: nat, vp: nat, f: nat, ref: bool)
      reads this, cm, cm.frames, swap, swap.v
    {
      && Inv(s) && cm.Valid() && swap.Valid() && (cm.frames as object) != (swap.v as object)
      && dangling == {} && tables.Keys == spaces.Keys && Agree(tables, pages)
      && (forall a :: a in spaces ==> BoundsOk(spaces[a]))
      && f < |s.frames| && s.frames[f].state == C.Free
      && View() == s.(frames := s.frames[f := C.Frame(C.Used, 1, a, vp, ref)])
    }

    /** The page comes back from the swap disk into its new frame. */
    method SwapBack(a: nat, i: nat, f: nat, ghost s: State)
      requires a in tables && i < |tables[a]| && tables[a][i].loc.OnDisk? && HasFrame(s, a, tables[a][i].vpage, f, true)
      modifies this`ram, this`tables, this`pages, this`slotKey, swap.v
      ensures Valid() && SameMemory(s, View()) && C.SameKernel(s.frames, cm.frames[..])
      ensures pages == s.pages[Key(a, old(tables)[a][i].vpage) := InFrame(f)]
    {
      var vp, d := tables[a][i].vpage, tables[a][i].loc.slot;
      ghost var k := Key(a, vp);
      EntryAt(tables, pages, a, i);
      assert EntryOk(s, k);
      SwapInKeeps(s, k, f, d, true);
      AgreeReplace(tables, pages, a, i, InFrame(f));
      var failed := ReadSwapDisk(f, d, true);
      assert !failed;
      tables := tables[a := tables[a][i := Pte(vp, InFrame(f))]];
      pages := pages[k := InFrame(f)];
      slotKey := slotKey - {d};
      assert View() == SwapIn(s, k, f, d, true);
    }

    /** The new-entry branch of vm_fault. The entry and its lock are allocated and
        linked; then, without a frame, they are freed again and 0 is returned. */
    method FaultNew(a: nat, vp: nat, k: Kmem, gives: seq<nat>) returns (f: nat, ghost got: set<nat>)
      requires Valid() && a in tables && Key(a, vp) !in pages
      modifies this`ram, this`tables, this`pages, this`dangling, cm`count, cm.frames
      ensures Sound() && SameMemory(old(View()), View())
      ensures f == 0 <==> !k.ok || old(Room()) <= k.claims
      ensures dangling == if k.ok && old(Room()) == k.claims then {a} else {}
      ensures |got| == Least(k.claims, old(Room()))
      ensures C.Traffic(old(cm.frames[..]), cm.frames[..], cm.memStart, got, if f == 0 then gives else [])
      ensures f == 0 ==> pages == old(pages)
      ensures f > 0 ==> cm.memStart <= f < cm.frames.Length && cm.frames[f].state == C.Used
      ensures f > 0 ==> pages == old(pages)[Key(a, vp) := InFrame(f)] && old(cm.frames[f]).state == C.Free
    {
      ghost var frames := cm.frames[..];
      C.SameKernelSelf(frames);
      C.SameIsTraffic(frames, frames, cm.memStart);
      var ok;
      ok, got := Claim(k);
      ghost var claimed := cm.frames[..];
      C.TrafficClaims(frames, frames, claimed, cm.memStart, {}, got);
      assert {} + got == got;
      f := 0;
      if ok {
        f := MapNew(a, vp);
      }
      if f == 0 {
        GiveBack(gives, frames, got);
      } else {
        C.TrafficSame(frames, claimed, cm.frames[..], cm.memStart, got);
        assert C.ClaimAt(frames, claimed, got, f);
      }
    }

    /** The frame for the new entry, which is already linked. */
    method MapNew(a: nat, vp: nat) returns (f: nat)
      requires Valid() && a in tables && Key(a, vp) !in pages
      modifies this`ram, this`tables, this`pages, this`dangling, cm`count, cm.frames
      ensures Sound() && SameMemory(old(View()), View())
      ensures f == 0 <==> old(Room()) == 0
      ensures f == 0 ==> View() == old(View()) && dangling == {a}
      ensures f > 0 ==> Valid() && cm.memStart <= f < cm.frames.Length && cm.frames[f].state == C.Used
      ensures f > 0 ==> pages == old(pages)[Key(a, vp) := InFrame(f)]
      ensures f > 0 ==> old(cm.frames[f]).state == C.Free && C.SameKernel(old(cm.frames[..]), cm.frames[..])
    {
      ghost var s, k := View(), Key(a, vp);
      f := FrameFor(a, vp, false);
      if f == 0 {
        dangling := dangling + {a};
        assert View() == s;
        return;
      }
      MapPageKeeps(s, k, f, ZeroPage(), true);
      AgreeAppend(tables, pages, a, vp, InFrame(f));
      ram := ram[f := ZeroPage()];
      tables := tables[a := tables[a] + [Pte(vp, InFrame(f))]];
      pages := pages[k := InFrame(f)];
      assert View() == MapPage(s, k, f, ZeroPage(), true);
    }

    /** The reference bit set when the mapping enters the TLB. */
    method Touch(f: nat)
      requires Valid() && cm.memStart <= f < cm.frames.Length && cm.frames[f].state == C.Used
      modifies cm.frames
      ensures Valid() && SameMemory(old(View()), View())
      ensures cm.frames[f].ref && C.SameKernel(old(cm.frames[..]), cm.frames[..])
    {
      ghost var s := View();
      cm.Touch(f);
      SameUsedKeeps(s, cm.frames[..], ram);
      assert View() == s.(frames := cm.frames[..], ram := ram);
    }

    /**
     vm_fault. Whatever happens, no page of any address space changes; on
     success the page is resident. k is what the allocation of a new entry and
     its lock does, and gives the frames kfree gives back when they are freed
     again. A new entry for which no frame is left is freed while the table
     still ends in it.
     */
    method VmFault(a: nat, address: nat, k: Kmem, gives: seq<nat>) returns (r: FaultResult)
      requires Valid()
      modifies this`ram, this`tables, this`pages, this`slotKey, this`dangling, cm`count, cm.frames, swap.v
      ensures Sound() && SameMemory(old(View()), View())
      ensures dangling == if LeavesDangling(old(View()), cm.memStart, a, address / PAGE_SIZE, k) then {a} else {}
      ensures r.Efault? <==> !Present(spaces, a, address / PAGE_SIZE)
      ensures !r.Ok? <==> FaultFails(old(View()), cm.memStart, a, address / PAGE_SIZE, k)
      ensures !r.Ok? ==> pages == old(pages)
      ensures r.Ok? ==> MadeResident(old(View()), View(), Key(a, address / PAGE_SIZE))
      ensures r.Ok? ==> pages[Key(a, address / PAGE_SIZE)] == InFrame(r.frame)
      ensures FaultTraffic(old(View()), View(), cm.memStart, a, address / PAGE_SIZE, k, if r.Ok? then [] else gives)
    {
      ghost var s := View();
      var vp := address / PAGE_SIZE;
      if a !in spaces || !ValidPage(spaces[a], vp) {
        C.SameKernelSelf(s.frames);
        return Efault;
      }
      var f := FindFrame(a, vp, k, gives);
      if f == 0 {
        return Enomem;
      }
      ghost var frames := cm.frames[..];
      Touch(f);
      FaultTrafficSame(s, frames, View(), cm.memStart, a, vp, k);
      return Ok(f);
    }

    /** The search for the entry, and what is done if the page is swapped out or
        there is no entry; 0 stands for the error. */
    method FindFrame(a: nat, vp: nat, k: Kmem, gives: seq<nat>) returns (f: nat)
      requires Valid() && Present(spaces, a, vp)
      modifies this`ram, this`tables, this`pages, this`slotKey, this`dangling, cm`count, cm.frames, swap.v
      ensures Sound() && SameMemory(old(View()), View())
      ensures dangling == if LeavesDangling(old(View()), cm.memStart, a, vp, k) then {a} else {}
      ensures f == 0 <==> FaultFails(old(View()), cm.memStart, a, vp, k)
      ensures f == 0 ==> pages == old(pages)
      ensures f > 0 ==> MadeResident(old(View()), View(), Key(a, vp)) && pages[Key(a, vp)] == InFrame(f)
      ensures f > 0 ==> cm.memStart <= f < cm.frames.Length && cm.frames[f].state == C.Used
      ensures FaultTraffic(old(View()), View(), cm.memStart, a, vp, k, if f > 0 then [] else gives)
    {
      var i := Find(tables[a], vp);
      Found(tables, pages, a, vp);
      C.SameKernelSelf(cm.frames[..]);
      if i == |tables[a]| {
        ghost var got;
        f, got := FaultNew(a, vp, k, gives);
      } else {
        EntryAt(tables, pages, a, i);
        if tables[a][i].loc.OnDisk? {
          f := FaultSwapped(a, i);
        } else {
          f := tables[a][i].loc.frame;
          FrameOfEntry(View(), Key(a, vp), f);
        }
      }
    }

    // ----------------------------------------------------------------
    // Eviction

    /** write_swap_disk; fails exactly when every slot is marked. */
    method WriteSwapDisk(f: nat) returns (r: Option<nat>)
      requires swap.Valid() && f < |ram| && |disk| == swap.nbits
      modifies this`disk, swap.v
      ensures swap.Valid() && |disk| == swap.nbits
      ensures r.None? <==> B.AllSet(old(swap.View()))
      ensures r.Some? ==>
        && B.IsLowestClear(old(swap.View()), r.value) && swap.View() == old(swap.View())[r.value := true]
        && disk == old(disk)[r.value := ram[f]]
    {
      r := swap.Alloc();
      if r.Some? {
        disk := disk[r.value := ram[f]];
      }
    }

    /** The second half of evict_page: the victim's contents go to the swap
        disk and its entry becomes SWAPPED. None is the panic when the disk is
        full. The ghost argument is the state before the victim was marked. */
    method SwapOutVictim(v: nat, ghost s: State) returns (r: Option<nat>)
      requires Inv(s) && v < |s.frames| && s.frames[v].state == C.Used
      requires swap.Valid() && cm.Valid() && (cm.frames as object) != (swap.v as object)
      requires View() == s.(frames := C.Marked(s.frames, v))
      requires dangling == {} && tables.Keys == spaces.Keys && Agree(tables, pages) && forall a :: a in spaces ==>
        BoundsOk(spaces[a])
      modifies this`disk, this`tables, this`pages, this`slotKey, swap.v
      ensures r.None? <==> B.AllSet(s.slots)
      ensures r.Some? ==>
        && Valid() && r.value < |s.slots| && !s.slots[r.value] && View() == SwapOut(s, v, r.value)
        && SameMemory(s, View())
    {
      var a, vp := cm.frames[v].owner, cm.frames[v].vpage;
      ghost var k := Key(a, vp);
      assert FrameOk(s, v) && Owner(s.frames[v]) == k;
      assert EntryOk(s, k);
      var i := Find(tables[a], vp);
      Found(tables, pages, a, vp);
      EntryAt(tables, pages, a, i);
      assert tables[a][i].loc == InFrame(v);
      r := WriteSwapDisk(v);
      if r.None? {
        return;
      }
      var d := r.value;
      SwapOutKeeps(s, v, d);
      AgreeReplace(tables, pages, a, i, OnDisk(d));
      tables := tables[a := tables[a][i := Pte(vp, OnDisk(d))]];
      pages := pages[k := OnDisk(d)];
      slotKey := slotKey[d := k];
      assert View() == SwapOut(s, v, d);
    }

    /**
     evict_page: the clock chooses a used frame, and the page it held can be
     read as before although it is now on the swap disk. None is the panic when
     the disk is full. There must be a used frame, or the clock never stops.
     */
    method Evict() returns (r: Option<nat>)
      requires Valid() && exists i :: 0 <= i < cm.frames.Length && cm.frames[i].state == C.Used
      modifies this`disk, this`tables, this`pages, this`slotKey, cm`hand, cm.frames, swap.v
      ensures r.None? <==> B.AllSet(old(swap.View()))
      ensures r.Some? ==>
        && Valid() && SameMemory(old(View()), View())
        && r.value < cm.frames.Length && old(cm.frames[r.value]).state == C.Used
        && cm.frames[r.value].state == C.InEviction
        && C.ClockChoice(old(cm.frames[..]), old(cm.hand), r.value)
        && cm.frames[..] == C.Marked(C.AfterClock(old(cm.frames[..]), old(cm.hand), r.value), r.value)
        && exists d: nat ::
             && d < swap.nbits && !old(swap.View())[d]
             && pages == old(pages)[Owner(old(cm.frames[r.value])) := OnDisk(d)]
    {
      ghost var s0 := View();
      var v := cm.SelectVictim();
      ghost var swept := C.AfterClock(s0.frames, old(cm.hand), v);
      SweptSame(s0, old(cm.hand), v);
      ghost var s := s0.(frames := swept);
      SameUsedKeeps(s0, swept, s0.ram);
      assert s == s0.(frames := swept, ram := s0.ram);
      assert View() == s.(frames := C.Marked(s.frames, v));
      var slot := SwapOutVictim(v, s);
      if slot.None? {
        return None;
      }
      assert pages == s0.pages[Owner(s0.frames[v]) := OnDisk(slot.value)];
      return Some(v);
    }

    // ----------------------------------------------------------------
    // Address spaces

    /** as_create, for an address space a not in use. */
    method AsCreate(a: nat, k: Kmem, gives: seq<nat>) returns (ok: bool)
      requires Valid() && a !in spaces
      modifies this`ram, this`tables, this`spaces, cm`count, cm.frames
      ensures Valid() && (ok <==> k.ok && k.claims <= old(Room()))
      ensures spaces == if ok then old(spaces)[a := Bounds([], 0, 0)] else old(spaces)
      ensures tables == if ok then old(tables)[a := []] else old(tables)
      ensures forall k :: Read(View(), k) == Read(old(View()), k)
      ensures ok ==> forall k :: k in pages ==> k.space != a
      ensures C.Grew(old(cm.frames[..]), cm.frames[..], cm.memStart, Least(k.claims, old(Room())),
                     if ok then [] else gives)
    {
      ok := Allocate(k, gives);
      if ok {
        NewSpace(a);
      }
    }

    /** Kernel memory for a descriptor; gives is what kfree gives back of it when
        that fails. */
    method Allocate(k: Kmem, gives: seq<nat>) returns (ok: bool)
      requires Valid()
      modifies this`ram, cm`count, cm.frames
      ensures Valid() && SameMemory(old(View()), View()) && (ok <==> k.ok && k.claims <= old(Room()))
      ensures C.Grew(old(cm.frames[..]), cm.frames[..], cm.memStart, Least(k.claims, old(Room())),
                     if ok then [] else gives)
    {
      ghost var frames, got := cm.frames[..], {};
      C.SameKernelSelf(frames);
      C.SameIsTraffic(frames, frames, cm.memStart);
      ok, got := Claim(k);
      C.TrafficClaims(frames, frames, cm.frames[..], cm.memStart, {}, got);
      assert {} + got == got;
      if !ok {
        GiveBack(gives, frames, got);
      }
    }

    method NewSpace(a: nat)
      requires Valid() && a !in spaces
      modifies this`tables, this`spaces
      ensures Valid() && spaces == old(spaces)[a := Bounds([], 0, 0)] && tables == old(tables)[a := []]
      ensures forall k :: Read(View(), k) == Read(old(View()), k)
      ensures forall k :: k in pages ==> k.space != a
    {
      ghost var s := View();
      NoPages(s, a);
      AgreeNew(tables, pages, a);
      SpacesKeeps(s, spaces[a := Bounds([], 0, 0)]);
      tables, spaces := tables[a := []], spaces[a := Bounds([], 0, 0)];
      assert View() == s.(spaces := spaces);
    }

    /** Changes of regions and heap bounds leave memory alone. */
    method SetBounds(a: nat, b: Bounds)
      requires Valid() && a in spaces && BoundsOk(b)
      modifies this`spaces
      ensures Valid() && spaces == old(spaces)[a := b]
      ensures forall k :: Read(View(), k) == Read(old(View()), k)
    {
      ghost var s := View();
      SpacesKeeps(s, spaces[a := b]);
      spaces := spaces[a := b];
      assert View() == s.(spaces := spaces);
    }

    /** as_define_region for a segment in user space, at byte addresses. */
    method AsDefineRegion(a: nat, vaddr: nat, memsize: nat, k: Kmem, gives: seq<nat>) returns (ok: bool)
      requires Valid() && a in spaces && End(RegionOf(vaddr, memsize)) < USERSTACK
      modifies this`ram, this`spaces, cm`count, cm.frames
      ensures Valid() && (ok <==> k.ok && k.claims <= old(Room()))
      ensures forall k :: Read(View(), k) == Read(old(View()), k)
      ensures spaces ==
        if ok then old(spaces)[a := AddRegion(old(spaces)[a], RegionOf(vaddr, memsize))] else old(spaces)
      ensures C.Grew(old(cm.frames[..]), cm.frames[..], cm.memStart, Least(k.claims, old(Room())),
                     if ok then [] else gives)
    {
      ok := Allocate(k, gives);
      if ok {
        SetBounds(a, AddRegion(spaces[a], RegionOf(vaddr, memsize)));
      }
    }

    /** unmark_swap_bitmap */
    method UnmarkSwapBitmap(d: nat)
      requires swap.Valid() && d < swap.nbits
      modifies swap.v
      ensures swap.Valid() && swap.View() == old(swap.View())[d := false]
    {
      var marked := swap.IsSet(d);
      if marked {
        swap.Unmark(d);
      }
      assert old(swap.View())[d := false] == swap.View();
    }

    /** One entry is given up: its slot or frame is released and the entry
        unlinked, as in the loops of as_destroy and sys_sbrk. */
    method DropEntry(a: nat, i: nat)
      requires Valid() && a in tables && i < |tables[a]|
      modifies this`tables, this`pages, this`slotKey, cm`count, cm.frames, swap.v
      ensures Valid() && tables == old(tables)[a := old(tables)[a][..i] + old(tables)[a][i + 1..]]
      ensures pages == old(pages) - {Key(a, old(tables)[a][i].vpage)} && C.SameKernel(old(cm.frames[..]), cm.frames[..])
      ensures forall k ::
        Read(View(), k) == if k == Key(a, old(tables)[a][i].vpage) then ZeroPage() else Read(old(View()), k)
    {
      ghost var s := View();
      ghost var k := Key(a, tables[a][i].vpage);
      EntryAt(tables, pages, a, i);
      AgreeRemove(tables, pages, a, i);
      assert EntryOk(s, k);
      match tables[a][i].loc
      case OnDisk(d) =>
        DropSwappedKeeps(s, k, d);
        UnmarkSwapBitmap(d);
        tables, pages, slotKey := tables[a := tables[a][..i] + tables[a][i + 1..]], pages - {k}, slotKey - {d};
        assert View() == DropSwapped(s, k, d);
      case InFrame(f) =>
        DropMappedKeeps(s, k, f);
        FrameOfEntry(s, k, f);
        var failed := cm.Release(f);
        assert !failed;
        tables, pages := tables[a := tables[a][..i] + tables[a][i + 1..]], pages - {k};
        assert View() == DropMapped(s, k, f);
    }

    /** as_destroy: the address space and all its frames and slots are gone, and
        every other one reads as before. kfree gives back the frames of gives. */
    method AsDestroy(a: nat, gives: seq<nat>)
      requires Valid() && a in spaces
      modifies this`tables, this`spaces, this`pages, this`slotKey, cm`count, cm.frames, swap.v
      ensures Valid() && spaces == old(spaces) - {a}
      ensures forall k :: Read(View(), k) == if k.space == a then ZeroPage() else Read(old(View()), k)
      ensures forall k :: k in pages ==> k.space != a
      ensures SameEntries(old(pages), pages, a)
      ensures C.Traffic(old(cm.frames[..]), cm.frames[..], cm.memStart, {}, gives)
    {
      ghost var frames := cm.frames[..];
      DropSpace(a);
      C.SameIsTraffic(frames, cm.frames[..], cm.memStart);
      GiveBack(gives, frames, {});
    }

    method DropSpace(a: nat)
      requires Valid() && a in spaces
      modifies this`tables, this`spaces, this`pages, this`slotKey, cm`count, cm.frames, swap.v
      ensures Valid() && spaces == old(spaces) - {a}
      ensures forall k :: Read(View(), k) == if k.space == a then ZeroPage() else Read(old(View()), k)
      ensures forall k :: k in pages ==> k.space != a
      ensures SameEntries(old(pages), pages, a) && C.SameKernel(old(cm.frames[..]), cm.frames[..])
    {
      ghost var frames0 := cm.frames[..];
      C.SameKernelSelf(frames0);
      while tables[a] != []
        invariant Valid() && a in tables && spaces == old(spaces)
        invariant forall k: Key :: k.space != a ==> Read(View(), k) == Read(old(View()), k)
        invariant SameEntries(old(pages), pages, a) && C.SameKernel(frames0, cm.frames[..])
        decreases |tables[a]|
      {
        ghost var frames := cm.frames[..];
        DropEntry(a, 0);
        C.SameKernelTrans(frames0, frames, cm.frames[..]);
      }
      ghost var s := View();
      AgreeGone(tables, pages, a);
      SpacesKeeps(s, spaces - {a});
      tables, spaces := tables - {a}, spaces - {a};
      assert View() == s.(spaces := spaces);
    }

    /** as_prepare_load: the heap starts, empty, after the last segment. */
    method AsPrepareLoad(a: nat)
      requires Valid() && a in spaces
      modifies this`spaces
      ensures Valid() && forall k :: Read(View(), k) == Read(old(View()), k)
      ensures var regions := old(spaces)[a].regions;
        spaces == old(spaces)[a := Bounds(regions, HighestEnd(regions), HighestEnd(regions))]
    {
      var regions, heapStart := spaces[a].regions, 0;
      for i := 0 to |regions|
        invariant heapStart == HighestEnd(regions[..i])
      {
        assert regions[..i + 1][..i] == regions[..i];
        if End(regions[i]) > heapStart {
          heapStart := End(regions[i]);
        }
      }
      assert regions[..|regions|] == regions;
      SetBounds(a, Bounds(regions, heapStart, heapStart));
    }

    /** One page of as_copy: a fresh frame with the parent's contents, whether
        they are in memory or on the swap disk. */
    method CopyEntry(a: nat, b: nat, i: nat) returns (f: nat)
      requires Valid() && a in tables && b in tables && a != b && i < |tables[a]|
      requires Key(b, tables[a][i].vpage) !in pages
      modifies this`ram, this`tables, this`pages, cm`count, cm.frames, swap.v
      ensures Valid() && (f == 0 <==> old(Room()) == 0)
      ensures f == 0 ==> View() == old(View()) && tables == old(tables)
      ensures f > 0 ==> IsCopied(old(View()), View(), old(tables), tables, a, b, i, f)
      ensures Room() == if f > 0 then old(Room()) - 1 else 0
    {
      ghost var s := View();
      var vp := tables[a][i].vpage;
      EntryAt(tables, pages, a, i);
      assert EntryOk(s, Key(a, vp));
      f := FrameFor(b, vp, true);
      if f > 0 {
        FillCopy(a, b, i, f, s);
      }
    }

    /** The new frame is filled and gets its entry; s is the state before it was
        allocated. */
    method FillCopy(a: nat, b: nat, i: nat, f: nat, ghost s: State)
      requires a in tables && b in tables && a != b && i < |tables[a]| && Key(b, tables[a][i].vpage) !in pages
      requires HasFrame(s, b, tables[a][i].vpage, f, false)
      modifies this`ram, this`tables, this`pages, swap.v
      ensures Valid() && IsCopied(s, View(), old(tables), tables, a, b, i, f)
    {
      var vp := tables[a][i].vpage;
      ghost var k := Key(b, vp);
      EntryAt(tables, pages, a, i);
      assert EntryOk(s, Key(a, vp));
      ghost var page := Read(s, Key(a, vp));
      MapPageKeeps(s, k, f, page, false);
      AgreeAppend(tables, pages, b, vp, InFrame(f));
      CopyContents(tables[a][i].loc, f, page);
      tables := tables[b := tables[b] + [Pte(vp, InFrame(f))]];
      pages := pages[k := InFrame(f)];
      assert View() == MapPage(s, k, f, page, false);
    }

    /** The contents come from the swap disk or from the parent's frame. */
    method CopyContents(loc: Loc, f: nat, ghost page: Page)
      requires swap.Valid() && f < |ram| && |disk| == swap.nbits
      requires match loc
        case OnDisk(d) => d < swap.nbits && swap.View()[d] && page == disk[d]
        case InFrame(g) => g < |ram| && page == ram[g]
      modifies this`ram, swap.v
      ensures swap.Valid() && swap.View() == old(swap.View()) && ram == old(ram)[f := page]
    {
      match loc
      case OnDisk(d) =>
        var failed := ReadSwapDisk(f, d, false);
        assert !failed;
      case InFrame(g) =>
        ram := ram[f := ram[g]];
    }

    /**
     as_copy. The first allocation of mem is that of the address space, the next
     n are those of its n entries and their locks, the rest those of its segments.
     It succeeds exactly when all of them do and the frames they claim, and one
     for every entry, are there. On success the child has the parent's segments,
     heap and contents at every page, all of it in frames of its own; in every
     case the parent and all others are as before. On failure kfree gives back
     the frames of gives.
     */
    method AsCopy(a: nat, b: nat, mem: seq<Kmem>, gives: seq<nat>) returns (ok: bool)
      requires Valid() && a in spaces && b !in spaces
      modifies this`ram, this`tables, this`spaces, this`pages, this`slotKey, cm`count, cm.frames, swap.v
      ensures Valid()
      ensures ok <==> !CopyFails(old(View()), cm.memStart, a, mem)
      ensures !ok ==> SameMemory(old(View()), View()) && pages == old(pages)
      ensures !ok ==>
        C.GrewAtMost(old(cm.frames[..]), cm.frames[..], cm.memStart, CopyClaims(old(View()), a, mem), gives)
      ensures ok ==> spaces == old(spaces)[b := old(spaces)[a]] && CopyMade(old(View()), View(), a, b)
      ensures ok ==> C.Grew(old(cm.frames[..]), cm.frames[..], cm.memStart, CopyClaims(old(View()), a, mem), [])
    {
      ghost var s0, t, room, got := View(), tables[a], Room(), {};
      TableSize(tables, pages, a);
      NoPages(s0, b);
      ok, got := CopySpace(a, b, mem, gives, t, s0);
      CopyCounts(s0, a, mem, |t|, room, cm.memStart, |got|, ok);
    }

    /** as_copy, with an account of the frames it took. */
    method CopySpace(a: nat, b: nat, mem: seq<Kmem>, gives: seq<nat>, ghost t: seq<Pte>, ghost s0: State)
      returns (ok: bool, ghost got: set<nat>)
      requires Valid() && a in spaces && b !in spaces && s0 == View() && t == tables[a]
      requires forall k :: k in pages ==> k.space != b
      modifies this`ram, this`tables, this`spaces, this`pages, this`slotKey, cm`count, cm.frames, swap.v
      ensures Valid() && Account(mem, old(Room()), |t|, |t| + 1 + |s0.spaces[a].regions|, |got|, ok)
      ensures C.Traffic(s0.frames, cm.frames[..], cm.memStart, got, if ok then [] else gives)
      ensures !ok ==> SameMemory(s0, View()) && pages == s0.pages
      ensures ok ==> spaces == s0.spaces[b := s0.spaces[a]] && CopyMade(s0, View(), a, b)
    {
      ghost var room := Room();
      ok, got := StartCopy(a, b, At(mem, 0), t, s0);
      AccountStart(mem, room, |t|, |got|, ok);
      if ok {
        ok, got := CopyInto(a, b, mem, gives, t, s0, room, got);
      } else {
        AccountEnd(mem, room, |t|, 1, |t| + 1 + |s0.spaces[a].regions|, |got|);
        GiveBack(gives, s0.frames, got);
      }
    }

    /** as_create as the first step of as_copy. */
    method StartCopy(a: nat, b: nat, k: Kmem, ghost t: seq<Pte>, ghost s0: State)
      returns (ok: bool, ghost got: set<nat>)
      requires Valid() && a in spaces && b !in spaces && s0 == View() && t == tables[a]
      requires forall k :: k in pages ==> k.space != b
      modifies this`ram, this`tables, this`spaces, cm`count, cm.frames
      ensures Valid() && (ok <==> k.ok && k.claims <= old(Room())) && |got| == Least(k.claims, old(Room()))
      ensures ok ==> HasCopied(a, b, t, s0, 0, old(Room()), got)
      ensures !ok ==> SameMemory(s0, View()) && C.Traffic(s0.frames, cm.frames[..], cm.memStart, got, [])
    {
      C.SameKernelSelf(s0.frames);
      C.SameIsTraffic(s0.frames, s0.frames, cm.memStart);
      ok, got := Claim(k);
      C.TrafficClaims(s0.frames, s0.frames, cm.frames[..], cm.memStart, {}, got);
      assert {} + got == got;
      if ok {
        NewSpace(b);
      }
    }

    /** What as_copy does with the new address space b. */
    method CopyInto(a: nat, b: nat, mem: seq<Kmem>, gives: seq<nat>,
                    ghost t: seq<Pte>, ghost s0: State, ghost room: nat, ghost got0: set<nat>)
      returns (ok: bool, ghost got: set<nat>)
      requires HasCopied(a, b, t, s0, 0, room, got0) && a in s0.spaces && b !in s0.spaces
      requires Account(mem, room, |t|, 1, |got0|, true) && forall k :: k in s0.pages ==> k.space != b
      modifies this`ram, this`tables, this`spaces, this`pages, this`slotKey, cm`count, cm.frames, swap.v
      ensures Valid() && Account(mem, room, |t|, |t| + 1 + |s0.spaces[a].regions|, |got|, ok)
      ensures C.Traffic(s0.frames, cm.frames[..], cm.memStart, got, if ok then [] else gives)
      ensures !ok ==> SameMemory(s0, View()) && pages == s0.pages
      ensures ok ==> spaces == s0.spaces[b := s0.spaces[a]] && CopyMade(s0, View(), a, b)
    {
      ok, got := CopyParts(a, b, |spaces[a].regions|, mem, t, s0, room, got0);
      if ok {
        FinishCopy(a, b, s0);
      } else {
        Abandon(b, gives, s0, got);
      }
    }

    /** The two loops of as_copy, over entries and segments. */
    method CopyParts(a: nat, b: nat, r: nat, mem: seq<Kmem>, ghost t: seq<Pte>, ghost s0: State, ghost room: nat,
                     ghost got0: set<nat>)
      returns (ok: bool, ghost got: set<nat>)
      requires HasCopied(a, b, t, s0, 0, room, got0) && Account(mem, room, |t|, 1, |got0|, true)
      modifies this`ram, this`tables, this`pages, cm`count, cm.frames, swap.v
      ensures b in tables && HasCopied(a, b, t, s0, |tables[b]|, room, got)
      ensures Account(mem, room, |t|, |t| + 1 + r, |got|, ok) && (ok ==> |tables[b]| == |t|)
    {
      ok, got := CopyAll(a, b, mem, t, s0, room, got0);
      if ok {
        ok, got := CopyRegions(a, b, r, mem, t, s0, room, got);
      } else {
        AccountEnd(mem, room, |t|, |t| + 1, |t| + 1 + r, |got|);
      }
    }

    /** The first i entries have been copied. Of room frames that were free, those
        of got went to kernel memory and i to the child. */
    ghost predicate HasCopied(a: nat, b: nat, t: seq<Pte>, s0: State, i: nat, room: int, got: set<nat>)
      reads this, cm, cm.frames, swap, swap.v
    {
      && Valid() && a in tables && b in tables && a != b && tables[a] == t
      && Copying(s0, View(), t, tables[b], a, b, i) && |got| + i + Room() == room
      && C.Traffic(s0.frames, cm.frames[..], cm.memStart, got, [])
    }

    /** The loop over the entries; it stops early when kernel memory or frames
        run out. */
    method CopyAll(a: nat, b: nat, mem: seq<Kmem>, ghost t: seq<Pte>, ghost s0: State, ghost room: nat,
                   ghost got0: set<nat>)
      returns (ok: bool, ghost got: set<nat>)
      requires HasCopied(a, b, t, s0, 0, room, got0) && Account(mem, room, |t|, 1, |got0|, true)
      modifies this`ram, this`tables, this`pages, cm`count, cm.frames, swap.v
      ensures b in tables && HasCopied(a, b, t, s0, |tables[b]|, room, got)
      ensures Account(mem, room, |t|, |t| + 1, |got|, ok) && (ok ==> |tables[b]| == |t|)
    {
      var n, i := |tables[a]|, 0;
      ok, got := true, got0;
      while i < n && ok
        invariant i <= n == |t| && HasCopied(a, b, t, s0, i, room, got) && (!ok ==> i < n)
        invariant Account(mem, room, |t|, if ok then i + 1 else i + 2, |got|, ok)
        decreases n - i, ok
      {
        ghost var spent := |got|;
        ok, got := CopyNext(a, b, i, At(mem, i + 1), t, s0, room, got);
        AccountNext(mem, room, |t|, i + 1, spent, |got|, ok);
        if ok {
          i := i + 1;
        }
      }
      if !ok {
        AccountEnd(mem, room, |t|, i + 2, |t| + 1, |got|);
      }
    }

    /** Kernel memory for one more part of the child. */
    method ClaimForCopy(a: nat, b: nat, i: nat, k: Kmem, ghost t: seq<Pte>, ghost s0: State, ghost room: nat,
                        ghost got0: set<nat>)
      returns (ok: bool, ghost got: set<nat>)
      requires HasCopied(a, b, t, s0, i, room, got0)
      modifies this`ram, cm`count, cm.frames
      ensures HasCopied(a, b, t, s0, i, room, got)
      ensures (ok <==> k.ok && |got0| + k.claims + i <= room) && |got| <= |got0| + k.claims
      ensures ok ==> |got| == |got0| + k.claims
    {
      ghost var s := View();
      ghost var more;
      ok, more := Claim(k);
      C.TrafficClaims(s0.frames, s.frames, cm.frames[..], cm.memStart, got0, more);
      got := got0 + more;
      CopyingSame(s0, s, View(), t, tables[b], a, b, i);
    }

    method CopyNext(a: nat, b: nat, i: nat, k: Kmem, ghost t: seq<Pte>, ghost s0: State, ghost room: nat,
                    ghost got0: set<nat>)
      returns (ok: bool, ghost got: set<nat>)
      requires i < |t| && HasCopied(a, b, t, s0, i, room, got0)
      modifies this`ram, this`tables, this`pages, cm`count, cm.frames, swap.v
      ensures HasCopied(a, b, t, s0, if ok then i + 1 else i, room, got)
      ensures (ok <==> k.ok && |got0| + k.claims + i + 1 <= room) && |got| <= |got0| + k.claims
      ensures ok ==> |got| == |got0| + k.claims
    {
      ok, got := ClaimForCopy(a, b, i, k, t, s0, room, got0);
      if ok {
        ok := CopyOne(a, b, i, t, s0, room, got);
      }
    }

    method CopyOne(a: nat, b: nat, i: nat, ghost t: seq<Pte>, ghost s0: State, ghost room: nat, ghost got: set<nat>)
      returns (ok: bool)
      requires i < |t| && HasCopied(a, b, t, s0, i, room, got)
      modifies this`ram, this`tables, this`pages, cm`count, cm.frames, swap.v
      ensures HasCopied(a, b, t, s0, if ok then i + 1 else i, room, got) && (ok <==> |got| + i < room)
    {
      ghost var s, tables0 := View(), tables;
      assert TableOk(tables[a], pages, a) && TableOk(tables[b], pages, b);
      Found(tables, pages, b, tables[a][i].vpage);
      assert !HasEntry(tables[b], tables[a][i].vpage);
      var f := CopyEntry(a, b, i);
      if f > 0 {
        CopyingNext(s0, s, View(), tables0, tables, a, b, i, f);
        C.TrafficSame(s0.frames, s.frames, cm.frames[..], cm.memStart, got);
      }
      return f > 0;
    }

    /** The loop over the segments allocates one descriptor for each. */
    method CopyRegions(a: nat, b: nat, r: nat, mem: seq<Kmem>, ghost t: seq<Pte>, ghost s0: State, ghost room: nat,
                       ghost got0: set<nat>)
      returns (ok: bool, ghost got: set<nat>)
      requires HasCopied(a, b, t, s0, |t|, room, got0) && Account(mem, room, |t|, |t| + 1, |got0|, true)
      modifies this`ram, cm`count, cm.frames
      ensures HasCopied(a, b, t, s0, |t|, room, got) && Account(mem, room, |t|, |t| + 1 + r, |got|, ok)
    {
      var n, j := |tables[a]|, 0;
      ok, got := true, got0;
      while j < r && ok
        invariant j <= r && n == |t| && HasCopied(a, b, t, s0, |t|, room, got) && (!ok ==> j < r)
        invariant Account(mem, room, |t|, if ok then |t| + 1 + j else |t| + 2 + j, |got|, ok)
        decreases r - j, ok
      {
        ghost var spent := |got|;
        ok, got := ClaimForCopy(a, b, n, At(mem, n + 1 + j), t, s0, room, got);
        AccountNext(mem, room, |t|, |t| + 1 + j, spent, |got|, ok);
        if ok {
          j := j + 1;
        }
      }
      if !ok {
        AccountEnd(mem, room, |t|, |t| + 2 + j, |t| + 1 + r, |got|);
      }
    }

    /** The segments and heap bounds are copied last. */
    method FinishCopy(a: nat, b: nat, ghost s0: State)
      requires Valid() && a in tables && b in tables && a != b && a in s0.spaces
      requires Copying(s0, View(), tables[a], tables[b], a, b, |tables[a]|)
      modifies this`spaces
      ensures Valid() && spaces == s0.spaces[b := s0.spaces[a]] && CopyMade(s0, View(), a, b)
    {
      ghost var s := View();
      CopyReads(s0, s, tables, a, b);
      SetBounds(b, spaces[a]);
      CopyMadeSame(s0, s, View(), a, b);
    }

    /** The failure paths of as_copy destroy the half-made child. */
    method Abandon(b: nat, gives: seq<nat>, ghost s0: State, ghost got: set<nat>)
      requires Valid() && b in spaces && b !in s0.spaces && exists t, u, a, i :: Copying(s0, View(), t, u, a, b, i)
      requires forall k :: k in s0.pages ==> k.space != b
      requires C.Traffic(s0.frames, cm.frames[..], cm.memStart, got, [])
      modifies this`tables, this`spaces, this`pages, this`slotKey, cm`count, cm.frames, swap.v
      ensures Valid() && SameMemory(s0, View()) && pages == s0.pages
      ensures C.Traffic(s0.frames, cm.frames[..], cm.memStart, got, gives)
    {
      ghost var frames := cm.frames[..];
      DropSpace(b);
      C.TrafficSame(s0.frames, frames, cm.frames[..], cm.memStart, got);
      assert s0.spaces[b := Bounds([], 0, 0)] - {b} == s0.spaces;
      GiveBack(gives, s0.frames, got);
    }

    // ----------------------------------------------------------------
    // sys_sbrk

    /** One turn of the loop in sys_sbrk: page vp loses its entry, if any. */
    method GiveUp(a: nat, vp: nat)
      requires Valid() && a in spaces
      modifies this`tables, this`pages, this`slotKey, cm`count, cm.frames, swap.v
      ensures Valid() && Cleared(old(View()), View(), a, vp, vp + 1)
    {
      var j := Find(tables[a], vp);
      Found(tables, pages, a, vp);
      if j < |tables[a]| {
        DropEntry(a, j);
      }
    }

    /** The loop: the top n heap pages below end are given up. */
    method Shrink(a: nat, end: nat, n: nat)
      requires Valid() && a in spaces && n <= end
      modifies this`tables, this`pages, this`slotKey, cm`count, cm.frames, swap.v
      ensures Valid() && Cleared(old(View()), View(), a, end - n, end)
    {
      ghost var s0 := View();
      for i := 0 to n
        invariant Valid() && Cleared(s0, View(), a, end - i, end)
      {
        ghost var s := View();
        GiveUp(a, end - (i + 1));
        ClearedMore(s0, s, View(), a, end - i - 1, end);
      }
    }

    /**
     sys_sbrk on 32-bit longs. It moves the heap end by exactly the increment,
     and pages given up read as zero even if the heap grows again. When it
     shrinks the heap, kfree gives back the frames of gives.
     */
    method Sbrk(a: nat, increment: int, gives: seq<nat>) returns (r: SbrkResult)
      requires Valid() && a in spaces && -0x8000_0000 <= increment < 0x8000_0000
      modifies this`tables, this`spaces, this`pages, this`slotKey, cm`count, cm.frames, swap.v
      ensures Valid() && SbrkSpec(old(spaces)[a], increment, r)
      ensures !r.SbrkOk? ==> View() == old(View())
      ensures r.SbrkOk? ==> spaces == old(spaces)[a := old(spaces)[a].(heapEnd := r.newEnd)]
      ensures r.SbrkOk? ==> ClearedReads(old(View()), View(), a, r.newEnd, r.oldEnd)
      ensures r.SbrkOk? ==> ClearedEntries(old(View()), View(), a, r.newEnd, r.oldEnd)
      ensures C.Traffic(old(cm.frames[..]), cm.frames[..], cm.memStart, {},
                        if r.SbrkOk? && increment < 0 then gives else [])
    {
      var b := spaces[a];
      C.SameKernelSelf(cm.frames[..]);
      C.SameIsTraffic(cm.frames[..], cm.frames[..], cm.memStart);
      r := CheckSbrk(b, increment);
      if r.SbrkOk? {
        if increment < 0 {
          ShrinkAndFree(a, b.heapEnd, b.heapEnd - r.newEnd, gives);
        }
        SetBounds(a, b.(heapEnd := r.newEnd));
      }
    }

    method ShrinkAndFree(a: nat, end: nat, n: nat, gives: seq<nat>)
      requires Valid() && a in spaces && n <= end
      modifies this`tables, this`pages, this`slotKey, cm`count, cm.frames, swap.v
      ensures Valid() && spaces == old(spaces)
      ensures ClearedReads(old(View()), View(), a, end - n, end) && ClearedEntries(old(View()), View(), a, end - n, end)
      ensures C.Traffic(old(cm.frames[..]), cm.frames[..], cm.memStart, {}, gives)
    {
      ghost var frames := cm.frames[..];
      Shrink(a, end, n);
      C.SameIsTraffic(frames, cm.frames[..], cm.memStart);
      GiveBack(gives, frames, {});
    }

    // ----------------------------------------------------------------
    // User accesses and kernel pages

    /** A user store: the access faults the page in, then writes it. */
    method Store(a: nat, vp: nat, page: Page, k: Kmem, gives: seq<nat>) returns (r: FaultResult)
      requires Valid()
      modifies this`ram, this`tables, this`pages, this`slotKey, this`dangling, cm`count, cm.frames, swap.v
      ensures Sound() && spaces == old(spaces)
      ensures dangling == if LeavesDangling(old(View()), cm.memStart, a, vp, k) then {a} else {}
      ensures r.Efault? <==> !Present(spaces, a, vp)
      ensures !r.Ok? <==> FaultFails(old(View()), cm.memStart, a, vp, k)
      ensures !r.Ok? ==> pages == old(pages)
      ensures r.Ok? ==> MadeResident(old(View()), View(), Key(a, vp))
      ensures FaultTraffic(old(View()), View(), cm.memStart, a, vp, k, if r.Ok? then [] else gives)
      ensures forall k :: Read(View(), k) == if r.Ok? && k == Key(a, vp) then page else Read(old(View()), k)
    {
      r := VmFault(a, vp * PAGE_SIZE, k, gives);
      if r.Ok? {
        ghost var s, key := View(), Key(a, vp);
        StorePageKeeps(s, key, page);
        ram := ram[r.frame := page];
        assert View() == StorePage(s, key, page);
      }
    }

    /** A user load returns the contents of the flat memory, unless the fault
        fails. */
    method Load(a: nat, vp: nat, k: Kmem, gives: seq<nat>) returns (r: FaultResult, page: Page)
      requires Valid()
      modifies this`ram, this`tables, this`pages, this`slotKey, this`dangling, cm`count, cm.frames, swap.v
      ensures Sound() && SameMemory(old(View()), View())
      ensures dangling == if LeavesDangling(old(View()), cm.memStart, a, vp, k) then {a} else {}
      ensures r.Efault? <==> !Present(spaces, a, vp)
      ensures !r.Ok? <==> FaultFails(old(View()), cm.memStart, a, vp, k)
      ensures !r.Ok? ==> pages == old(pages)
      ensures r.Ok? ==> page == Read(old(View()), Key(a, vp)) && MadeResident(old(View()), View(), Key(a, vp))
      ensures FaultTraffic(old(View()), View(), cm.memStart, a, vp, k, if r.Ok? then [] else gives)
    {
      r := VmFault(a, vp * PAGE_SIZE, k, gives);
      if !r.Ok? {
        return r, ZeroPage();
      }
      assert EntryOk(View(), Key(a, vp));
      assert Read(View(), Key(a, vp)) == ram[r.frame];
      page := ram[r.frame];
    }

    /** alloc_kpages */
    method AllocKpages(n: nat) returns (f: nat)
      requires Valid()
      modifies this`ram, cm`count, cm.frames
      ensures Valid() && SameMemory(old(View()), View())
      ensures f == 0 <==> n == 0 || C.NoRun(old(cm.frames[..]), cm.memStart, n)
      ensures f > 0 ==> cm.memStart <= f && C.FreeRun(old(cm.frames[..]), f, n) && C.IsChunk(cm.frames[..], f, n)
      ensures cm.frames[..] == if f > 0 then C.Claimed(old(cm.frames[..]), f, n) else old(cm.frames[..])
      ensures f > 0 ==> forall g :: f <= g < f + n ==> g < |ram| && ram[g] == ZeroPage()
    {
      ghost var s := View();
      f := cm.AllocateKernel(n);
      if f > 0 {
        ram := seq(|ram|, (g: nat) requires g < |ram| reads this => if f <= g < f + n then ZeroPage() else ram[g]);
        SameUsedKeeps(s, cm.frames[..], ram);
      }
      assert View() == s.(frames := cm.frames[..], ram := ram);
    }

    /** free_kpages on any frame. The page tables stay right exactly when it did
        not hold a user page. */
    method FreeKpages(f: nat)
      requires Sound() && f < cm.frames.Length
      modifies cm`count, cm.frames
      ensures cm.frames[..] == C.Freed(old(cm.frames[..]), f, old(cm.frames[f]).chunk)
      ensures Sound() <==> old(cm.frames[f]).state != C.Used
      ensures Sound() ==> SameMemory(old(View()), View())
    {
      ghost var s := View();
      cm.FreeKernel(f);
      assert View() == s.(frames := cm.frames[..]);
      if s.frames[f].state == C.Used {
        assert FrameOk(s, f);
        LosesEntry(s, cm.frames[..], f);
      } else {
        FreedSame(s, f);
        SameUsedKeeps(s, cm.frames[..], ram);
        assert View() == s.(frames := cm.frames[..], ram := ram);
      }
    }
  }

  /** A page whose frame was freed behind its back. */
  lemma LosesEntry(s: State, frames: seq<C.Frame>, f: nat)
    requires Inv(s) && f < |s.frames| && s.frames[f].state == C.Used
    requires frames == C.Freed(s.frames, f, 1) || (f < |frames| && frames[f].state == C.Free)
    ensures !Inv(s.(frames := frames))
  {
    var s2 := s.(frames := frames);
    assert FrameOk(s, f);
    assert !EntryOk(s2, Owner(s.frames[f]));
  }

  /** Freeing a chunk that holds no user page. */
  lemma FreedSame(s: State, f: nat)
    requires Shape(s) && f < |s.frames| && s.frames[f].state != C.Used
    requires s.frames[f].state == C.Fixed && s.frames[f].chunk > 0 ==> C.IsChunk(s.frames, f, s.frames[f].chunk)
    requires s.frames[f].state != C.Fixed ==> s.frames[f].chunk <= 1
    ensures SameUsed(s, C.Freed(s.frames, f, s.frames[f].chunk), s.ram)
  {
  }

  /** A sweep of the clock changes reference bits only. */
  lemma SweptSame(s: State, hand: nat, v: nat)
    requires Shape(s) && v < |s.frames| && s.frames[v].state == C.Used && hand < |s.frames|
    ensures SameUsed(s, C.AfterClock(s.frames, hand, v), s.ram)
    ensures C.AfterClock(s.frames, hand, v)[v].state == C.Used
    ensures Owner(C.AfterClock(s.frames, hand, v)[v]) == Owner(s.frames[v])
  {
  }

  lemma NoPages(s: State, a: nat)
    requires Inv(s) && a !in s.spaces
    ensures forall k :: k in s.pages ==> k.space != a
  {
    forall k | k in s.pages ensures k.space != a {
      assert EntryOk(s, k);
    }
  }

  /** The entries of all address spaces but b are the same. */
  ghost predicate SameEntries(pages0: map<Key, Loc>, pages: map<Key, Loc>, b: nat) {
    forall k: Key {:trigger k in pages} :: k.space != b ==>
      (k in pages <==> k in pages0) && (k in pages ==> pages[k] == pages0[k])
  }

  /** Entry i of address space a has been copied to b, into frame f. */
  ghost predicate IsCopied(s: State, s2: State, tables: map<nat, seq<Pte>>, tables2: map<nat, seq<Pte>>,
                           a: nat, b: nat, i: nat, f: nat) {
    && a in tables && b in tables && i < |tables[a]|
    && tables2 == tables[b := tables[b] + [Pte(tables[a][i].vpage, InFrame(f))]]
    && s2.pages == s.pages[Key(b, tables[a][i].vpage) := InFrame(f)] && s2.spaces == s.spaces
    && (forall k ::
          Read(s2, k) == Read(s, if k == Key(b, tables[a][i].vpage) then Key(a, tables[a][i].vpage) else k))
    && C.SameKernel(s.frames, s2.frames)
  }

  /** The i-th of a series of allocations; there are only so many. */
  function At(mem: seq<Kmem>, i: nat): Kmem { if i < |mem| then mem[i] else Kmem(false, 0) }

  /** The first n allocations succeed. */
  ghost predicate AllOk(mem: seq<Kmem>, n: nat) { forall i: nat :: i < n ==> At(mem, i).ok }

  /** The frames they claim. */
  ghost function Sum(mem: seq<Kmem>, n: nat): nat { if n == 0 then 0 else Sum(mem, n - 1) + At(mem, n - 1).claims }

  lemma {:induction false} SumMore(mem: seq<Kmem>, k: nat, n: nat)
    requires k <= n
    ensures Sum(mem, k) <= Sum(mem, n)
    decreases n - k
  {
    if k < n {
      SumMore(mem, k + 1, n);
    }
  }

  /** Pages the child has after m allocations: the first is for the address
      space, the next n for its n entries, each followed by a page. */
  function PagesAfter(n: nat, m: nat): nat { if m == 0 then 0 else Least(m - 1, n) }

  /** The first m allocations, and the pages that go with them, fit in room
      frames one after the other. */
  ghost predicate Fits(mem: seq<Kmem>, room: nat, n: nat, m: nat) {
    m == 0 || (Fits(mem, room, n, m - 1) && At(mem, m - 1).ok && PagesAfter(n, m) + Sum(mem, m) <= room)
  }

  lemma {:induction false} FitsLess(mem: seq<Kmem>, room: nat, n: nat, k: nat, m: nat)
    requires k <= m
    ensures Fits(mem, room, n, m) ==> Fits(mem, room, n, k)
    decreases m
  {
    if k < m {
      FitsLess(mem, room, n, k, m - 1);
    }
  }

  /** It is enough that they fit in the end. */
  lemma {:induction false} FitsAll(mem: seq<Kmem>, room: nat, n: nat, m: nat)
    ensures Fits(mem, room, n, m) <==> AllOk(mem, m) && PagesAfter(n, m) + Sum(mem, m) <= room
    decreases m
  {
    if m > 0 {
      FitsAll(mem, room, n, m - 1);
      assert AllOk(mem, m) <==> AllOk(mem, m - 1) && At(mem, m - 1).ok;
    }
  }

  /** After m allocations spent frames have gone to kernel memory; ok says
      whether everything has fitted so far. */
  ghost predicate Account(mem: seq<Kmem>, room: nat, n: nat, m: nat, spent: nat, ok: bool) {
    if ok then Fits(mem, room, n, m) && spent == Sum(mem, m) else !Fits(mem, room, n, m) && spent <= Sum(mem, m)
  }

  lemma AccountStart(mem: seq<Kmem>, room: nat, n: nat, spent: nat, ok: bool)
    requires ok <==> At(mem, 0).ok && At(mem, 0).claims <= room
    requires spent == Least(At(mem, 0).claims, room)
    ensures Account(mem, room, n, 1, spent, ok)
  {
    assert Fits(mem, room, n, 0) && Sum(mem, 0) == 0;
  }

  lemma AccountNext(mem: seq<Kmem>, room: nat, n: nat, m: nat, spent: nat, spent2: nat, ok: bool)
    requires Account(mem, room, n, m, spent, true) && spent2 <= spent + At(mem, m).claims
    requires ok <==> At(mem, m).ok && spent + At(mem, m).claims + PagesAfter(n, m + 1) <= room
    requires ok ==> spent2 == spent + At(mem, m).claims
    ensures Account(mem, room, n, m + 1, spent2, ok)
  {
  }

  lemma AccountEnd(mem: seq<Kmem>, room: nat, n: nat, m: nat, last: nat, spent: nat)
    requires Account(mem, room, n, m, spent, false) && m <= last
    ensures Account(mem, room, n, last, spent, false)
  {
    FitsLess(mem, room, n, m, last);
    SumMore(mem, m, last);
  }

  /** The number of allocations as_copy of a makes. */
  ghost function CopySteps(s: State, a: nat): nat
    requires a in s.spaces
  {
    |PagesOf(s.pages, a)| + 1 + |s.spaces[a].regions|
  }

  ghost function CopyClaims(s: State, a: nat, mem: seq<Kmem>): nat
    requires a in s.spaces
  {
    Sum(mem, CopySteps(s, a))
  }

  /** When as_copy of a fails. */
  ghost predicate CopyFails(s: State, memStart: nat, a: nat, mem: seq<Kmem>)
    requires a in s.spaces
  {
    !AllOk(mem, CopySteps(s, a)) || |PagesOf(s.pages, a)| + CopyClaims(s, a, mem) > FreeFrames(s, memStart)
  }

  /** The account of as_copy in terms of the state it met. */
  lemma CopyCounts(s: State, a: nat, mem: seq<Kmem>, n: nat, room: nat, memStart: nat, spent: nat, ok: bool)
    requires a in s.spaces && n == |PagesOf(s.pages, a)| && room == FreeFrames(s, memStart)
    requires Account(mem, room, n, n + 1 + |s.spaces[a].regions|, spent, ok)
    ensures ok <==> !CopyFails(s, memStart, a, mem)
    ensures if ok then spent == CopyClaims(s, a, mem) else spent <= CopyClaims(s, a, mem)
  {
    FitsAll(mem, room, n, CopySteps(s, a));
  }

  /** Which kernel frames a fault changes. */
  ghost predicate FaultTraffic(s: State, s2: State, memStart: nat, a: nat, vp: nat, k: Kmem, gives: seq<nat>) {
    if !Present(s.spaces, a, vp) || Key(a, vp) in s.pages then C.SameKernel(s.frames, s2.frames)
    else C.Grew(s.frames, s2.frames, memStart, FaultClaims(s, memStart, a, vp, k), gives)
  }

  lemma FaultTrafficSame(s: State, frames: seq<C.Frame>, s2: State, memStart: nat, a: nat, vp: nat, k: Kmem)
    requires FaultTraffic(s, s.(frames := frames), memStart, a, vp, k, []) && C.SameKernel(frames, s2.frames)
    ensures FaultTraffic(s, s2, memStart, a, vp, k, [])
  {
    if !Present(s.spaces, a, vp) || Key(a, vp) in s.pages {
      C.SameKernelTrans(s.frames, frames, s2.frames);
    } else {
      var n := FaultClaims(s, memStart, a, vp, k);
      var got :| |got| == n && C.Traffic(s.frames, frames, memStart, got, []);
      C.TrafficSame(s.frames, frames, s2.frames, memStart, got);
    }
  }

  /** The first i entries of table t of a have been copied to b's table u. */
  ghost predicate Copying(s0: State, s: State, t: seq<Pte>, u: seq<Pte>, a: nat, b: nat, i: nat) {
    && i == |u| <= |t|
    && (forall j :: 0 <= j < i ==>
          u[j].vpage == t[j].vpage && Read(s, Key(b, t[j].vpage)) == Read(s0, Key(a, t[j].vpage)))
    && (forall k: Key {:trigger Read(s, k)} :: k.space != b ==> Read(s, k) == Read(s0, k))
    && (forall k: Key :: k in s.pages && k.space == b ==> s.pages[k].InFrame?)
    && SameEntries(s0.pages, s.pages, b)
    && s.spaces == s0.spaces[b := Bounds([], 0, 0)]
  }

  lemma CopyingSame(s0: State, s: State, s2: State, t: seq<Pte>, u: seq<Pte>, a: nat, b: nat, i: nat)
    requires Copying(s0, s, t, u, a, b, i) && s2.pages == s.pages && SameMemory(s, s2)
    ensures Copying(s0, s2, t, u, a, b, i)
  {
  }

  lemma CopyingNext(s0: State, s: State, s2: State, tables: map<nat, seq<Pte>>, tables2: map<nat, seq<Pte>>,
                    a: nat, b: nat, i: nat, f: nat)
    requires a in tables && b in tables && a != b && i < |tables[a]| && TableOk(tables[a], s.pages, a)
    requires Copying(s0, s, tables[a], tables[b], a, b, i) && IsCopied(s, s2, tables, tables2, a, b, i, f)
    ensures tables2[a] == tables[a] && Copying(s0, s2, tables[a], tables2[b], a, b, i + 1)
  {
    var t, u2 := tables[a], tables2[b];
    forall j | 0 <= j < i + 1
      ensures u2[j].vpage == t[j].vpage && Read(s2, Key(b, t[j].vpage)) == Read(s0, Key(a, t[j].vpage))
    {
      assert j < i ==> u2[j] == tables[b][j];
    }
  }

  /** Pages without an entry read as zero on both sides. */
  lemma CopyDone(s0: State, s: State, t: seq<Pte>, u: seq<Pte>, a: nat, b: nat)
    requires Copying(s0, s, t, u, a, b, |t|) && TableOk(t, s0.pages, a) && TableOk(u, s.pages, b)
    ensures forall vp :: Read(s, Key(b, vp)) == Read(s0, Key(a, vp))
    ensures forall vp: nat :: Key(b, vp) in s.pages <==> Key(a, vp) in s0.pages
  {
    forall vp: nat
      ensures Read(s, Key(b, vp)) == Read(s0, Key(a, vp)) && (Key(b, vp) in s.pages <==> Key(a, vp) in s0.pages)
    {
      if HasEntry(t, vp) {
        var j :| 0 <= j < |t| && t[j].vpage == vp;
        assert u[j].vpage == vp && HasEntry(u, vp);
      } else {
        assert !HasEntry(u, vp) by {
          assert forall j :: 0 <= j < |u| ==> u[j].vpage == t[j].vpage;
        }
      }
    }
  }

  /** Address space b reads as a did in s0, in frames of its own; all other
      address spaces are as they were. */
  ghost predicate CopyMade(s0: State, s: State, a: nat, b: nat) {
    && (forall k :: Read(s, k) == Read(s0, if k.space == b then Key(a, k.vpage) else k))
    && SameEntries(s0.pages, s.pages, b)
    && (forall k :: k in s.pages && k.space == b ==> s.pages[k].InFrame?)
    && (forall vp: nat :: Key(b, vp) in s.pages <==> Key(a, vp) in s0.pages)
  }

  lemma CopyMadeSame(s0: State, s: State, s2: State, a: nat, b: nat)
    requires CopyMade(s0, s, a, b) && s2.pages == s.pages && forall k :: Read(s2, k) == Read(s, k)
    ensures CopyMade(s0, s2, a, b)
  {
  }

  lemma CopyReads(s0: State, s: State, tables: map<nat, seq<Pte>>, a: nat, b: nat)
    requires Agree(tables, s.pages) && a in tables && b in tables && a != b && a in s0.spaces
    requires Copying(s0, s, tables[a], tables[b], a, b, |tables[a]|)
    ensures CopyMade(s0, s, a, b) && s.spaces[b := s.spaces[a]] == s0.spaces[b := s0.spaces[a]]
  {
    assert TableOk(tables[a], s.pages, a) && TableOk(tables[b], s.pages, b);
    CopyDone(s0, s, tables[a], tables[b], a, b);
    forall k: Key | k.space == b ensures Read(s, k) == Read(s0, Key(a, k.vpage)) {
      assert k == Key(b, k.vpage);
    }
  }

  /** Pages [lo, hi) of address space a read as zero, all others as before. */
  ghost predicate ClearedReads(s0: State, s: State, a: nat, lo: int, hi: int) {
    forall k :: Read(s, k) == if k.space == a && lo <= k.vpage < hi then ZeroPage() else Read(s0, k)
  }

  /** Their entries are gone, all others are as before. */
  ghost predicate ClearedEntries(s0: State, s: State, a: nat, lo: int, hi: int) {
    && (forall k :: k in s.pages <==> k in s0.pages && !(k.space == a && lo <= k.vpage < hi))
    && (forall k :: k in s.pages ==> s.pages[k] == s0.pages[k])
  }

  ghost predicate Cleared(s0: State, s: State, a: nat, lo: int, hi: int) {
    && s.spaces == s0.spaces && ClearedReads(s0, s, a, lo, hi) && ClearedEntries(s0, s, a, lo, hi)
    && C.SameKernel(s0.frames, s.frames)
  }

  lemma ClearedMore(s0: State, s: State, s2: State, a: nat, lo: int, hi: int)
    requires Cleared(s0, s, a, lo + 1, hi) && Cleared(s, s2, a, lo, lo + 1) && lo < hi
    ensures Cleared(s0, s2, a, lo, hi)
  {
    C.SameKernelTrans(s0.frames, s.frames, s2.frames);
  }
}
