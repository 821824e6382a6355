/**
 The coremap of kern/vm/vm.c: one entry per physical page frame. Addresses are
 frame numbers (physical address / PAGE_SIZE); 0 is the failure value, and the
 frames below memStart hold the kernel and the coremap itself.
 */
module Coremap {

  import opened KernLib

  const PAGE_SIZE := 4096

  datatype PageState = Free | Fixed | Used | InEviction

  /** struct coremap_page; owner and vpage (owner_vaddr / PAGE_SIZE) matter for
      Used frames only. */
  datatype Frame = Frame(state: PageState, chunk: nat, owner: nat, vpage: nat, ref: bool)

  const FREE := Frame(Free, 0, 0, 0, false)

  // ------------------------------------------------------------------
  // Specification on sequences of frames

  ghost predicate FreeRun(frames: seq<Frame>, i: nat, n: nat) {
    i + n <= |frames| && forall j :: i <= j < i + n ==> frames[j].state == Free
  }

  ghost predicate NoRun(frames: seq<Frame>, lo: nat, n: nat) { forall i: nat :: lo <= i ==> !FreeRun(frames, i, n) }

  ghost predicate NoneFree(frames: seq<Frame>, lo: nat) {
    forall i :: lo <= i < |frames| ==> frames[i].state != Free
  }

  /** A live kernel chunk: its head records the length, the rest record 0. */
  ghost predicate IsChunk(frames: seq<Frame>, i: nat, n: nat) {
    && 0 < n && i + n <= |frames|
    && frames[i].state == Fixed && frames[i].chunk == n
    && forall j :: i < j < i + n ==> frames[j].state == Fixed && frames[j].chunk == 0
  }

  ghost predicate InChunk(frames: seq<Frame>, h: nat, i: nat) {
    h <= i < |frames| && i < h + frames[h].chunk && IsChunk(frames, h, frames[h].chunk)
  }

  ghost predicate InSomeChunk(frames: seq<Frame>, memStart: nat, i: nat) {
    exists h :: memStart <= h && InChunk(frames, h, i)
  }

  /** Every fixed managed frame lies in a chunk. */
  ghost predicate ChunksOk(frames: seq<Frame>, memStart: nat) {
    forall i {:trigger InSomeChunk(frames, memStart, i)} ::
      memStart <= i < |frames| && frames[i].state == Fixed ==> InSomeChunk(frames, memStart, i)
  }

  /** A frame with a chunk length is the head of its chunk. */
  lemma HeadIsChunk(frames: seq<Frame>, memStart: nat, i: nat)
    requires ChunksOk(frames, memStart) && memStart <= i < |frames| && frames[i].state == Fixed && frames[i].chunk > 0
    ensures IsChunk(frames, i, frames[i].chunk)
  {
    assert InSomeChunk(frames, memStart, i);
  }

  /** Chunks never overlap. */
  lemma ChunksDisjoint(frames: seq<Frame>, a: nat, m: nat, b: nat, n: nat)
    requires IsChunk(frames, a, m) && IsChunk(frames, b, n) && a != b
    ensures a + m <= b || b + n <= a
  {
  }

  /** Number of non-free frames in [lo, hi). */
  ghost function Busy(frames: seq<Frame>, lo: nat, hi: nat): nat
    requires hi <= |frames|
  {
    if hi <= lo then 0 else Busy(frames, lo, hi - 1) + (if frames[hi - 1].state == Free then 0 else 1)
  }

  lemma {:induction false} BusyUpdate(frames: seq<Frame>, lo: nat, hi: nat, i: nat, f: Frame)
    requires lo <= i < hi <= |frames|
    ensures Busy(frames[i := f], lo, hi) + (if frames[i].state == Free then 0 else 1)
         == Busy(frames, lo, hi) + (if f.state == Free then 0 else 1)
  {
    if i == hi - 1 {
      BusySame(frames, frames[i := f], lo, hi - 1);
    } else {
      BusyUpdate(frames, lo, hi - 1, i, f);
    }
  }

  lemma {:induction false} BusySame(a: seq<Frame>, b: seq<Frame>, lo: nat, hi: nat)
    requires hi <= |a| && hi <= |b|
    requires forall i :: lo <= i < hi ==> (a[i].state == Free <==> b[i].state == Free)
    ensures Busy(a, lo, hi) == Busy(b, lo, hi)
  {
    if lo < hi {
      BusySame(a, b, lo, hi - 1);
    }
  }

  /** Number of free frames in [lo, hi). */
  ghost function FreeCount(frames: seq<Frame>, lo: nat, hi: nat): nat
    requires hi <= |frames|
  {
    if hi <= lo then 0 else FreeCount(frames, lo, hi - 1) + (if frames[hi - 1].state == Free then 1 else 0)
  }

  lemma {:induction false} FreeAndBusy(frames: seq<Frame>, lo: nat, hi: nat)
    requires hi <= |frames|
    ensures lo <= hi ==> FreeCount(frames, lo, hi) + Busy(frames, lo, hi) == hi - lo
    ensures FreeCount(frames, lo, hi) == 0 <==> forall i :: lo <= i < hi ==> frames[i].state != Free
  {
    if lo < hi {
      FreeAndBusy(frames, lo, hi - 1);
    }
  }

  /** A single frame can be had exactly when one is free. */
  lemma NoRunOfOne(frames: seq<Frame>, lo: nat)
    ensures NoRun(frames, lo, 1) <==> FreeCount(frames, lo, |frames|) == 0
  {
    FreeAndBusy(frames, lo, |frames|);
    if !NoRun(frames, lo, 1) {
      var i: nat :| lo <= i && FreeRun(frames, i, 1);
      assert frames[i].state == Free;
    }
    forall i: nat | lo <= i < |frames| && frames[i].state == Free ensures FreeRun(frames, i, 1) {
    }
  }

  /** Frames that hold no user page and are not free. */
  predicate InKernel(f: Frame) { f.state == Fixed || f.state == InEviction }

  /** Only free and user frames changed. */
  ghost predicate SameKernel(frames: seq<Frame>, r: seq<Frame>) {
    |r| == |frames| && forall i: nat {:trigger KernelAt(frames, r, i)} :: i < |r| ==> KernelAt(frames, r, i)
  }

  ghost predicate KernelAt(frames: seq<Frame>, r: seq<Frame>, i: nat)
    requires i < |r| == |frames|
  {
    InKernel(r[i]) || InKernel(frames[i]) ==> r[i] == frames[i]
  }

  lemma SameKernelUpdate(frames: seq<Frame>, i: nat, f: Frame)
    requires i < |frames| && !InKernel(frames[i]) && !InKernel(f)
    ensures SameKernel(frames, frames[i := f])
  {
    var r := frames[i := f];
    forall j: nat | j < |r| ensures KernelAt(frames, r, j) {
    }
  }

  lemma SameKernelTrans(a: seq<Frame>, b: seq<Frame>, c: seq<Frame>)
    requires SameKernel(a, b) && SameKernel(b, c)
    ensures SameKernel(a, c)
  {
    forall i: nat | i < |c| ensures KernelAt(a, c, i) {
      assert KernelAt(a, b, i) && KernelAt(b, c, i);
    }
  }

  /** A kernel chunk of one frame, as kmalloc claims for its own pages. */
  predicate IsSingle(f: Frame) { f.state == Fixed && f.chunk == 1 }

  /** The frames of got were free and are now kernel chunks of one; nothing
      else changed. */
  ghost predicate Claims(frames: seq<Frame>, r: seq<Frame>, memStart: nat, got: set<nat>) {
    && |r| == |frames| && (forall i :: i in got ==> memStart <= i < |frames|)
    && forall i: nat {:trigger ClaimAt(frames, r, got, i)} :: i < |r| ==> ClaimAt(frames, r, got, i)
  }

  ghost predicate ClaimAt(frames: seq<Frame>, r: seq<Frame>, got: set<nat>, i: nat)
    requires i < |r| == |frames|
  {
    if i in got then frames[i].state == Free && IsSingle(r[i]) else r[i] == frames[i]
  }

  lemma ClaimsNone(frames: seq<Frame>, memStart: nat)
    ensures Claims(frames, frames, memStart, {})
  {
    forall i: nat | i < |frames| ensures ClaimAt(frames, frames, {}, i) {
    }
  }

  lemma ClaimsMore(frames: seq<Frame>, r: seq<Frame>, memStart: nat, got: set<nat>, f: nat)
    requires Claims(frames, r, memStart, got) && memStart <= f && FreeRun(r, f, 1)
    ensures f !in got && Claims(frames, Claimed(r, f, 1), memStart, got + {f})
  {
    var r2 := Claimed(r, f, 1);
    assert r[f].state == Free && ClaimAt(frames, r, got, f);
    forall i: nat | i < |r2| ensures ClaimAt(frames, r2, got + {f}, i) {
      assert ClaimAt(frames, r, got, i);
    }
  }

  /** Whoever frees the frame gives back a chunk of one. */
  predicate CanGive(frames: seq<Frame>, memStart: nat, f: nat) { memStart <= f < |frames| && IsSingle(frames[f]) }

  /** The kernel's frames, with those of got claimed and then those of gives,
      as far as they were chunks of one, given back. User frames may change. */
  ghost predicate Traffic(frames: seq<Frame>, r: seq<Frame>, memStart: nat, got: set<nat>, gives: seq<nat>) {
    && |r| == |frames| && (forall i :: i in got ==> memStart <= i < |frames|)
    && forall i: nat {:trigger TrafficAt(frames, r, memStart, got, gives, i)} ::
      i < |r| ==> TrafficAt(frames, r, memStart, got, gives, i)
  }

  ghost predicate TrafficAt(frames: seq<Frame>, r: seq<Frame>, memStart: nat, got: set<nat>, gives: seq<nat>, i: nat)
    requires i < |r| == |frames|
  {
    if i in got then !InKernel(frames[i]) && (if i in gives then !InKernel(r[i]) else IsSingle(r[i]))
    else if i in gives && CanGive(frames, memStart, i) then !InKernel(r[i])
    else KernelAt(frames, r, i)
  }

  /** The kernel gained n frames, and gave back those of gives. */
  ghost predicate Grew(frames: seq<Frame>, r: seq<Frame>, memStart: nat, n: nat, gives: seq<nat>) {
    exists got :: |got| == n && Traffic(frames, r, memStart, got, gives)
  }

  ghost predicate GrewAtMost(frames: seq<Frame>, r: seq<Frame>, memStart: nat, n: nat, gives: seq<nat>) {
    exists got :: |got| <= n && Traffic(frames, r, memStart, got, gives)
  }

  lemma TrafficClaims(a: seq<Frame>, b: seq<Frame>, c: seq<Frame>, memStart: nat, got: set<nat>, more: set<nat>)
    requires Traffic(a, b, memStart, got, []) && Claims(b, c, memStart, more)
    ensures got !! more && Traffic(a, c, memStart, got + more, [])
  {
    forall i | i in got ensures i !in more {
      assert TrafficAt(a, b, memStart, got, [], i) && ClaimAt(b, c, more, i);
    }
    forall i: nat | i < |c| ensures TrafficAt(a, c, memStart, got + more, [], i) {
      assert TrafficAt(a, b, memStart, got, [], i) && ClaimAt(b, c, more, i);
    }
  }

  lemma TrafficSame(a: seq<Frame>, b: seq<Frame>, c: seq<Frame>, memStart: nat, got: set<nat>)
    requires Traffic(a, b, memStart, got, []) && SameKernel(b, c)
    ensures Traffic(a, c, memStart, got, [])
  {
    forall i: nat | i < |c| ensures TrafficAt(a, c, memStart, got, [], i) {
      assert TrafficAt(a, b, memStart, got, [], i) && KernelAt(b, c, i);
    }
  }

  lemma TrafficGive(a: seq<Frame>, b: seq<Frame>, memStart: nat, got: set<nat>, gives: seq<nat>, f: nat)
    requires Traffic(a, b, memStart, got, gives)
    ensures Traffic(a, if CanGive(b, memStart, f) then b[f := FREE] else b, memStart, got, gives + [f])
  {
    var c := if CanGive(b, memStart, f) then b[f := FREE] else b;
    forall i: nat | i < |c| ensures TrafficAt(a, c, memStart, got, gives + [f], i) {
      assert TrafficAt(a, b, memStart, got, gives, i);
      assert i in gives + [f] <==> i in gives || i == f;
    }
  }

  lemma SameIsTraffic(frames: seq<Frame>, r: seq<Frame>, memStart: nat)
    requires SameKernel(frames, r)
    ensures Traffic(frames, r, memStart, {}, [])
  {
    forall i: nat | i < |r| ensures TrafficAt(frames, r, memStart, {}, [], i) {
      assert KernelAt(frames, r, i);
    }
  }

  lemma SameKernelSelf(frames: seq<Frame>)
    ensures SameKernel(frames, frames)
  {
    forall i: nat | i < |frames| ensures KernelAt(frames, frames, i) {
    }
  }

  /** What chunk_size holds in frames that are not part of a kernel chunk. */
  ghost predicate SizesOk(frames: seq<Frame>, memStart: nat) {
    forall i :: 0 <= i < |frames| ==> SizeOk(frames[i], i < memStart)
  }

  predicate SizeOk(f: Frame, reserved: bool) {
    match f.state
    case Free => f.chunk == 0
    case Fixed => reserved ==> f.chunk == 0
    case _ => f.chunk == 1
  }

  /** The frames after a chunk of n frames has been claimed at a. */
  function Claimed(frames: seq<Frame>, a: nat, n: nat): (r: seq<Frame>)
  {
    seq(|frames|, (i: nat) requires i < |frames| =>
      if a <= i < a + n then frames[i].(state := Fixed, chunk := if i == a then n else 0) else frames[i])
  }

  function Freed(frames: seq<Frame>, a: nat, n: nat): (r: seq<Frame>)
  {
    seq(|frames|, (i: nat) requires i < |frames| => if a <= i < a + n then FREE else frames[i])
  }

  /** A chunk whose frames did not change is still a chunk. */
  lemma ChunkKept(frames: seq<Frame>, r: seq<Frame>, b: nat, m: nat)
    requires IsChunk(frames, b, m) && |r| == |frames|
    requires forall j :: b <= j < b + m ==> r[j] == frames[j]
    ensures IsChunk(r, b, m)
  {
    assert r[b] == frames[b];
  }

  /** ChunksOk follows when every fixed frame is either in the chunk at a or in
      an old chunk away from it. */
  lemma ChunksFrom(frames: seq<Frame>, r: seq<Frame>, memStart: nat, a: nat, n: nat)
    requires ChunksOk(frames, memStart) && memStart <= a && 0 < n && a + n <= |frames| == |r|
    requires forall j :: 0 <= j < |r| && !(a <= j < a + n) ==> r[j] == frames[j]
    requires IsChunk(r, a, n) || FreeRun(r, a, n)
    requires FreeRun(frames, a, n) || IsChunk(frames, a, n)
    ensures ChunksOk(r, memStart)
  {
    forall i | memStart <= i < |r| && r[i].state == Fixed ensures InSomeChunk(r, memStart, i) {
      if a <= i < a + n {
        assert InChunk(r, a, i);
      } else {
        assert InSomeChunk(frames, memStart, i);
        var h :| memStart <= h && InChunk(frames, h, i);
        Apart(frames, a, n, h, i);
        ChunkKept(frames, r, h, frames[h].chunk);
        assert InChunk(r, h, i);
      }
    }
  }

  /** The chunk of a frame outside [a, a + n) avoids that range. */
  lemma Apart(frames: seq<Frame>, a: nat, n: nat, h: nat, i: nat)
    requires 0 < n && (FreeRun(frames, a, n) || IsChunk(frames, a, n))
    requires InChunk(frames, h, i) && !(a <= i < a + n)
    ensures h + frames[h].chunk <= a || a + n <= h
  {
    assert FreeRun(frames, a, n) ==> frames[a].state == Free;
  }

  lemma ClaimKeeps(frames: seq<Frame>, memStart: nat, a: nat, n: nat)
    requires ChunksOk(frames, memStart) && memStart <= a && 0 < n && FreeRun(frames, a, n)
    ensures ChunksOk(Claimed(frames, a, n), memStart) && IsChunk(Claimed(frames, a, n), a, n)
  {
    ChunksFrom(frames, Claimed(frames, a, n), memStart, a, n);
  }

  lemma FreeKeeps(frames: seq<Frame>, memStart: nat, a: nat, n: nat)
    requires ChunksOk(frames, memStart) && memStart <= a && IsChunk(frames, a, n)
    ensures ChunksOk(Freed(frames, a, n), memStart) && FreeRun(Freed(frames, a, n), a, n)
  {
    ChunksFrom(frames, Freed(frames, a, n), memStart, a, n);
  }

  /** Claiming a free run leaves every other chunk alone. */
  lemma ClaimSpares(frames: seq<Frame>, a: nat, n: nat, b: nat, m: nat)
    requires FreeRun(frames, a, n) && IsChunk(frames, b, m)
    ensures IsChunk(Claimed(frames, a, n), b, m)
    ensures n > 0 ==> a + n <= b || b + m <= a
  {
    assert n > 0 && b < a < b + m ==> frames[a].state == Fixed;
    ChunkKept(frames, Claimed(frames, a, n), b, m);
  }

  /** Freeing a chunk leaves every other chunk alone. */
  lemma FreeSpares(frames: seq<Frame>, a: nat, n: nat, b: nat, m: nat)
    requires IsChunk(frames, a, n) && IsChunk(frames, b, m) && a != b
    ensures IsChunk(Freed(frames, a, n), b, m)
  {
    ChunkKept(frames, Freed(frames, a, n), b, m);
  }

  // ------------------------------------------------------------------
  // The clock hand

  /** Position of frame i counted from the hand, in circular order. */
  function Offset(i: nat, hand: nat, n: nat): nat
    requires i < n && hand < n
  {
    if hand <= i then i - hand else i + n - hand
  }

  predicate Evictable(f: Frame) { f.state == Used && !f.ref }

  /** The frames after the hand has passed the first k of them. */
  function Swept(frames: seq<Frame>, hand: nat, k: nat): (r: seq<Frame>)
    requires hand < |frames|
  {
    seq(|frames|, (i: nat) requires i < |frames| =>
      if frames[i].state == Used && Offset(i, hand, |frames|) < k then frames[i].(ref := false) else frames[i])
  }

  /** v is the first used frame in circular order from the hand. */
  ghost predicate IsFirstUsed(frames: seq<Frame>, hand: nat, v: nat) {
    && hand < |frames| && v < |frames| && frames[v].state == Used
    && forall i :: 0 <= i < |frames| && frames[i].state == Used ==>
      Offset(v, hand, |frames|) <= Offset(i, hand, |frames|)
  }

  /** v is the first one whose reference bit is clear. */
  ghost predicate IsFirstEvictable(frames: seq<Frame>, hand: nat, v: nat) {
    && hand < |frames| && v < |frames| && Evictable(frames[v])
    && forall i :: 0 <= i < |frames| && Evictable(frames[i]) ==> Offset(v, hand, |frames|) <= Offset(i, hand, |frames|)
  }

  ghost predicate SomeEvictable(frames: seq<Frame>) { exists i :: 0 <= i < |frames| && Evictable(frames[i]) }

  /** What the clock algorithm promises: the victim is the first used frame
      whose reference bit is clear, or the first used frame if all were set. */
  ghost predicate ClockChoice(frames: seq<Frame>, hand: nat, v: nat) {
    if SomeEvictable(frames) then IsFirstEvictable(frames, hand, v) else IsFirstUsed(frames, hand, v)
  }

  /** The frames after the choice: the bits the hand passed are clear, which is
      all of them if all were set. */
  ghost function AfterClock(frames: seq<Frame>, hand: nat, v: nat): (r: seq<Frame>)
    requires hand < |frames| && v < |frames|
  {
    Swept(frames, hand, if SomeEvictable(frames) then Offset(v, hand, |frames|) else |frames|)
  }

  function Marked(frames: seq<Frame>, v: nat): seq<Frame>
    requires v < |frames|
  {
    frames[v := frames[v].(state := InEviction)]
  }

  /** Of the frames that are neither free nor the user's, only v is new. */
  lemma EvictionTakesOne(frames: seq<Frame>, hand: nat, v: nat, f: nat)
    requires hand < |frames| && v < |frames| && f < |frames|
    ensures var r := Marked(AfterClock(frames, hand, v), v); |r| == |frames| && (f == v || KernelAt(frames, r, f))
  {
  }

  /** The frame k places after the hand, within two rounds. */
  function At(hand: nat, k: nat, n: nat): nat
    requires hand < n && k < 2 * n
  {
    if hand + k < n then hand + k else if hand + k < 2 * n then hand + k - n else hand + k - 2 * n
  }

  lemma AtNext(hand: nat, k: nat, n: nat)
    requires hand < n && k + 1 < 2 * n
    ensures At(hand, k + 1, n) == (At(hand, k, n) + 1) % n
  {
    var p := At(hand, k, n);
    assert (p + 1) % n == if p + 1 == n then 0 else p + 1 by {
      if p + 1 < n {
        SmallMod(p + 1, n);
      }
    }
  }

  lemma SmallMod(a: nat, n: nat)
    requires a < n
    ensures a % n == a
  {
  }

  lemma {:induction false} FirstUsedExists(frames: seq<Frame>, hand: nat, k: nat)
    requires hand < |frames| && k <= |frames|
    requires exists i :: 0 <= i < |frames| && frames[i].state == Used
    requires forall i :: 0 <= i < |frames| && Offset(i, hand, |frames|) < k ==> frames[i].state != Used
    ensures exists u :: IsFirstUsed(frames, hand, u)
    decreases |frames| - k
  {
    var n := |frames|;
    var i :| 0 <= i < n && frames[i].state == Used;
    assert Offset(i, hand, n) >= k;
    var u := At(hand, k, n);
    assert Offset(u, hand, n) == k;
    if frames[u].state == Used {
      assert IsFirstUsed(frames, hand, u);
    } else {
      FirstUsedExists(frames, hand, k + 1);
    }
  }

  /** One move of the hand. In the second round it passes no used frame. */
  lemma SweptNext(frames: seq<Frame>, hand: nat, k: nat, p: nat)
    requires hand < |frames| && k < 2 * |frames| && p == At(hand, k, |frames|)
    requires !Evictable(Swept(frames, hand, k)[p])
    ensures Swept(frames, hand, k + 1)
         == if frames[p].state == Used then Swept(frames, hand, k)[p := frames[p].(ref := false)]
            else Swept(frames, hand, k)
    ensures k < |frames| ==> !Evictable(frames[p]) && Offset(p, hand, |frames|) == k
    ensures k >= |frames| ==> frames[p].state != Used
  {
  }

  /** The first k frames from the hand were not evictable. */
  ghost predicate NoneBefore(frames: seq<Frame>, hand: nat, k: nat) {
    hand < |frames| && forall i :: 0 <= i < |frames| && Offset(i, hand, |frames|) < k ==> !Evictable(frames[i])
  }

  /** The hand has not yet come round to the first used frame again. */
  lemma NoneBeforeNext(frames: seq<Frame>, hand: nat, k: nat, p: nat, u: nat)
    requires IsFirstUsed(frames, hand, u) && k <= |frames| + Offset(u, hand, |frames|) && p == At(hand, k, |frames|)
    requires NoneBefore(frames, hand, k) && !Evictable(Swept(frames, hand, k)[p])
    ensures k < |frames| + Offset(u, hand, |frames|) && NoneBefore(frames, hand, k + 1)
  {
    SweptNext(frames, hand, k, p);
    forall i | 0 <= i < |frames| && Offset(i, hand, |frames|) == k ensures i == p {
    }
  }

  /** Where the loop stops is the promised choice. */
  lemma ChoiceMade(frames: seq<Frame>, hand: nat, k: nat, u: nat, v: nat)
    requires IsFirstUsed(frames, hand, u) && k <= |frames| + Offset(u, hand, |frames|) && v == At(hand, k, |frames|)
    requires NoneBefore(frames, hand, k) && Evictable(Swept(frames, hand, k)[v])
    ensures ClockChoice(frames, hand, v) && Swept(frames, hand, k) == AfterClock(frames, hand, v)
  {
    var n := |frames|;
    if k < n {
      assert Offset(v, hand, n) == k;
      assert Evictable(frames[v]);
      assert SomeEvictable(frames);
    } else {
      assert forall i :: 0 <= i < n ==> Offset(i, hand, n) < n;
      assert Offset(v, hand, n) == k - n;
      assert Swept(frames, hand, k) == Swept(frames, hand, n);
    }
  }

  lemma SweepDone(frames: seq<Frame>, memStart: nat, hand: nat, k: nat, u: nat, v: nat)
    requires ChunksOk(frames, memStart) && forall i :: 0 <= i < memStart && i < |frames| ==> frames[i].state == Fixed
    requires IsFirstUsed(frames, hand, u) && k <= |frames| + Offset(u, hand, |frames|) && v == At(hand, k, |frames|)
    requires NoneBefore(frames, hand, k) && Evictable(Swept(frames, hand, k)[v])
    ensures ClockChoice(frames, hand, v) && Swept(frames, hand, k) == AfterClock(frames, hand, v)
    ensures memStart <= v && frames[v].state == Used && ChunksOk(AfterClock(frames, hand, v), memStart)
    ensures SizesOk(frames, memStart) ==> SizesOk(AfterClock(frames, hand, v), memStart)
    ensures forall i :: 0 <= i < memStart && i < |frames| ==> AfterClock(frames, hand, v)[i].state == Fixed
    ensures Busy(AfterClock(frames, hand, v), memStart, |frames|) == Busy(frames, memStart, |frames|)
  {
    ChoiceMade(frames, hand, k, u, v);
    SweptKeeps(frames, memStart, hand, k);
  }

  /** Clearing reference bits changes nothing else. */
  lemma SweptKeeps(frames: seq<Frame>, memStart: nat, hand: nat, k: nat)
    requires hand < |frames| && ChunksOk(frames, memStart)
    ensures ChunksOk(Swept(frames, hand, k), memStart)
    ensures SizesOk(frames, memStart) ==> SizesOk(Swept(frames, hand, k), memStart)
    ensures forall i :: 0 <= i < |frames| ==> Swept(frames, hand, k)[i].state == frames[i].state
    ensures Busy(Swept(frames, hand, k), memStart, |frames|) == Busy(frames, memStart, |frames|)
  {
    var r := Swept(frames, hand, k);
    BusySame(frames, r, memStart, |frames|);
    forall j | memStart <= j < |r| && r[j].state == Fixed ensures InSomeChunk(r, memStart, j) {
      assert InSomeChunk(frames, memStart, j);
      var h :| memStart <= h && InChunk(frames, h, j);
      ChunkKept(frames, r, h, frames[h].chunk);
      assert InChunk(r, h, j);
    }
  }

  // ------------------------------------------------------------------

  class Coremap {
    const memStart: nat
    const frames: array<Frame>
    var count: int
    var hand: nat

    ghost predicate Valid()
      reads this, frames
    {
      && 0 < memStart
      && (memStart < frames.Length ==> hand < frames.Length)
      && (forall i :: 0 <= i < memStart && i < frames.Length ==> frames[i].state == Fixed)
      && count == Busy(frames[..], memStart, frames.Length)
      && ChunksOk(frames[..], memStart) && SizesOk(frames[..], memStart)
    }

    /** coremap_bootstrap, from the byte addresses of the first free byte and
        the end of memory, and the size of a coremap entry. */
    constructor (firstFree: nat, ramSize: nat, entrySize: nat)
      requires firstFree > 0
      ensures Valid() && fresh(frames) && frames.Length == ramSize / PAGE_SIZE && count == 0
      ensures (memStart - 1) * PAGE_SIZE < firstFree + frames.Length * entrySize + PAGE_SIZE
      ensures firstFree + frames.Length * entrySize <= memStart * PAGE_SIZE
      ensures forall i :: memStart <= i < frames.Length ==> frames[i].state == Free
    {
      var start := DivRoundUp(firstFree, PAGE_SIZE);
      var total := ramSize / PAGE_SIZE;
      var coremapPages := DivRoundUp(entrySize * total, PAGE_SIZE);
      DivRoundUpCovers(firstFree, PAGE_SIZE);
      DivRoundUpCovers(entrySize * total, PAGE_SIZE);
      memStart := start + coremapPages;
      frames := new Frame[total](i => Frame(if i < start + coremapPages then Fixed else Free, 0, 0, 0, false));
      hand := start + coremapPages;
      count := 0;
      new;
      BusySame(frames[..], seq(total, i => FREE), memStart, total);
      BusyNone(total, memStart, total);
    }

    /** The count says how many frames are free. */
    lemma CountFree()
      requires Valid()
      ensures FreeCount(frames[..], memStart, frames.Length) ==
        if memStart < frames.Length then frames.Length - memStart - count else 0
      ensures NoneFree(frames[..], memStart) <==> FreeCount(frames[..], memStart, frames.Length) == 0
    {
      FreeAndBusy(frames[..], memStart, frames.Length);
    }

    /** allocate_kernel_pages: first fit; 0 exactly when no free run is long
        enough (or none was asked for). */
    method AllocateKernel(npages: nat) returns (a: nat)
      requires Valid()
      modifies this`count, frames
      ensures Valid()
      ensures a == 0 <==> npages == 0 || NoRun(old(frames[..]), memStart, npages)
      ensures a == 0 ==> frames[..] == old(frames[..]) && count == old(count)
      ensures a > 0 ==>
        && memStart <= a && FreeRun(old(frames[..]), a, npages)
        && (forall i: nat :: memStart <= i < a ==> !FreeRun(old(frames[..]), i, npages))
        && frames[..] == Claimed(old(frames[..]), a, npages) && count == old(count) + npages
    {
      a := FindRun(npages);
      if a == 0 {
        return;
      }
      ghost var f := frames[..];
      ClaimKeeps(f, memStart, a, npages);
      BusyClaimed(f, memStart, a, npages);
      for i := 0 to npages
        invariant frames[..] == ClaimedTo(f, a, npages, i) && count == old(count)
      {
        frames[a + i] := frames[a + i].(state := Fixed, chunk := if i == 0 then npages else 0);
      }
      assert frames[..] == Claimed(f, a, npages) && |f| == frames.Length;
      count := count + npages;
    }

    /** allocate_user_page: the first free frame, 0 exactly when there is none. */
    method AllocateUser(owner: nat, vpage: nat, copyCall: bool) returns (a: nat)
      requires Valid()
      modifies this`count, frames
      ensures Valid()
      ensures a == 0 <==> NoneFree(old(frames[..]), memStart)
      ensures a == 0 ==> frames[..] == old(frames[..]) && count == old(count)
      ensures a > 0 ==>
        && memStart <= a < frames.Length && old(frames[a]).state == Free
        && (forall i :: memStart <= i < a ==> old(frames[i]).state != Free)
        && frames[..] == old(frames[..])[a := Frame(Used, 1, owner, vpage, !copyCall)] && count == old(count) + 1
    {
      a := memStart;
      while a < frames.Length && frames[a].state != Free
        invariant a == memStart || memStart < a <= frames.Length
        invariant forall i :: memStart <= i < a ==> frames[i].state != Free
      {
        a := a + 1;
      }
      if a >= frames.Length {
        return 0;
      }
      ghost var f := frames[..];
      ChunksUser(f, memStart, a, Frame(Used, 1, owner, vpage, !copyCall));
      BusyUpdate(f, memStart, |f|, a, Frame(Used, 1, owner, vpage, !copyCall));
      frames[a] := Frame(Used, 1, owner, vpage, !copyCall);
      count := count + 1;
      assert frames[..] == f[a := Frame(Used, 1, owner, vpage, !copyCall)];
    }

    /** free_kpages: frees exactly the chunk that starts at the frame, and
        nothing when no chunk starts there. A user frame is a chunk of one. */
    method FreeKernel(a: nat)
      requires Valid() && a < frames.Length
      modifies this`count, frames
      ensures Valid()
      ensures old(frames[a]).state == Fixed && old(frames[a]).chunk > 0 ==>
        IsChunk(old(frames[..]), a, old(frames[a]).chunk)
      ensures frames[..] == Freed(old(frames[..]), a, old(frames[a]).chunk)
      ensures count == old(count) - old(frames[a]).chunk
    {
      var n := frames[a].chunk;
      ghost var f := frames[..];
      assert SizeOk(f[a], a < memStart);
      FreeChunkKeeps(f, memStart, a);
      for i := 0 to n
        invariant frames[..] == Freed(f, a, i) && count == old(count)
      {
        frames[a + i] := FREE;
      }
      count := count - n;
      assert |f| == frames.Length;
    }

    /** release_physical_page; fails exactly on a frame under eviction. The
        coremap stays consistent exactly when the frame held a user page, was
        under eviction, or was a kernel chunk of its own. */
    method Release(a: nat) returns (failed: bool)
      requires Valid() && a < frames.Length
      modifies this`count, frames
      ensures failed == (old(frames[a]).state == InEviction)
      ensures failed ==> frames[..] == old(frames[..]) && count == old(count)
      ensures !failed ==> frames[..] == old(frames[..])[a := FREE] && count == old(count) - 1
      ensures Valid() <==> memStart <= a && old(frames[a]).chunk == 1
    {
      assert SizeOk(frames[..][a], a < memStart);
      if frames[a].state == InEviction {
        return true;
      }
      ghost var f := frames[..];
      frames[a] := FREE;
      count := count - 1;
      assert frames[..] == f[a := FREE];
      assert f[a].chunk == 1 ==> Freed(f, a, 1) == f[a := FREE];
      if memStart <= a {
        BusyUpdate(f, memStart, |f|, a, FREE);
        if f[a].chunk == 1 {
          FreeChunkKeeps(f, memStart, a);
        } else if f[a].state == Fixed {
          ReleaseBreaks(f, memStart, a);
        }
      }
      return false;
    }

    /** The reference bit set at the end of vm_fault. */
    method Touch(a: nat)
      requires Valid() && memStart <= a < frames.Length && frames[a].state == Used
      modifies frames
      ensures Valid() && frames[..] == old(frames[..])[a := old(frames[a]).(ref := true)]
      ensures SameKernel(old(frames[..]), frames[..])
    {
      ghost var f := frames[..];
      SameKernelUpdate(f, a, f[a].(ref := true));
      ChunksUser(f, memStart, a, f[a].(ref := true));
      BusyUpdate(f, memStart, |f|, a, f[a].(ref := true));
      frames[a] := frames[a].(ref := true);
      assert frames[..] == f[a := f[a].(ref := true)];
    }

    /** The first half of evict_page, up to where it drops the lock: choose a
        victim with the clock and mark it. Without a used frame the source
        loops forever. */
    method SelectVictim() returns (v: nat)
      requires Valid() && exists i :: 0 <= i < frames.Length && frames[i].state == Used
      modifies this`hand, frames
      ensures Valid()
      ensures memStart <= v < frames.Length && old(frames[v]).state == Used && hand == (v + 1) % frames.Length
      ensures ClockChoice(old(frames[..]), old(hand), v)
      ensures frames[..] == Marked(AfterClock(old(frames[..]), old(hand), v), v)
    {
      v := Sweep();
      ghost var f := frames[..];
      ChunksUser(f, memStart, v, f[v].(state := InEviction));
      BusyUpdate(f, memStart, |f|, v, f[v].(state := InEviction));
      frames[v] := frames[v].(state := InEviction);
      hand := (hand + 1) % frames.Length;
      assert frames[..] == Marked(f, v);
    }

    /** One turn of the clock loop. */
    method Pass(ghost f: seq<Frame>, ghost h: nat, ghost k: nat)
      requires hand < frames.Length == |f| && h < |f| && k + 1 < 2 * |f| && hand == At(h, k, |f|)
      requires frames[..] == Swept(f, h, k) && !Evictable(frames[hand])
      modifies this`hand, frames
      ensures hand < |f| && hand == At(h, k + 1, |f|) && frames[..] == Swept(f, h, k + 1)
    {
      assert frames[hand] == Swept(f, h, k)[hand];
      SweptNext(f, h, k, hand);
      if frames[hand].state == Used {
        frames[hand] := frames[hand].(ref := false);
      }
      AtNext(h, k, frames.Length);
      hand := (hand + 1) % frames.Length;
    }

    /** The clock loop; it ends within two sweeps, after k turns. */
    method Turn(ghost f: seq<Frame>, ghost h: nat, ghost u: nat) returns (ghost k: nat)
      requires f == frames[..] && h == hand && IsFirstUsed(f, h, u)
      modifies this`hand, frames
      ensures k <= |f| + Offset(u, h, |f|) && hand < |f| && hand == At(h, k, |f|)
      ensures frames[..] == Swept(f, h, k) && NoneBefore(f, h, k) && Evictable(frames[hand])
    {
      k := 0;
      assert frames[..] == Swept(f, h, 0);
      while !(frames[hand].state == Used && !frames[hand].ref)
        invariant k <= |f| + Offset(u, h, |f|) && hand < |f| && hand == At(h, k, |f|)
        invariant frames[..] == Swept(f, h, k) && NoneBefore(f, h, k)
        decreases 2 * |f| - k
      {
        NoneBeforeNext(f, h, k, hand, u);
        Pass(f, h, k);
        k := k + 1;
      }
    }

    method Sweep() returns (v: nat)
      requires Valid() && exists i :: 0 <= i < frames.Length && frames[i].state == Used
      modifies this`hand, frames
      ensures Valid() && v == hand && memStart <= v < frames.Length && old(frames[v]).state == Used
      ensures ClockChoice(old(frames[..]), old(hand), v) && frames[..] == AfterClock(old(frames[..]), old(hand), v)
    {
      ghost var f, h := frames[..], hand;
      FirstUsedExists(f, h, 0);
      ghost var u :| IsFirstUsed(f, h, u);
      ghost var k := Turn(f, h, u);
      v := hand;
      SweepDone(f, memStart, h, k, u, v);
    }

    /** The search loop of allocate_kernel_pages. */
    method FindRun(npages: nat) returns (a: nat)
      requires Valid()
      ensures a == 0 <==> npages == 0 || NoRun(frames[..], memStart, npages)
      ensures a > 0 ==> memStart <= a && FreeRun(frames[..], a, npages)
      ensures a > 0 ==> forall i: nat :: memStart <= i < a ==> !FreeRun(frames[..], i, npages)
    {
      var run, i := 0, memStart;
      while i < frames.Length
        invariant i == memStart || memStart < i <= frames.Length
        invariant run <= i - memStart && (npages > 0 ==> run < npages)
        invariant forall j :: i - run <= j < i ==> frames[j].state == Free
        invariant run < i - memStart ==> frames[i - run - 1].state != Free
        invariant npages > 0 ==> forall k: nat :: memStart <= k && k + npages <= i ==> !FreeRun(frames[..], k, npages)
      {
        if frames[i].state == Free {
          run := run + 1;
          if run == npages {
            assert FreeRun(frames[..], i + 1 - npages, npages);
            return i + 1 - npages;
          }
        } else {
          run := 0;
        }
        i := i + 1;
      }
      return 0;
    }
  }

  /** Giving back what starts at a frame keeps the coremap consistent. */
  lemma FreeChunkKeeps(frames: seq<Frame>, memStart: nat, a: nat)
    requires ChunksOk(frames, memStart) && SizesOk(frames, memStart) && a < |frames|
    requires forall i :: 0 <= i < memStart && i < |frames| ==> frames[i].state == Fixed
    ensures var n := frames[a].chunk; var r := Freed(frames, a, n);
      && (n > 0 ==> memStart <= a && a + n <= |frames|)
      && ChunksOk(r, memStart) && SizesOk(r, memStart)
      && Busy(r, memStart, |frames|) == Busy(frames, memStart, |frames|) - n
    ensures frames[a].state == Fixed && frames[a].chunk > 0 ==> IsChunk(frames, a, frames[a].chunk)
  {
    var n := frames[a].chunk;
    assert SizeOk(frames[a], a < memStart);
    if frames[a].state == Fixed && n > 0 {
      HeadIsChunk(frames, memStart, a);
      FreeKeeps(frames, memStart, a, n);
      BusyFreed(frames, memStart, a, n);
    } else if n > 0 {
      assert Freed(frames, a, n) == frames[a := FREE];
      ChunksUser(frames, memStart, a, FREE);
      BusyUpdate(frames, memStart, |frames|, a, FREE);
    } else {
      assert Freed(frames, a, n) == frames;
    }
  }

  /** Releasing one frame of a longer kernel chunk breaks the chunk. */
  lemma ReleaseBreaks(frames: seq<Frame>, memStart: nat, a: nat)
    requires ChunksOk(frames, memStart) && memStart <= a < |frames| && frames[a].state == Fixed && frames[a].chunk != 1
    ensures !ChunksOk(frames[a := FREE], memStart)
  {
    var r := frames[a := FREE];
    assert r[a].state == Free;
    assert InSomeChunk(frames, memStart, a);
    var h :| memStart <= h && InChunk(frames, h, a);
    var i := if h < a then h else a + 1;
    assert r[i] == frames[i] && r[i].state == Fixed;
    forall g: nat | memStart <= g ensures !InChunk(r, g, i) {
      assert g < |r| && g != a ==> r[g] == frames[g];
    }
    assert !InSomeChunk(r, memStart, i);
  }

  lemma ChunksUser(frames: seq<Frame>, memStart: nat, i: nat, f: Frame)
    requires ChunksOk(frames, memStart) && i < |frames| && frames[i].state != Fixed && f.state != Fixed
    ensures ChunksOk(frames[i := f], memStart)
  {
    var r := frames[i := f];
    forall j | memStart <= j < |r| && r[j].state == Fixed ensures InSomeChunk(r, memStart, j) {
      assert InSomeChunk(frames, memStart, j);
      var h :| memStart <= h && InChunk(frames, h, j);
      ChunkKept(frames, r, h, frames[h].chunk);
      assert InChunk(r, h, j);
    }
  }

  lemma {:induction false} BusyNone(n: nat, lo: nat, hi: nat)
    requires hi <= n
    ensures Busy(seq(n, i => FREE), lo, hi) == 0
  {
    if lo < hi {
      BusyNone(n, lo, hi - 1);
    }
  }

  /** Partly written chunk. */
  ghost function ClaimedTo(frames: seq<Frame>, a: nat, n: nat, k: nat): seq<Frame>
  {
    seq(|frames|, (i: nat) requires i < |frames| =>
      if a <= i < a + k then frames[i].(state := Fixed, chunk := if i == a then n else 0) else frames[i])
  }

  lemma {:induction false} BusyRange(a: seq<Frame>, b: seq<Frame>, lo: nat, hi: nat, p: nat, n: nat)
    requires hi <= |a| == |b| && lo <= p && p + n <= hi
    requires forall i :: lo <= i < hi && !(p <= i < p + n) ==> (a[i].state == Free <==> b[i].state == Free)
    requires forall i :: p <= i < p + n ==> a[i].state == Free && b[i].state != Free
    ensures Busy(b, lo, hi) == Busy(a, lo, hi) + n
  {
    if p + n < hi {
      BusyRange(a, b, lo, hi - 1, p, n);
    } else if n > 0 {
      BusyRange(a, b, lo, hi - 1, p, n - 1);
    } else {
      BusySame(a, b, lo, hi);
    }
  }

  lemma BusyClaimed(frames: seq<Frame>, lo: nat, a: nat, n: nat)
    requires lo <= a && FreeRun(frames, a, n)
    ensures Busy(Claimed(frames, a, n), lo, |frames|) == Busy(frames, lo, |frames|) + n
  {
    BusyRange(frames, Claimed(frames, a, n), lo, |frames|, a, n);
  }

  lemma BusyFreed(frames: seq<Frame>, lo: nat, a: nat, n: nat)
    requires lo <= a && IsChunk(frames, a, n)
    ensures Busy(Freed(frames, a, n), lo, |frames|) == Busy(frames, lo, |frames|) - n
  {
    BusyRange(Freed(frames, a, n), frames, lo, |frames|, a, n);
  }
}
