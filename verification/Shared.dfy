/**
 The kernel heap and the virtual memory system take their frames from one
 coremap. What either does leaves the other's invariant alone.
 */
module Shared {

  import opened Paging
  import H = Heap
  import R = VmRun
  import V = Vm
  import C = Coremap

  /** Steps of the heap: every page table stays right, and every user page keeps
      its contents. */
  lemma HeapKeepsPaging(s: State, owner: map<nat, H.Owner>, owner2: map<nat, H.Owner>, frames2: seq<C.Frame>)
    requires Inv(s) && H.SameShare(owner, s.frames, {}, owner2, frames2, {})
    ensures Inv(s.(frames := frames2)) && SameMemory(s, s.(frames := frames2))
  {
    forall f: nat | f < |frames2| ensures H.IsUser(s.frames[f]) || H.IsUser(frames2[f]) ==> frames2[f] == s.frames[f] {
      assert H.SameAt(owner, s.frames, {}, owner2, frames2, {}, f);
    }
    assert SameUsed(s, frames2, s.ram);
    SameUsedKeeps(s, frames2, s.ram);
    assert s.(frames := frames2, ram := s.ram) == s.(frames := frames2);
  }

  /** A chunk of the heap is untouched when every frame of it is. */
  lemma OwnedKept(h: H.Heap, frames: seq<C.Frame>, r: seq<C.Frame>, memStart: nat)
    requires H.Owned(h, frames, memStart) && |r| == |frames|
    requires forall p, i :: p in h.owner && p <= i < p + H.Frames(h.owner[p]) && i < |frames| ==> r[i] == frames[i]
    ensures H.Owned(h, r, memStart)
  {
    forall p | p in h.owner ensures C.IsChunk(r, p, H.Frames(h.owner[p])) {
      assert h.owner[p] == h.owner[p];
      C.ChunkKept(frames, r, p, H.Frames(h.owner[p]));
    }
  }

  /** Kernel frames that come and go leave the heap's pages alone, unless one of
      them is given back. */
  lemma TrafficKeepsOwned(h: H.Heap, frames: seq<C.Frame>, r: seq<C.Frame>, memStart: nat, got: set<nat>,
                          gives: seq<nat>)
    requires H.Owned(h, frames, memStart) && C.Traffic(frames, r, memStart, got, gives)
    requires forall p :: p in h.owner ==> p !in gives
    ensures H.Owned(h, r, memStart)
  {
    forall p, i: nat | p in h.owner && p <= i < p + H.Frames(h.owner[p]) && i < |frames| ensures r[i] == frames[i] {
      assert C.IsChunk(frames, p, H.Frames(h.owner[p]));
      assert C.TrafficAt(frames, r, memStart, got, gives, i);
    }
    OwnedKept(h, frames, r, memStart);
  }

  lemma SameKeepsOwned(h: H.Heap, frames: seq<C.Frame>, r: seq<C.Frame>, memStart: nat)
    requires H.Owned(h, frames, memStart) && C.SameKernel(frames, r)
    ensures H.Owned(h, r, memStart)
  {
    C.SameIsTraffic(frames, r, memStart);
    TrafficKeepsOwned(h, frames, r, memStart, {}, []);
  }

  lemma GrewKeepsOwned(h: H.Heap, frames: seq<C.Frame>, r: seq<C.Frame>, memStart: nat, n: nat, gives: seq<nat>)
    requires H.Owned(h, frames, memStart) && C.GrewAtMost(frames, r, memStart, n, gives)
    requires forall p :: p in h.owner ==> p !in gives
    ensures H.Owned(h, r, memStart)
  {
    var got :| |got| <= n && C.Traffic(frames, r, memStart, got, gives);
    TrafficKeepsOwned(h, frames, r, memStart, got, gives);
  }

  lemma GrewIsAtMost(frames: seq<C.Frame>, r: seq<C.Frame>, memStart: nat, n: nat, gives: seq<nat>)
    requires C.Grew(frames, r, memStart, n, gives)
    ensures C.GrewAtMost(frames, r, memStart, n, gives)
  {
  }

  function GivesOf(op: R.Op): seq<nat> {
    if op.Evict? || op.PrepareLoad? || op.AllocKernel? || op.FreeKernel? then [] else op.gives
  }

  /** The operation does not free a page of the heap behind its back. */
  ghost predicate Respects(h: H.Heap, op: R.Op) {
    (forall p :: p in h.owner ==> p !in GivesOf(op)) && (op.FreeKernel? ==> op.f !in h.owner)
  }

  /** Freeing a chunk that is not the heap's. */
  lemma FreeKeepsOwned(h: H.Heap, frames: seq<C.Frame>, memStart: nat, f: nat)
    requires H.Owned(h, frames, memStart) && f < |frames| && frames[f].state != C.Used && f !in h.owner
    requires C.ChunksOk(frames, memStart) && C.SizesOk(frames, memStart)
    ensures H.Owned(h, C.Freed(frames, f, frames[f].chunk), memStart)
  {
    var n := frames[f].chunk;
    var r := C.Freed(frames, f, n);
    assert C.SizeOk(frames[f], f < memStart);
    if frames[f].state == C.Fixed && n > 0 {
      C.HeadIsChunk(frames, memStart, f);
      H.OwnedFree(h, frames, memStart, f, n);
    } else {
      forall p, i: nat | p in h.owner && p <= i < p + H.Frames(h.owner[p]) && i < |frames| ensures r[i] == frames[i] {
        assert C.IsChunk(frames, p, H.Frames(h.owner[p]));
      }
      OwnedKept(h, frames, r, memStart);
    }
  }

  lemma EvictKeepsOwned(h: H.Heap, s: State, s2: State, memStart: nat, v: nat, d: nat)
    requires H.Owned(h, s.frames, memStart) && R.Evicted(s, s2, v, d)
    ensures H.Owned(h, s2.frames, memStart)
  {
    forall p, i: nat | p in h.owner && p <= i < p + H.Frames(h.owner[p]) && i < |s.frames|
      ensures s2.frames[i] == s.frames[i]
    {
      assert C.IsChunk(s.frames, p, H.Frames(h.owner[p]));
      assert i == v || C.KernelAt(s.frames, s2.frames, i);
    }
    OwnedKept(h, s.frames, s2.frames, memStart);
  }

  /** Operations whose kernel frames change as Traffic says. */
  lemma TrafficOp(h: H.Heap, s: State, s2: State, memStart: nat, op: R.Op, out: R.Outcome)
    requires H.Owned(h, s.frames, memStart) && R.StepOk(s, s2, memStart, op, out) && Respects(h, op)
    requires out.Failed? || !(op.Evict? || op.AllocKernel? || op.FreeKernel?)
    ensures C.SameKernel(s.frames, s2.frames) || exists n, gives ::
      C.GrewAtMost(s.frames, s2.frames, memStart, n, gives) && forall p :: p in h.owner ==> p !in gives
  {
    var none: seq<nat> := [];
    if out.Failed? {
      if !C.SameKernel(s.frames, s2.frames) && !op.Copy? {
        var n := if R.IsAccess(op) then V.FaultClaims(s, memStart, op.a, op.vp, op.k)
          else V.Least(op.k.claims, V.FreeFrames(s, memStart));
        GrewIsAtMost(s.frames, s2.frames, memStart, n, op.gives);
      }
    } else {
      match op
      case Create(_, k, _) => GrewIsAtMost(s.frames, s2.frames, memStart, k.claims, none);
      case DefineRegion(_, _, _, k, _) => GrewIsAtMost(s.frames, s2.frames, memStart, k.claims, none);
      case PrepareLoad(_) =>
      case Fault(a, vp, k, _) => AccessOp(s, s2, memStart, a, vp, k);
      case Load(a, vp, k, _) => AccessOp(s, s2, memStart, a, vp, k);
      case Store(a, vp, _, k, _) => AccessOp(s, s2, memStart, a, vp, k);
      case Copy(a, _, mem, _) => GrewIsAtMost(s.frames, s2.frames, memStart, V.CopyClaims(s, a, mem), none);
      case Destroy(_, gives) => TrafficIsAtMost(s.frames, s2.frames, memStart, gives);
      case Sbrk(_, increment, gives) =>
        TrafficIsAtMost(s.frames, s2.frames, memStart, if increment < 0 then gives else none);
    }
  }

  lemma TrafficIsAtMost(frames: seq<C.Frame>, r: seq<C.Frame>, memStart: nat, gives: seq<nat>)
    requires C.Traffic(frames, r, memStart, {}, gives)
    ensures C.GrewAtMost(frames, r, memStart, 0, gives)
  {
    var got: set<nat> := {};
    assert |got| <= 0 && C.Traffic(frames, r, memStart, got, gives);
  }

  lemma AccessOp(s: State, s2: State, memStart: nat, a: nat, vp: nat, k: V.Kmem)
    requires V.FaultTraffic(s, s2, memStart, a, vp, k, [])
    ensures C.SameKernel(s.frames, s2.frames) || exists n :: C.GrewAtMost(s.frames, s2.frames, memStart, n, [])
  {
    if !C.SameKernel(s.frames, s2.frames) {
      GrewIsAtMost(s.frames, s2.frames, memStart, V.FaultClaims(s, memStart, a, vp, k), []);
    }
  }

  /** Steps of the virtual memory system: the coremap still has a chunk for every
      page of the heap. */
  lemma VmKeepsOwned(h: H.Heap, s: State, s2: State, memStart: nat, op: R.Op, out: R.Outcome)
    requires H.Owned(h, s.frames, memStart) && C.ChunksOk(s.frames, memStart) && C.SizesOk(s.frames, memStart)
    requires R.StepOk(s, s2, memStart, op, out) && Respects(h, op)
    ensures H.Owned(h, s2.frames, memStart)
  {
    if out.Failed? || !(op.Evict? || op.AllocKernel? || op.FreeKernel?) {
      TrafficOp(h, s, s2, memStart, op, out);
      if C.SameKernel(s.frames, s2.frames) {
        SameKeepsOwned(h, s.frames, s2.frames, memStart);
      } else {
        var n, gives :| C.GrewAtMost(s.frames, s2.frames, memStart, n, gives) && forall p :: p in h.owner ==>
          p !in gives;
        GrewKeepsOwned(h, s.frames, s2.frames, memStart, n, gives);
      }
    } else if op.Evict? {
      var v, d :| R.Evicted(s, s2, v, d);
      EvictKeepsOwned(h, s, s2, memStart, v, d);
    } else if op.AllocKernel? {
      var f :| R.Claims(s, s2, memStart, f, op.n);
      H.OwnedClaim(h, s.frames, memStart, f, op.n);
    } else {
      FreeKeepsOwned(h, s.frames, memStart, op.f);
    }
  }
}
