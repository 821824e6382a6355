/**
 The kernel heap's page references in use (struct kheap_root in
 kern/vm/kmalloc.c): 16 roots of 256 references, kept in 8 words of 32 flags
 each, and for each root a count that equals the number of its set flags.
 */
module Pagerefs {

  import opened KernLib

  const NUM_PAGEREFPAGES := 16
  const NPAGEREFS_PER_PAGE := 256
  const INUSE_WORDS := 8
  const WORD_BITS := 32

  /** Number of set flags in [lo, hi). */
  ghost function Count(flags: seq<bool>, lo: nat, hi: nat): nat
    requires hi <= |flags|
  {
    if hi <= lo then 0 else Count(flags, lo, hi - 1) + (if flags[hi - 1] then 1 else 0)
  }

  lemma {:induction false} CountUpdate(flags: seq<bool>, lo: nat, hi: nat, i: nat, b: bool)
    requires lo <= hi <= |flags| && i < |flags|
    ensures Count(flags[i := b], lo, hi)
         == Count(flags, lo, hi) + (if lo <= i < hi then (if b then 1 else 0) - (if flags[i] then 1 else 0) else 0)
    decreases hi
  {
    if lo < hi {
      CountUpdate(flags, lo, hi - 1, i, b);
    }
  }

  /** Full exactly when every flag is set. */
  lemma {:induction false} CountFull(flags: seq<bool>, lo: nat, hi: nat)
    requires lo <= hi <= |flags|
    ensures Count(flags, lo, hi) <= hi - lo
    ensures Count(flags, lo, hi) == hi - lo <==> forall i :: lo <= i < hi ==> flags[i]
  {
    if lo < hi {
      CountFull(flags, lo, hi - 1);
    }
  }

  lemma {:induction false} CountNone(flags: seq<bool>, lo: nat, hi: nat)
    requires lo <= hi <= |flags| && forall i :: lo <= i < hi ==> !flags[i]
    ensures Count(flags, lo, hi) == 0
  {
    if lo < hi {
      CountNone(flags, lo, hi - 1);
    }
  }

  /** Each root's numinuse is the number of its references in use. */
  ghost predicate Counted(flags: seq<bool>, numinuse: seq<nat>) {
    && |flags| == NUM_PAGEREFPAGES * NPAGEREFS_PER_PAGE && |numinuse| == NUM_PAGEREFPAGES
    && forall w: nat {:trigger numinuse[w]} :: w < NUM_PAGEREFPAGES ==>
      numinuse[w] == Count(flags, w * NPAGEREFS_PER_PAGE, (w + 1) * NPAGEREFS_PER_PAGE)
  }

  lemma CountedUpdate(flags: seq<bool>, numinuse: seq<nat>, w: nat, j: nat, b: bool)
    requires Counted(flags, numinuse) && w < NUM_PAGEREFPAGES && j < NPAGEREFS_PER_PAGE
    requires flags[w * NPAGEREFS_PER_PAGE + j] == !b
    ensures !b ==> numinuse[w] > 0
    ensures Counted(flags[w * NPAGEREFS_PER_PAGE + j := b],
                    numinuse[w := if b then numinuse[w] + 1 else numinuse[w] - 1])
  {
    var i := w * NPAGEREFS_PER_PAGE + j;
    var flags2 := flags[i := b];
    CountUpdate(flags, w * NPAGEREFS_PER_PAGE, (w + 1) * NPAGEREFS_PER_PAGE, i, b);
    forall v: nat | v < NUM_PAGEREFPAGES
      ensures Count(flags2, v * NPAGEREFS_PER_PAGE, (v + 1) * NPAGEREFS_PER_PAGE)
           == if v != w then numinuse[v] else if b then numinuse[v] + 1 else numinuse[v] - 1
    {
      CountUpdate(flags, v * NPAGEREFS_PER_PAGE, (v + 1) * NPAGEREFS_PER_PAGE, i, b);
    }
  }

  /** The first flag that is not set is flag j of root w. */
  ghost predicate NextRef(flags: seq<bool>, w: nat, j: nat) {
    && |flags| == NUM_PAGEREFPAGES * NPAGEREFS_PER_PAGE && w < NUM_PAGEREFPAGES && j < NPAGEREFS_PER_PAGE
    && !flags[w * NPAGEREFS_PER_PAGE + j] && forall i :: 0 <= i < w * NPAGEREFS_PER_PAGE + j ==> flags[i]
  }

  ghost predicate AllUsed(flags: seq<bool>) { forall i :: 0 <= i < |flags| ==> flags[i] }

  class Roots {
    const inuse: array<bool>
    var numinuse: seq<nat>

    ghost predicate Valid()
      reads this, inuse
    {
      Counted(inuse[..], numinuse)
    }

    constructor ()
      ensures Valid() && fresh(inuse)
      ensures forall i :: 0 <= i < inuse.Length ==> !inuse[i]
      ensures forall w :: 0 <= w < |numinuse| ==> numinuse[w] == 0
    {
      inuse := new bool[NUM_PAGEREFPAGES * NPAGEREFS_PER_PAGE](i => false);
      numinuse := seq(NUM_PAGEREFPAGES, w => 0);
      new;
      forall w: nat | w < NUM_PAGEREFPAGES
        ensures Count(inuse[..], w * NPAGEREFS_PER_PAGE, (w + 1) * NPAGEREFS_PER_PAGE) == 0
      {
        CountNone(inuse[..], w * NPAGEREFS_PER_PAGE, (w + 1) * NPAGEREFS_PER_PAGE);
      }
    }

    /** The search of allocpageref: the first free reference of the first root
        that has one, None exactly when all are in use. */
    method Alloc() returns (r: Option<(nat, nat)>)
      requires Valid()
      modifies this`numinuse, inuse
      ensures Valid()
      ensures r.None? <==> AllUsed(old(inuse[..]))
      ensures r.None? ==> inuse[..] == old(inuse[..]) && numinuse == old(numinuse)
      ensures r.Some? ==>
        && var (w, j) := r.value;
        && NextRef(old(inuse[..]), w, j)
        && inuse[..] == old(inuse[..])[w * NPAGEREFS_PER_PAGE + j := true]
        && numinuse == old(numinuse)[w := old(numinuse)[w] + 1]
    {
      for w := 0 to NUM_PAGEREFPAGES
        invariant inuse[..] == old(inuse[..]) && numinuse == old(numinuse)
        invariant forall i :: 0 <= i < w * NPAGEREFS_PER_PAGE ==> inuse[i]
      {
        CountFull(inuse[..], w * NPAGEREFS_PER_PAGE, (w + 1) * NPAGEREFS_PER_PAGE);
        if numinuse[w] < NPAGEREFS_PER_PAGE {
          var j := FirstFree(w);
          CountedUpdate(inuse[..], numinuse, w, j, true);
          ghost var flags := inuse[..];
          inuse[w * NPAGEREFS_PER_PAGE + j] := true;
          numinuse := numinuse[w := numinuse[w] + 1];
          assert inuse[..] == flags[w * NPAGEREFS_PER_PAGE + j := true];
          return Some((w, j));
        }
      }
      return None;
    }

    /** The word and bit loops; the assertion after the bit loop is not
        reached because the root is not full. */
    method FirstFree(w: nat) returns (j: nat)
      requires Valid() && w < NUM_PAGEREFPAGES
      requires !forall i :: w * NPAGEREFS_PER_PAGE <= i < (w + 1) * NPAGEREFS_PER_PAGE ==> inuse[i]
      ensures j < NPAGEREFS_PER_PAGE && !inuse[w * NPAGEREFS_PER_PAGE + j]
      ensures forall m :: w * NPAGEREFS_PER_PAGE <= m < w * NPAGEREFS_PER_PAGE + j ==> inuse[m]
    {
      var base, i := w * NPAGEREFS_PER_PAGE, 0;
      while i < INUSE_WORDS
        invariant i <= INUSE_WORDS
        invariant forall m :: base <= m < base + i * WORD_BITS ==> inuse[m]
      {
        var b := 0;
        while b < WORD_BITS
          invariant b <= WORD_BITS
          invariant forall m :: base <= m < base + i * WORD_BITS + b ==> inuse[m]
        {
          if !inuse[base + i * WORD_BITS + b] {
            return i * WORD_BITS + b;
          }
          b := b + 1;
        }
        i := i + 1;
      }
      assert false;
    }

    /** The bit work of freepageref. */
    method Free(w: nat, j: nat)
      requires Valid() && w < NUM_PAGEREFPAGES && j < NPAGEREFS_PER_PAGE && inuse[w * NPAGEREFS_PER_PAGE + j]
      modifies this`numinuse, inuse
      ensures Valid() && old(numinuse)[w] > 0
      ensures inuse[..] == old(inuse[..])[w * NPAGEREFS_PER_PAGE + j := false]
      ensures numinuse == old(numinuse)[w := old(numinuse)[w] - 1]
    {
      CountedUpdate(inuse[..], numinuse, w, j, false);
      ghost var flags := inuse[..];
      inuse[w * NPAGEREFS_PER_PAGE + j] := false;
      numinuse := numinuse[w := numinuse[w] - 1];
      assert inuse[..] == flags[w * NPAGEREFS_PER_PAGE + j := false];
    }
  }
}
