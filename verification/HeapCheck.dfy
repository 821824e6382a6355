/**
 The heap's own consistency checker (checksubpage and checksubpages in
 kern/vm/kmalloc.c), which is compiled out. On a consistent heap it finds
 nothing wrong, whatever has been allocated and freed.
 */
module HeapCheck {

  import opened Heap
  import K = Kheap
  import P = Pagerefs

  const TOTAL_PAGEREFS := P.NUM_PAGEREFPAGES * P.NPAGEREFS_PER_PAGE

  /** checksubpage: walks the free list through memory; false stands for a
      failed assertion. */
  method CheckSubpage(kh: K.Kheap, id: nat) returns (ok: bool)
    requires kh.Consistent() && id in kh.refs
    ensures ok
  {
    var r := kh.refs[id];
    PageFacts(kh.View(), id);
    if r.freeOffset == INVALID_OFFSET {
      return r.nfree == 0;
    }
    var page := r.page * PAGE_SIZE;
    if !(r.blk < NSIZES && r.freeOffset < PAGE_SIZE && r.freeOffset % SIZES[r.blk] == 0) {
      return false;
    }
    var fl, nfree := page + r.freeOffset, 0;
    while fl != 0
      invariant nfree <= |kh.free[id]|
      invariant fl == if nfree < |kh.free[id]| then kh.free[id][nfree] else 0
      invariant nfree < |kh.free[id]| ==> fl > 0
      decreases |kh.free[id]| - nfree
    {
      LinkFacts(kh.View(), id, nfree);
      if !(page <= fl < page + PAGE_SIZE && (fl - page) % SIZES[r.blk] == 0) || kh.words[fl] == fl {
        return false;
      }
      fl, nfree := kh.words[fl], nfree + 1;
    }
    return nfree == r.nfree;
  }

  /** What a reference says about its page's free list. */
  lemma PageFacts(h: Heap, id: nat)
    requires Inv(h) && id in h.refs
    ensures id in h.free && h.refs[id].blk < NSIZES && h.refs[id].nfree == |h.free[id]|
    ensures h.refs[id].freeOffset == INVALID_OFFSET <==> h.free[id] == []
    ensures h.free[id] != [] ==>
      && h.refs[id].page * PAGE_SIZE + h.refs[id].freeOffset == h.free[id][0] > 0
      && h.refs[id].freeOffset < PAGE_SIZE && h.refs[id].freeOffset % Size(h.refs[id].blk) == 0
  {
    assert RefOk(h, id);
    if h.free[id] != [] {
      BlockOffset(h, id, 0);
    }
  }

  /** Each block on the list lies on the page, on a multiple of the size. */
  lemma BlockOffset(h: Heap, id: nat, k: nat)
    requires Inv(h) && id in h.refs && id in h.free && k < |h.free[id]|
    ensures h.refs[id].blk < NSIZES && 0 < h.refs[id].page
    ensures h.refs[id].page * PAGE_SIZE <= h.free[id][k] < h.refs[id].page * PAGE_SIZE + PAGE_SIZE
    ensures (h.free[id][k] - h.refs[id].page * PAGE_SIZE) % Size(h.refs[id].blk) == 0
  {
    assert RefOk(h, id);
    var a, r := h.free[id][k], h.refs[id];
    assert BlockOk(h, a);
    var j := OnPageIsPlace(r.page, r.blk, a);
    Divides(r.blk);
    MultipleMod(j, Size(r.blk));
  }

  /** The link of the k-th block leads to the next one, never to itself. */
  lemma LinkFacts(h: Heap, id: nat, k: nat)
    requires Inv(h) && id in h.refs && id in h.free && k < |h.free[id]|
    ensures h.refs[id].blk < NSIZES
    ensures h.refs[id].page * PAGE_SIZE <= h.free[id][k] < h.refs[id].page * PAGE_SIZE + PAGE_SIZE
    ensures (h.free[id][k] - h.refs[id].page * PAGE_SIZE) % Size(h.refs[id].blk) == 0
    ensures h.free[id][k] in h.words && h.words[h.free[id][k]] != h.free[id][k]
    ensures h.words[h.free[id][k]] == if k + 1 < |h.free[id]| then h.free[id][k + 1] else 0
    ensures k + 1 < |h.free[id]| ==> h.free[id][k + 1] > 0
  {
    assert RefOk(h, id);
    BlockOffset(h, id, k);
    assert h.words[h.free[id][k]] == After(h.free[id], k);
    if k + 1 < |h.free[id]| {
      BlockOffset(h, id, k + 1);
    }
  }

  // ------------------------------------------------------------------
  // The two kinds of list have the same total length

  ghost function Concat(ls: seq<seq<nat>>): seq<nat> {
    if ls == [] then [] else Concat(ls[..|ls| - 1]) + ls[|ls| - 1]
  }

  lemma ConcatNext(ls: seq<seq<nat>>, n: nat)
    requires n < |ls|
    ensures Concat(ls[..n + 1]) == Concat(ls[..n]) + ls[n]
  {
    assert ls[..n + 1][..n] == ls[..n];
  }

  /** The first n size lists hold exactly the references of those types. */
  lemma {:induction false} SizeListsHold(h: Heap, n: nat)
    requires Inv(h) && n <= NSIZES
    ensures n <= |h.sizebases| && NoDup(Concat(h.sizebases[..n]))
    ensures forall id {:trigger id in Concat(h.sizebases[..n])} ::
      id in Concat(h.sizebases[..n]) <==> id in h.refs && h.refs[id].blk < n
  {
    if n > 0 {
      SizeListsHold(h, n - 1);
      ConcatNext(h.sizebases, n - 1);
      var q, l := Concat(h.sizebases[..n - 1]), h.sizebases[n - 1];
      assert SizeListOk(h, n - 1);
      forall id ensures id in q + l <==> id in h.refs && h.refs[id].blk < n {
        assert id in q + l <==> id in q || id in l;
      }
      NoDupJoin(q, l);
    }
  }

  lemma NoDupJoin(q: seq<nat>, l: seq<nat>)
    requires NoDup(q) && NoDup(l) && forall x :: x in q ==> x !in l
    ensures NoDup(q + l)
  {
    var r := q + l;
    forall i, j | 0 <= i < j < |r| ensures r[i] != r[j] {
      if i < |q| <= j {
        assert r[i] in q && r[j] in l;
      }
    }
  }

  /** Each reference is once on a size list and once on allbase. */
  lemma SameLengths(h: Heap)
    requires Inv(h)
    ensures |h.sizebases| == NSIZES && |Concat(h.sizebases)| == |h.allbase|
  {
    SizeListsHold(h, NSIZES);
    var q := Concat(h.sizebases);
    assert h.sizebases[..NSIZES] == h.sizebases;
    ElementsSize(q);
    ElementsSize(h.allbase);
    forall id ensures id in q <==> id in h.allbase {
      if id in h.refs { assert RefOk(h, id); }
    }
    assert Elements(q) == Elements(h.allbase);
  }

  // ------------------------------------------------------------------
  // There are at most TOTAL_PAGEREFS references

  /** The flag of a marked reference. */
  ghost function FlagOf(flags: seq<bool>, pages: seq<nat>, id: nat): (i: nat)
    requires K.Marked(flags, pages, id)
    ensures i < TOTAL_PAGEREFS
  {
    var w: nat, j: nat :| K.IsRef(flags, pages, w, j, id);
    w * P.NPAGEREFS_PER_PAGE + j
  }

  lemma FlagsDiffer(flags: seq<bool>, pages: seq<nat>, id: nat, id2: nat)
    requires K.Marked(flags, pages, id) && K.Marked(flags, pages, id2) && id != id2
    ensures FlagOf(flags, pages, id) != FlagOf(flags, pages, id2)
  {
    var w: nat, j: nat :| K.IsRef(flags, pages, w, j, id) && FlagOf(flags, pages, id) == w * P.NPAGEREFS_PER_PAGE + j;
    var w2: nat, j2: nat :|
      K.IsRef(flags, pages, w2, j2, id2) && FlagOf(flags, pages, id2) == w2 * P.NPAGEREFS_PER_PAGE + j2;
  }

  ghost predicate AllMarked(flags: seq<bool>, pages: seq<nat>, q: seq<nat>) {
    forall i :: 0 <= i < |q| ==> K.Marked(flags, pages, q[i])
  }

  /** f is the flag of some member of q. */
  ghost predicate IsFlag(flags: seq<bool>, pages: seq<nat>, q: seq<nat>, f: nat)
    requires AllMarked(flags, pages, q)
  {
    exists i :: 0 <= i < |q| && f == FlagOf(flags, pages, q[i])
  }

  /** A list of distinct marked references has as many flags as members. */
  lemma {:induction false} DistinctFlags(flags: seq<bool>, pages: seq<nat>, q: seq<nat>) returns (s: set<nat>)
    requires NoDup(q) && AllMarked(flags, pages, q)
    ensures |s| == |q|
    ensures forall f {:trigger IsFlag(flags, pages, q, f)} :: f in s ==> IsFlag(flags, pages, q, f)
  {
    if q == [] {
      s := {};
    } else {
      var n := |q| - 1;
      var r := DistinctFlags(flags, pages, q[..n]);
      var f := FlagOf(flags, pages, q[n]);
      forall g | g in r ensures g != f && IsFlag(flags, pages, q, g) {
        assert IsFlag(flags, pages, q[..n], g);
        OneMore(flags, pages, q, g);
      }
      s := r + {f};
    }
  }

  lemma OneMore(flags: seq<bool>, pages: seq<nat>, q: seq<nat>, g: nat)
    requires NoDup(q) && AllMarked(flags, pages, q) && q != [] && IsFlag(flags, pages, q[..|q| - 1], g)
    ensures g != FlagOf(flags, pages, q[|q| - 1]) && IsFlag(flags, pages, q, g)
  {
    var n := |q| - 1;
    var i :| 0 <= i < n && g == FlagOf(flags, pages, q[..n][i]);
    assert q[..n][i] == q[i];
    FlagsDiffer(flags, pages, q[i], q[n]);
  }

  lemma {:induction false} BelowSize(s: set<nat>, n: nat)
    requires forall x :: x in s ==> x < n
    ensures |s| <= n
  {
    if n == 0 {
      assert s == {};
    } else {
      BelowSize(s - {n - 1}, n - 1);
    }
  }

  lemma FewReferences(kh: K.Kheap)
    requires kh.Consistent()
    ensures |kh.allbase| <= TOTAL_PAGEREFS
  {
    var flags, pages := kh.roots.inuse[..], kh.pages;
    forall i | 0 <= i < |kh.allbase| ensures K.Marked(flags, pages, kh.allbase[i]) {
      assert kh.allbase[i] in kh.allbase;
    }
    var s := DistinctFlags(flags, pages, kh.allbase);
    forall f | f in s ensures f < TOTAL_PAGEREFS {
      assert IsFlag(flags, pages, kh.allbase, f);
    }
    BelowSize(s, TOTAL_PAGEREFS);
  }

  lemma {:induction false} ConcatGrows(ls: seq<seq<nat>>, n: nat)
    requires n <= |ls|
    ensures |Concat(ls[..n])| <= |Concat(ls)|
    decreases |ls| - n
  {
    if n < |ls| {
      ConcatNext(ls, n);
      ConcatGrows(ls, n + 1);
    } else {
      assert ls[..n] == ls;
    }
  }

  /** checksubpages: every page passes, from either list, and the two kinds of
      list hold the same number of references, which is within bounds. */
  method CheckSubpages(kh: K.Kheap) returns (ok: bool)
    requires kh.Consistent()
    ensures ok
  {
    SameLengths(kh.View());
    FewReferences(kh);
    var sc, ac := 0, 0;
    for t := 0 to NSIZES
      invariant sc == |Concat(kh.sizebases[..t])|
    {
      ConcatNext(kh.sizebases, t);
      ConcatGrows(kh.sizebases, t + 1);
      for i := 0 to |kh.sizebases[t]|
        invariant sc == |Concat(kh.sizebases[..t])| + i
      {
        SizeListEntry(kh.View(), t, i);
        var passed := CheckSubpage(kh, kh.sizebases[t][i]);
        if !passed || sc >= TOTAL_PAGEREFS {
          return false;
        }
        sc := sc + 1;
      }
    }
    assert kh.sizebases[..NSIZES] == kh.sizebases;
    for i := 0 to |kh.allbase|
      invariant ac == i
    {
      assert kh.allbase[i] in kh.allbase;
      var passed := CheckSubpage(kh, kh.allbase[i]);
      if !passed || ac >= TOTAL_PAGEREFS {
        return false;
      }
      ac := ac + 1;
    }
    return sc == ac;
  }
}
