/**
 The kernel heap of kern/vm/kmalloc.c on values: which blocks exist on which
 pages, the intrusive free list of each page, and the lists of page references.
 Addresses are bytes from the start of physical memory; 0 is NULL.
 */
module Heap {

  import C = Coremap

  const PAGE_SIZE := C.PAGE_SIZE
  const NSIZES := 8
  const SIZES: seq<nat> := [16, 32, 64, 128, 256, 512, 1024, 2048]
  const LARGEST_SUBPAGE_SIZE := 2048
  const INVALID_OFFSET := 0xffff

  function Size(t: nat): nat
    requires t < NSIZES
  {
    SIZES[t]
  }

  function Capacity(t: nat): nat
    requires t < NSIZES
  {
    PAGE_SIZE / Size(t)
  }

  /** struct pageref without its links; page is a frame number. */
  datatype PageRef = PageRef(page: nat, blk: nat, freeOffset: nat, nfree: nat)

  /** What an address is the start of. Free and Live name the page's reference;
      size is what the client asked for. */
  datatype Block = Free(id: nat) | Live(id: nat, size: nat) | Big(npages: nat, size: nat)

  /** What the heap uses a chunk of frames for. */
  datatype Owner = HeapPage(id: nat) | RefPage(root: nat) | BigPage(npages: nat)

  /** words holds the first word of blocks, where free blocks keep their link.
      The last three fields are bookkeeping for the proof. */
  datatype Heap = Heap(refs: map<nat, PageRef>, words: map<nat, nat>, sizebases: seq<seq<nat>>, allbase: seq<nat>,
                       free: map<nat, seq<nat>>, blocks: map<nat, Block>, owner: map<nat, Owner>)

  // ------------------------------------------------------------------
  // Invariant

  ghost predicate NoDup(q: seq<nat>) { forall i, j :: 0 <= i < j < |q| ==> q[i] != q[j] }

  /** fl lists exactly the free blocks of the page, each once. */
  ghost predicate Lists(fl: seq<nat>, blocks: map<nat, Block>, id: nat) {
    && NoDup(fl)
    && (forall i :: 0 <= i < |fl| ==> fl[i] in blocks && blocks[fl[i]] == Free(id))
    && (forall a {:trigger a in fl} :: a in blocks && blocks[a] == Free(id) ==> a in fl)
  }

  /** Each free block's first word points to the next one, the last is NULL. */
  ghost predicate Chain(words: map<nat, nat>, fl: seq<nat>) {
    forall i :: 0 <= i < |fl| ==> fl[i] in words && words[fl[i]] == After(fl, i)
  }

  function After(fl: seq<nat>, i: nat): nat { if i + 1 < |fl| then fl[i + 1] else 0 }

  /** a is a properly placed block on the page of r. */
  predicate OnPage(r: PageRef, a: nat) { r.blk < NSIZES && a / PAGE_SIZE == r.page && a % Size(r.blk) == 0 }

  /** freelist_offset: where the list starts, or the invalid value. */
  function HeadOffset(fl: seq<nat>, page: nat): nat {
    if fl == [] then INVALID_OFFSET else if fl[0] >= page * PAGE_SIZE then fl[0] - page * PAGE_SIZE else 0
  }

  ghost predicate RefOk(h: Heap, id: nat)
    requires id in h.refs
  {
    && h.refs[id].blk < NSIZES && 0 < h.refs[id].page
    && h.refs[id].page in h.owner && h.owner[h.refs[id].page] == HeapPage(id)
    && id in h.free && h.refs[id].nfree == |h.free[id]|
    && Lists(h.free[id], h.blocks, id) && Chain(h.words, h.free[id])
    && h.refs[id].freeOffset == HeadOffset(h.free[id], h.refs[id].page)
  }

  ghost predicate BlockOk(h: Heap, a: nat)
    requires a in h.blocks
  {
    match h.blocks[a]
    case Free(id) => id in h.refs && OnPage(h.refs[id], a)
    case Live(id, size) => id in h.refs && OnPage(h.refs[id], a) && size <= Size(h.refs[id].blk)
    case Big(n, size) =>
      && 0 < n && a % PAGE_SIZE == 0 && size <= n * PAGE_SIZE
      && a / PAGE_SIZE in h.owner && h.owner[a / PAGE_SIZE] == BigPage(n)
  }

  /** Every place for a block on a heap page is a block of that page. */
  ghost predicate PlaceOk(h: Heap, id: nat, a: nat)
    requires id in h.refs
  {
    OnPage(h.refs[id], a) ==> a in h.blocks && !h.blocks[a].Big? && h.blocks[a].id == id
  }

  ghost predicate OwnerOk(h: Heap, p: nat)
    requires p in h.owner
  {
    match h.owner[p]
    case HeapPage(id) => id in h.refs && h.refs[id].page == p
    case RefPage(_) => true
    case BigPage(n) => p * PAGE_SIZE in h.blocks && h.blocks[p * PAGE_SIZE].Big? && h.blocks[p * PAGE_SIZE].npages == n
  }

  /** Each reference is once on its own size list and once on allbase. */
  ghost predicate ListsOk(h: Heap) {
    && |h.sizebases| == NSIZES && NoDup(h.allbase)
    && (forall id {:trigger id in h.allbase} :: id in h.allbase <==> id in h.refs)
    && (forall t :: 0 <= t < NSIZES ==> SizeListOk(h, t))
  }

  ghost predicate SizeListOk(h: Heap, t: nat)
    requires t < |h.sizebases|
  {
    && NoDup(h.sizebases[t])
    && forall id {:trigger id in h.sizebases[t]} :: id in h.sizebases[t] <==> id in h.refs && h.refs[id].blk == t
  }

  ghost predicate Inv(h: Heap) {
    && (forall id {:trigger RefOk(h, id)} :: id in h.refs ==> RefOk(h, id))
    && (forall a {:trigger BlockOk(h, a)} :: a in h.blocks ==> BlockOk(h, a))
    && (forall id, a {:trigger PlaceOk(h, id, a)} :: id in h.refs ==> PlaceOk(h, id, a))
    && (forall p {:trigger OwnerOk(h, p)} :: p in h.owner ==> OwnerOk(h, p))
    && ListsOk(h)
  }

  /** No page is wholly free. */
  ghost predicate NoneWhole(h: Heap) {
    forall id :: id in h.refs && h.refs[id].blk < NSIZES ==> h.refs[id].nfree < Capacity(h.refs[id].blk)
  }

  // ------------------------------------------------------------------
  // Free lists

  lemma ListsTail(fl: seq<nat>, blocks: map<nat, Block>, id: nat, b: Block)
    requires Lists(fl, blocks, id) && fl != [] && b != Free(id)
    ensures Lists(fl[1..], blocks[fl[0] := b], id)
  {
    var r, blocks2 := fl[1..], blocks[fl[0] := b];
    forall a | a in blocks2 && blocks2[a] == Free(id) ensures a in r {
      assert a in fl;
      var i :| 0 <= i < |fl| && fl[i] == a;
      assert r[i - 1] == a;
    }
  }

  lemma ListsPush(fl: seq<nat>, blocks: map<nat, Block>, id: nat, a: nat)
    requires Lists(fl, blocks, id) && (a in blocks ==> blocks[a] != Free(id))
    ensures Lists([a] + fl, blocks[a := Free(id)], id)
  {
    var r, blocks2 := [a] + fl, blocks[a := Free(id)];
    forall i | 0 < i < |r| ensures r[i] == fl[i - 1] && r[i] != a {
    }
    forall c | c in blocks2 && blocks2[c] == Free(id) ensures c in r {
      if c == a { assert r[0] == a; } else {
        assert c in fl;
        var i :| 0 <= i < |fl| && fl[i] == c;
        assert r[i + 1] == c;
      }
    }
  }

  lemma ListsOther(fl: seq<nat>, blocks: map<nat, Block>, id: nat, a: nat, b: Block)
    requires Lists(fl, blocks, id) && (a in blocks ==> blocks[a] != Free(id)) && b != Free(id)
    ensures Lists(fl, blocks[a := b], id)
  {
  }

  lemma ChainTail(words: map<nat, nat>, fl: seq<nat>)
    requires Chain(words, fl) && fl != []
    ensures Chain(words, fl[1..]) && fl[0] in words && words[fl[0]] == if |fl| == 1 then 0 else fl[1]
  {
    forall i | 0 <= i < |fl| - 1 ensures fl[1..][i] == fl[i + 1] && After(fl[1..], i) == After(fl, i + 1) {
    }
  }

  lemma ChainPush(words: map<nat, nat>, fl: seq<nat>, a: nat)
    requires Chain(words, fl) && a !in fl
    ensures Chain(words[a := if fl == [] then 0 else fl[0]], [a] + fl)
  {
    var r := [a] + fl;
    forall i | 0 < i < |r| ensures r[i] == fl[i - 1] && r[i] != a && After(r, i) == After(fl, i - 1) {
    }
  }

  lemma ChainOther(words: map<nat, nat>, fl: seq<nat>, a: nat, v: nat)
    requires Chain(words, fl) && a !in fl
    ensures Chain(words[a := v], fl)
  {
  }

  // ------------------------------------------------------------------
  // Allocation from a page

  function Pop(h: Heap, id: nat, size: nat): Heap
    requires id in h.refs && id in h.free && h.free[id] != [] && h.refs[id].nfree > 0
  {
    h.(refs := h.refs[id := h.refs[id].(nfree := h.refs[id].nfree - 1,
                                        freeOffset := HeadOffset(h.free[id][1..], h.refs[id].page))],
       free := h.free[id := h.free[id][1..]],
       blocks := h.blocks[h.free[id][0] := Live(id, size)])
  }

  lemma PopKeeps(h: Heap, id: nat, size: nat)
    requires Inv(h) && id in h.refs && h.refs[id].nfree > 0 && h.refs[id].blk < NSIZES && size <= Size(h.refs[id].blk)
    ensures id in h.free && h.free[id] != [] && Inv(Pop(h, id, size))
    ensures forall id2 :: id2 in h.refs && id2 != id ==> Pop(h, id, size).refs[id2] == h.refs[id2]
  {
    assert RefOk(h, id);
    var a, h2 := h.free[id][0], Pop(h, id, size);
    assert a in h.blocks && h.blocks[a] == Free(id);
    assert BlockOk(h, a);
    forall id2 | id2 in h2.refs ensures RefOk(h2, id2) {
      assert RefOk(h, id2);
      if id2 == id {
        ListsTail(h.free[id], h.blocks, id, Live(id, size));
        ChainTail(h.words, h.free[id]);
      } else {
        ListsOther(h.free[id2], h.blocks, id2, a, Live(id, size));
      }
    }
    forall b | b in h2.blocks ensures BlockOk(h2, b) {
      if b != a { assert BlockOk(h, b); }
    }
    forall id2, b | id2 in h2.refs ensures PlaceOk(h2, id2, b) {
      assert PlaceOk(h, id2, b);
    }
    forall p | p in h2.owner ensures OwnerOk(h2, p) {
      assert OwnerOk(h, p);
    }
    assert ListsOk(h2) by { ListsSame(h, h2); }
  }

  lemma ListsSame(h: Heap, h2: Heap)
    requires ListsOk(h) && h2.sizebases == h.sizebases && h2.allbase == h.allbase && h2.refs.Keys == h.refs.Keys
    requires forall id :: id in h.refs ==> h2.refs[id].blk == h.refs[id].blk
    ensures ListsOk(h2)
  {
    forall t | 0 <= t < NSIZES ensures SizeListOk(h2, t) {
      assert SizeListOk(h, t);
    }
  }

  // ------------------------------------------------------------------
  // Freeing onto a page

  function Push(h: Heap, id: nat, a: nat): Heap
    requires id in h.refs && id in h.free
  {
    h.(refs := h.refs[id := h.refs[id].(nfree := h.refs[id].nfree + 1, freeOffset := HeadOffset([a], h.refs[id].page))],
       words := h.words[a := if h.free[id] == [] then 0 else h.free[id][0]],
       free := h.free[id := [a] + h.free[id]],
       blocks := h.blocks[a := Free(id)])
  }

  lemma PushKeeps(h: Heap, id: nat, a: nat)
    requires Inv(h) && a in h.blocks && h.blocks[a].Live? && h.blocks[a].id == id
    ensures id in h.refs && id in h.free && Inv(Push(h, id, a))
    ensures forall id2 :: id2 in h.refs && id2 != id ==> Push(h, id, a).refs[id2] == h.refs[id2]
  {
    assert BlockOk(h, a);
    assert RefOk(h, id);
    var h2 := Push(h, id, a);
    forall id2 | id2 in h2.refs ensures RefOk(h2, id2) {
      assert RefOk(h, id2);
      if id2 == id {
        ListsPush(h.free[id], h.blocks, id, a);
        ChainPush(h.words, h.free[id], a);
      } else {
        ListsOther(h.free[id2], h.blocks, id2, a, Free(id));
        ChainOther(h.words, h.free[id2], a, h2.words[a]);
      }
    }
    forall b | b in h2.blocks ensures BlockOk(h2, b) {
      assert BlockOk(h, b);
    }
    forall id2, b | id2 in h2.refs ensures PlaceOk(h2, id2, b) {
      assert PlaceOk(h, id2, b);
    }
    forall p | p in h2.owner ensures OwnerOk(h2, p) {
      assert OwnerOk(h, p);
    }
    ListsSame(h, h2);
  }

  // ------------------------------------------------------------------
  // Pages that come and go

  /** Address of block j on page p. */
  function Place(p: nat, t: nat, j: nat): nat
    requires t < NSIZES
  {
    p * PAGE_SIZE + j * Size(t)
  }

  /** Block sizes divide the page size. */
  lemma Divides(t: nat)
    requires t < NSIZES
    ensures 0 < Size(t) && 1 < Capacity(t) && Capacity(t) * Size(t) == PAGE_SIZE
  {
    assert t == 0 || t == 1 || t == 2 || t == 3 || t == 4 || t == 5 || t == 6 || t == 7;
  }

  lemma MultipleMod(q: nat, z: nat)
    requires z > 0
    ensures (q * z) % z == 0
  {
    var x := q * z;
    var c, r := x / z, x % z;
    assert x == c * z + r;
    if q > c {
      MulLess(c, q, z);
    } else if q < c {
      MulLess(q, c, z);
    }
  }

  lemma MulLess(j: nat, n: nat, z: nat)
    requires j < n && z > 0
    ensures j * z + z <= n * z
  {
    assert n * z == (n - 1 - j) * z + (j + 1) * z;
  }

  lemma PlaceIsOnPage(p: nat, t: nat, j: nat)
    requires t < NSIZES && j < Capacity(t)
    ensures Place(p, t, j) / PAGE_SIZE == p && Place(p, t, j) % Size(t) == 0
  {
    var z, n := Size(t), Capacity(t);
    Divides(t);
    MulLess(j, n, z);
    assert p * PAGE_SIZE + j * z == (p * n + j) * z by {
      assert p * (n * z) == (p * n) * z;
    }
    MultipleMod(p * n + j, z);
  }

  lemma OnPageIsPlace(p: nat, t: nat, a: nat) returns (j: nat)
    requires t < NSIZES && a / PAGE_SIZE == p && a % Size(t) == 0
    ensures j < Capacity(t) && a == Place(p, t, j)
  {
    var z, n := Size(t), Capacity(t);
    Divides(t);
    var q := a / z;
    assert a == q * z;
    QuotientInPage(a, p, q, z, n);
    j := q - p * n;
    assert (q - p * n) * z == q * z - p * n * z;
  }

  lemma QuotientInPage(a: nat, p: nat, q: nat, z: nat, n: nat)
    requires z > 0 && n * z == PAGE_SIZE && a == q * z && a / PAGE_SIZE == p
    ensures p * n <= q < p * n + n && p * n * z == p * PAGE_SIZE
  {
    assert p * n * z == p * (n * z);
    if q < p * n {
      MulLess(q, p * n, z);
    } else if q >= p * n + n {
      MulLess(p * n + n - 1, q + 1, z);
      assert (p * n + n) * z == p * n * z + n * z;
      assert (p * n + n - 1) * z + z == (p * n + n) * z;
      MulMono(p * n + n, q, z);
    }
  }

  lemma MulMono(a: nat, b: nat, z: nat)
    requires a <= b
    ensures a * z <= b * z
  {
  }

  /** The free list a fresh page starts with: highest block first. */
  function FullList(p: nat, t: nat): seq<nat>
    requires t < NSIZES
  {
    seq(Capacity(t), (i: nat) requires i < Capacity(t) => Place(p, t, Capacity(t) - 1 - i))
  }

  lemma PlacesDiffer(p: nat, t: nat, i: nat, j: nat)
    requires t < NSIZES && i < j
    ensures Place(p, t, i) + Size(t) <= Place(p, t, j) && 0 < Size(t)
  {
    Divides(t);
    MulLess(i, j, Size(t));
  }

  lemma FullListOk(p: nat, t: nat)
    requires t < NSIZES
    ensures FullList(p, t) != [] && NoDup(FullList(p, t))
    ensures forall i :: 0 <= i < |FullList(p, t)| ==>
      FullList(p, t)[i] / PAGE_SIZE == p && FullList(p, t)[i] % Size(t) == 0
    ensures forall a: nat {:trigger a in FullList(p, t)} :: a / PAGE_SIZE == p && a % Size(t) == 0 ==>
      a in FullList(p, t)
  {
    Divides(t);
    var fl := FullList(p, t);
    forall i | 0 <= i < |fl| ensures fl[i] / PAGE_SIZE == p && fl[i] % Size(t) == 0 {
      PlaceIsOnPage(p, t, Capacity(t) - 1 - i);
    }
    forall i, j | 0 <= i < j < |fl| ensures fl[i] != fl[j] {
      PlacesDiffer(p, t, Capacity(t) - 1 - j, Capacity(t) - 1 - i);
    }
    forall a: nat | a / PAGE_SIZE == p && a % Size(t) == 0 ensures a in fl {
      var j := OnPageIsPlace(p, t, a);
      assert fl[Capacity(t) - 1 - j] == a;
    }
  }

  function FreshBlocks(fl: seq<nat>, id: nat): map<nat, Block> { map a | a in fl :: Free(id) }

  function AddPage(h: Heap, id: nat, p: nat, t: nat, words: map<nat, nat>): Heap
    requires t < NSIZES == |h.sizebases|
  {
    h.(refs := h.refs[id := PageRef(p, t, HeadOffset(FullList(p, t), p), Capacity(t))],
       words := words,
       sizebases := h.sizebases[t := [id] + h.sizebases[t]],
       allbase := [id] + h.allbase,
       free := h.free[id := FullList(p, t)],
       blocks := h.blocks + FreshBlocks(FullList(p, t), id),
       owner := h.owner[p := HeapPage(id)])
  }

  /** Memory outside page p is the same. */
  ghost predicate SameOutside(words: map<nat, nat>, words2: map<nat, nat>, p: nat) {
    forall a: nat :: a in words && a / PAGE_SIZE != p ==> a in words2 && words2[a] == words[a]
  }

  /** All blocks lie on owned pages. */
  lemma BlockPageOwned(h: Heap, a: nat)
    requires Inv(h) && a in h.blocks
    ensures a / PAGE_SIZE in h.owner
  {
    assert BlockOk(h, a);
    if !h.blocks[a].Big? {
      assert RefOk(h, h.blocks[a].id);
    }
  }

  lemma ListsFresh(fl: seq<nat>, blocks: map<nat, Block>, id: nat)
    requires NoDup(fl) && forall a :: a in blocks ==> blocks[a] != Free(id)
    ensures Lists(fl, blocks + FreshBlocks(fl, id), id)
  {
  }

  lemma ListsMore(fl: seq<nat>, blocks: map<nat, Block>, id: nat, more: seq<nat>, id2: nat)
    requires Lists(fl, blocks, id) && id != id2 && forall i :: 0 <= i < |more| ==> more[i] !in blocks
    ensures Lists(fl, blocks + FreshBlocks(more, id2), id)
  {
  }

  lemma ChainSame(words: map<nat, nat>, words2: map<nat, nat>, fl: seq<nat>, p: nat)
    requires Chain(words, fl) && SameOutside(words, words2, p) && forall i :: 0 <= i < |fl| ==> fl[i] / PAGE_SIZE != p
    ensures Chain(words2, fl)
  {
  }

  lemma ListsOkAdd(h: Heap, h2: Heap, id: nat, t: nat)
    requires ListsOk(h) && id !in h.refs && t < NSIZES
    requires h2.refs.Keys == h.refs.Keys + {id} && h2.refs[id].blk == t
    requires forall id2 :: id2 in h.refs ==> h2.refs[id2] == h.refs[id2]
    requires h2.sizebases == h.sizebases[t := [id] + h.sizebases[t]] && h2.allbase == [id] + h.allbase
    ensures ListsOk(h2)
  {
    NoDupCons(h.allbase, id);
    assert forall id2 {:trigger id2 in h2.allbase} :: id2 in h2.allbase <==> id2 == id || id2 in h.allbase;
    forall u | 0 <= u < NSIZES ensures SizeListOk(h2, u) {
      assert SizeListOk(h, u);
      if u == t {
        NoDupCons(h.sizebases[t], id);
        assert forall id2 {:trigger id2 in h2.sizebases[t]} :: id2 in h2.sizebases[t] <==>
          id2 == id || id2 in h.sizebases[t];
      }
    }
  }

  lemma NoDupCons(q: seq<nat>, x: nat)
    requires NoDup(q) && x !in q
    ensures NoDup([x] + q)
  {
    var r := [x] + q;
    forall i, j | 0 <= i < j < |r| ensures r[i] != r[j] {
      assert r[j] == q[j - 1];
    }
  }

  /** A page that is not owned holds no block, and an unused reference none. */
  lemma FreshPage(h: Heap, id: nat, p: nat, t: nat)
    requires Inv(h) && id !in h.refs && p !in h.owner && t < NSIZES
    ensures forall a :: a in h.blocks ==> a / PAGE_SIZE != p && h.blocks[a] != Free(id)
    ensures forall i :: 0 <= i < |FullList(p, t)| ==> FullList(p, t)[i] !in h.blocks
  {
    FullListOk(p, t);
    forall a | a in h.blocks ensures a / PAGE_SIZE != p && h.blocks[a] != Free(id) {
      BlockPageOwned(h, a);
      assert BlockOk(h, a);
    }
  }

  lemma AddPageRef(h: Heap, id: nat, p: nat, t: nat, words: map<nat, nat>, id2: nat)
    requires Inv(h) && id !in h.refs && 0 < p && p !in h.owner && t < NSIZES && (id2 in h.refs || id2 == id)
    requires Chain(words, FullList(p, t)) && SameOutside(h.words, words, p)
    ensures RefOk(AddPage(h, id, p, t, words), id2)
  {
    FreshPage(h, id, p, t);
    FullListOk(p, t);
    if id2 == id {
      ListsFresh(FullList(p, t), h.blocks, id);
    } else {
      assert RefOk(h, id2);
      ListsMore(h.free[id2], h.blocks, id2, FullList(p, t), id);
      ChainSame(h.words, words, h.free[id2], p);
    }
  }

  lemma AddPageBlock(h: Heap, id: nat, p: nat, t: nat, words: map<nat, nat>, a: nat)
    requires Inv(h) && id !in h.refs && p !in h.owner && t < NSIZES && a in AddPage(h, id, p, t, words).blocks
    ensures BlockOk(AddPage(h, id, p, t, words), a)
  {
    FreshPage(h, id, p, t);
    FullListOk(p, t);
    if a in h.blocks {
      assert BlockOk(h, a);
    } else {
      assert a in FullList(p, t);
    }
  }

  lemma AddPagePlace(h: Heap, id: nat, p: nat, t: nat, words: map<nat, nat>, id2: nat, a: nat)
    requires Inv(h) && id !in h.refs && p !in h.owner && t < NSIZES && (id2 in h.refs || id2 == id)
    ensures PlaceOk(AddPage(h, id, p, t, words), id2, a)
  {
    FreshPage(h, id, p, t);
    FullListOk(p, t);
    if id2 == id {
      assert a / PAGE_SIZE == p && a % Size(t) == 0 ==> a in FullList(p, t);
    } else {
      assert PlaceOk(h, id2, a);
    }
  }

  lemma AddPageOwner(h: Heap, id: nat, p: nat, t: nat, words: map<nat, nat>, q: nat)
    requires Inv(h) && id !in h.refs && p !in h.owner && t < NSIZES && q in AddPage(h, id, p, t, words).owner
    ensures OwnerOk(AddPage(h, id, p, t, words), q)
  {
    FreshPage(h, id, p, t);
    if q != p {
      assert OwnerOk(h, q);
    }
  }

  lemma AddPageLists(h: Heap, id: nat, p: nat, t: nat, words: map<nat, nat>)
    requires ListsOk(h) && id !in h.refs && t < NSIZES
    ensures ListsOk(AddPage(h, id, p, t, words))
  {
    ListsOkAdd(h, AddPage(h, id, p, t, words), id, t);
  }

  lemma AddPageKeeps(h: Heap, id: nat, p: nat, t: nat, words: map<nat, nat>)
    requires Inv(h) && id !in h.refs && 0 < p && p !in h.owner && t < NSIZES
    requires Chain(words, FullList(p, t)) && SameOutside(h.words, words, p)
    ensures |h.sizebases| == NSIZES && Inv(AddPage(h, id, p, t, words))
  {
    var h2 := AddPage(h, id, p, t, words);
    forall id2 | id2 in h2.refs ensures RefOk(h2, id2) {
      AddPageRef(h, id, p, t, words, id2);
    }
    forall a | a in h2.blocks ensures BlockOk(h2, a) {
      AddPageBlock(h, id, p, t, words, a);
    }
    forall id2, a | id2 in h2.refs ensures PlaceOk(h2, id2, a) {
      AddPagePlace(h, id, p, t, words, id2, a);
    }
    forall q | q in h2.owner ensures OwnerOk(h2, q) {
      AddPageOwner(h, id, p, t, words, q);
    }
    AddPageLists(h, id, p, t, words);
  }

  // ------------------------------------------------------------------
  // Accounting

  ghost function LiveOn(h: Heap, id: nat): set<nat> {
    set a | a in h.blocks && h.blocks[a].Live? && h.blocks[a].id == id
  }

  ghost function Elements(q: seq<nat>): set<nat> { set a | a in q }

  lemma {:induction false} ElementsSize(q: seq<nat>)
    requires NoDup(q)
    ensures |Elements(q)| == |q|
  {
    if q != [] {
      var n := |q| - 1;
      assert NoDup(q[..n]);
      ElementsSize(q[..n]);
      assert q == q[..n] + [q[n]];
      assert Elements(q) == Elements(q[..n]) + {q[n]};
    }
  }

  /** Free blocks plus live blocks are the capacity of the page. */
  lemma Accounting(h: Heap, id: nat)
    requires Inv(h) && id in h.refs
    ensures h.refs[id].blk < NSIZES && |LiveOn(h, id)| + h.refs[id].nfree == Capacity(h.refs[id].blk)
  {
    assert RefOk(h, id);
    var p, t, fl := h.refs[id].page, h.refs[id].blk, h.free[id];
    FullListOk(p, t);
    ElementsSize(fl);
    ElementsSize(FullList(p, t));
    forall a ensures a in FullList(p, t) <==> a in Elements(fl) || a in LiveOn(h, id) {
      PlaceStatus(h, id, a);
    }
    assert Elements(FullList(p, t)) == Elements(fl) + LiveOn(h, id);
    assert Elements(fl) !! LiveOn(h, id);
  }

  lemma PlaceStatus(h: Heap, id: nat, a: nat)
    requires Inv(h) && id in h.refs && id in h.free && h.refs[id].blk < NSIZES
    ensures a in FullList(h.refs[id].page, h.refs[id].blk) <==> a in h.free[id] || a in LiveOn(h, id)
  {
    FullListOk(h.refs[id].page, h.refs[id].blk);
    assert RefOk(h, id) && PlaceOk(h, id, a);
    if a in h.blocks {
      assert BlockOk(h, a);
    }
  }

  // ------------------------------------------------------------------
  // A wholly free page leaves

  /** i and j are the positions of id on its two lists. */
  function DropPage(h: Heap, id: nat, i: nat, j: nat): Heap
    requires id in h.refs && h.refs[id].blk < |h.sizebases| && i < |h.sizebases[h.refs[id].blk]| && j < |h.allbase|
  {
    h.(refs := h.refs - {id},
       sizebases := h.sizebases[h.refs[id].blk := Without(h.sizebases[h.refs[id].blk], i)],
       allbase := Without(h.allbase, j),
       free := h.free - {id},
       blocks := map a | a in h.blocks && h.blocks[a] != Free(id) :: h.blocks[a],
       owner := h.owner - {h.refs[id].page})
  }

  function Without(q: seq<nat>, i: nat): seq<nat>
    requires i < |q|
  {
    q[..i] + q[i + 1..]
  }

  lemma WithoutOk(q: seq<nat>, i: nat)
    requires i < |q| && NoDup(q)
    ensures NoDup(Without(q, i))
    ensures forall x {:trigger x in Without(q, i)} :: x in Without(q, i) <==> x in q && x != q[i]
  {
    var r := Without(q, i);
    forall k | 0 <= k < |r| ensures r[k] == q[if k < i then k else k + 1] {
    }
    forall x | x in q && x != q[i] ensures x in r {
      var k :| 0 <= k < |q| && q[k] == x;
      assert r[if k < i then k else k - 1] == x;
    }
  }

  lemma ListsOkDrop(h: Heap, h2: Heap, id: nat, t: nat, i: nat, j: nat)
    requires ListsOk(h) && id in h.refs && h.refs[id].blk == t < NSIZES
    requires i < |h.sizebases[t]| && h.sizebases[t][i] == id && j < |h.allbase| && h.allbase[j] == id
    requires h2.refs == h.refs - {id}
    requires h2.sizebases == h.sizebases[t := Without(h.sizebases[t], i)] && h2.allbase == Without(h.allbase, j)
    ensures ListsOk(h2)
  {
    WithoutOk(h.allbase, j);
    forall u | 0 <= u < NSIZES ensures SizeListOk(h2, u) {
      assert SizeListOk(h, u);
      if u == t {
        WithoutOk(h.sizebases[t], i);
      }
    }
  }

  lemma DropPageRef(h: Heap, id: nat, i: nat, j: nat, id2: nat)
    requires Inv(h) && id in h.refs && h.refs[id].blk < |h.sizebases| && i < |h.sizebases[h.refs[id].blk]|
    requires j < |h.allbase|
    requires id2 in h.refs && id2 != id
    ensures RefOk(DropPage(h, id, i, j), id2)
  {
    assert RefOk(h, id) && RefOk(h, id2);
    var blocks2 := DropPage(h, id, i, j).blocks;
    assert Lists(h.free[id2], blocks2, id2);
  }

  lemma DropPageKeeps(h: Heap, id: nat, i: nat, j: nat)
    requires Inv(h) && id in h.refs && h.refs[id].blk < NSIZES == |h.sizebases|
    requires h.refs[id].nfree == Capacity(h.refs[id].blk)
    requires i < |h.sizebases[h.refs[id].blk]| && h.sizebases[h.refs[id].blk][i] == id && j < |h.allbase|
    requires h.allbase[j] == id
    ensures Inv(DropPage(h, id, i, j))
  {
    var h2 := DropPage(h, id, i, j);
    NoLive(h, id);
    assert RefOk(h, id);
    forall id2 | id2 in h2.refs ensures RefOk(h2, id2) {
      DropPageRef(h, id, i, j, id2);
    }
    forall a | a in h2.blocks ensures BlockOk(h2, a) {
      assert BlockOk(h, a);
      if h.blocks[a].Big? { DropPageBlock(h, id, a); }
    }
    forall id2, a | id2 in h2.refs ensures PlaceOk(h2, id2, a) {
      assert PlaceOk(h, id2, a);
    }
    forall q | q in h2.owner ensures OwnerOk(h2, q) {
      assert OwnerOk(h, q);
    }
    ListsOkDrop(h, h2, id, h.refs[id].blk, i, j);
  }

  /** A page whose blocks are all free has no live block. */
  lemma NoLive(h: Heap, id: nat)
    requires Inv(h) && id in h.refs && h.refs[id].blk < NSIZES && h.refs[id].nfree == Capacity(h.refs[id].blk)
    ensures forall a :: a in h.blocks && h.blocks[a].Live? ==> h.blocks[a].id != id
  {
    Accounting(h, id);
    forall a | a in h.blocks && h.blocks[a].Live? ensures h.blocks[a].id != id {
      assert a !in LiveOn(h, id);
    }
  }

  lemma DropPageBlock(h: Heap, id: nat, a: nat)
    requires Inv(h) && id in h.refs && a in h.blocks && h.blocks[a].Big?
    ensures a / PAGE_SIZE != h.refs[id].page
  {
    assert RefOk(h, id) && BlockOk(h, a);
  }

  // ------------------------------------------------------------------
  // Whole pages

  function AddBig(h: Heap, p: nat, n: nat, size: nat): Heap {
    h.(blocks := h.blocks[p * PAGE_SIZE := Big(n, size)], owner := h.owner[p := BigPage(n)])
  }

  function DropBig(h: Heap, p: nat): Heap {
    h.(blocks := h.blocks - {p * PAGE_SIZE}, owner := h.owner - {p})
  }

  function AddRefPage(h: Heap, p: nat, root: nat): Heap { h.(owner := h.owner[p := RefPage(root)]) }

  lemma AddBigKeeps(h: Heap, p: nat, n: nat, size: nat)
    requires Inv(h) && 0 < p && p !in h.owner && 0 < n && size <= n * PAGE_SIZE
    ensures p * PAGE_SIZE !in h.blocks && Inv(AddBig(h, p, n, size))
  {
    var a, h2 := p * PAGE_SIZE, AddBig(h, p, n, size);
    if a in h.blocks { BlockPageOwned(h, a); }
    forall id | id in h2.refs ensures RefOk(h2, id) {
      assert RefOk(h, id);
      ListsOther(h.free[id], h.blocks, id, a, Big(n, size));
    }
    forall b | b in h2.blocks ensures BlockOk(h2, b) {
      if b != a { assert BlockOk(h, b); }
    }
    forall id, b | id in h2.refs ensures PlaceOk(h2, id, b) {
      assert PlaceOk(h, id, b) && RefOk(h, id);
    }
    forall q | q in h2.owner ensures OwnerOk(h2, q) {
      if q != p { assert OwnerOk(h, q); }
    }
    ListsSame(h, h2);
  }

  lemma DropBigKeeps(h: Heap, p: nat)
    requires Inv(h) && p * PAGE_SIZE in h.blocks && h.blocks[p * PAGE_SIZE].Big?
    ensures p in h.owner && h.owner[p] == BigPage(h.blocks[p * PAGE_SIZE].npages) && Inv(DropBig(h, p))
  {
    var a, h2 := p * PAGE_SIZE, DropBig(h, p);
    assert BlockOk(h, a);
    forall id | id in h2.refs ensures RefOk(h2, id) {
      assert RefOk(h, id);
      assert Lists(h.free[id], h2.blocks, id);
    }
    forall b | b in h2.blocks ensures BlockOk(h2, b) {
      assert BlockOk(h, b);
    }
    forall id, b | id in h2.refs ensures PlaceOk(h2, id, b) {
      assert PlaceOk(h, id, b);
    }
    forall q | q in h2.owner ensures OwnerOk(h2, q) {
      assert OwnerOk(h, q);
    }
    ListsSame(h, h2);
  }

  lemma AddRefPageKeeps(h: Heap, p: nat, root: nat)
    requires Inv(h) && p !in h.owner
    ensures Inv(AddRefPage(h, p, root))
  {
    var h2 := AddRefPage(h, p, root);
    forall id | id in h2.refs ensures RefOk(h2, id) {
      assert RefOk(h, id);
    }
    forall b | b in h2.blocks ensures BlockOk(h2, b) {
      assert BlockOk(h, b);
    }
    forall id, b | id in h2.refs ensures PlaceOk(h2, id, b) {
      assert PlaceOk(h, id, b);
    }
    forall q | q in h2.owner ensures OwnerOk(h2, q) {
      if q != p { assert OwnerOk(h, q); }
    }
    ListsSame(h, h2);
  }

  // ------------------------------------------------------------------
  // Blocks do not overlap

  /** Number of bytes of the block at a. */
  ghost function Length(h: Heap, a: nat): nat
    requires a in h.blocks && BlockOk(h, a)
  {
    match h.blocks[a]
    case Free(id) => Size(h.refs[id].blk)
    case Live(id, _) => Size(h.refs[id].blk)
    case Big(n, _) => n * PAGE_SIZE
  }

  /** Number of frames of an owned chunk. */
  function Frames(o: Owner): nat { if o.BigPage? then o.npages else 1 }

  /** The coremap holds a chunk for every page the heap owns. */
  ghost predicate Owned(h: Heap, frames: seq<C.Frame>, memStart: nat) {
    forall p {:trigger h.owner[p]} :: p in h.owner ==> memStart <= p && C.IsChunk(frames, p, Frames(h.owner[p]))
  }

  /** Two multiples of a size are at least the size apart. */
  lemma MultiplesApart(a: nat, b: nat, z: nat)
    requires 0 < z && a % z == 0 && b % z == 0 && a < b
    ensures a + z <= b
  {
    var i, j := a / z, b / z;
    assert a == i * z && b == j * z;
    if i < j {
      MulLess(i, j, z);
    } else {
      MulMono(j, i, z);
    }
  }

  /** A block stays within the frames of its owner. */
  lemma BlockInOwner(h: Heap, a: nat)
    requires Inv(h) && a in h.blocks
    ensures BlockOk(h, a) && a / PAGE_SIZE in h.owner
    ensures a + Length(h, a) <= (a / PAGE_SIZE + Frames(h.owner[a / PAGE_SIZE])) * PAGE_SIZE
  {
    assert BlockOk(h, a);
    BlockPageOwned(h, a);
    if !h.blocks[a].Big? {
      var id := h.blocks[a].id;
      assert RefOk(h, id);
      var j := OnPageIsPlace(h.refs[id].page, h.refs[id].blk, a);
      Divides(h.refs[id].blk);
      MulLess(j, Capacity(h.refs[id].blk), Size(h.refs[id].blk));
    }
  }

  /** Any two blocks, whatever their sizes, are disjoint. */
  lemma Disjoint(h: Heap, frames: seq<C.Frame>, memStart: nat, a: nat, b: nat)
    requires Inv(h) && Owned(h, frames, memStart) && a in h.blocks && b in h.blocks && a < b
    ensures BlockOk(h, a) && a + Length(h, a) <= b
  {
    BlockInOwner(h, a);
    BlockInOwner(h, b);
    var p, q := a / PAGE_SIZE, b / PAGE_SIZE;
    if p == q {
      SamePage(h, a, b);
    } else {
      C.ChunksDisjoint(frames, p, Frames(h.owner[p]), q, Frames(h.owner[q]));
    }
  }

  lemma SamePage(h: Heap, a: nat, b: nat)
    requires Inv(h) && a in h.blocks && b in h.blocks && a < b && a / PAGE_SIZE == b / PAGE_SIZE
    ensures BlockOk(h, a) && a + Length(h, a) <= b
  {
    assert BlockOk(h, a) && BlockOk(h, b);
    assert !h.blocks[a].Big? ==> RefOk(h, h.blocks[a].id);
    assert !h.blocks[b].Big? ==> RefOk(h, h.blocks[b].id);
    if !h.blocks[a].Big? {
      Divides(h.refs[h.blocks[a].id].blk);
      MultiplesApart(a, b, Size(h.refs[h.blocks[a].id].blk));
    }
  }

  /** A client writing into its own live block cannot hurt a free list. */
  lemma ClientWriteKeeps(h: Heap, frames: seq<C.Frame>, memStart: nat, a: nat, x: nat, v: nat)
    requires Inv(h) && Owned(h, frames, memStart) && a in h.blocks && !h.blocks[a].Free?
    requires BlockOk(h, a) && a <= x < a + Length(h, a)
    ensures Inv(h.(words := h.words[x := v]))
  {
    var h2 := h.(words := h.words[x := v]);
    forall id | id in h2.refs ensures RefOk(h2, id) {
      assert RefOk(h, id);
      if x in h.free[id] {
        assert x in h.blocks && h.blocks[x] == Free(id);
        Disjoint(h, frames, memStart, a, x);
      }
      ChainOther(h.words, h.free[id], x, v);
    }
    forall b | b in h2.blocks ensures BlockOk(h2, b) {
      assert BlockOk(h, b);
    }
    forall id, b | id in h2.refs ensures PlaceOk(h2, id, b) {
      assert PlaceOk(h, id, b);
    }
    forall q | q in h2.owner ensures OwnerOk(h2, q) {
      assert OwnerOk(h, q);
    }
    ListsSame(h, h2);
  }

  // ------------------------------------------------------------------
  // The heap and the coremap

  lemma OwnedClaim(h: Heap, frames: seq<C.Frame>, memStart: nat, a: nat, n: nat)
    requires Owned(h, frames, memStart) && C.FreeRun(frames, a, n) && 0 < n
    ensures a !in h.owner && Owned(h, C.Claimed(frames, a, n), memStart)
  {
    forall p | p in h.owner ensures p != a && C.IsChunk(C.Claimed(frames, a, n), p, Frames(h.owner[p])) {
      C.ClaimSpares(frames, a, n, p, Frames(h.owner[p]));
    }
  }

  lemma OwnedFree(h: Heap, frames: seq<C.Frame>, memStart: nat, a: nat, n: nat)
    requires Owned(h, frames, memStart) && C.IsChunk(frames, a, n) && a !in h.owner
    ensures Owned(h, C.Freed(frames, a, n), memStart)
  {
    forall p | p in h.owner ensures C.IsChunk(C.Freed(frames, a, n), p, Frames(h.owner[p])) {
      C.FreeSpares(frames, a, n, p, Frames(h.owner[p]));
    }
  }

  predicate InRange(a: nat, n: nat, i: nat) { a <= i < a + n }

  ghost function Range(a: nat, n: nat): set<nat> { set i: nat | i < a + n && InRange(a, n, i) }

  ghost predicate Covered(owner: map<nat, Owner>, i: nat) { exists p :: p in owner && p <= i < p + Frames(owner[p]) }

  /** Frame i is free, or the heap's, or on its way from one to the other. */
  ghost predicate Ours(owner: map<nat, Owner>, frames: seq<C.Frame>, held: set<nat>, i: nat)
    requires i < |frames|
  {
    frames[i].state == C.Free || i in held || Covered(owner, i)
  }

  predicate IsUser(f: C.Frame) { f.state == C.Used || f.state == C.InEviction }

  ghost predicate NoUsers(frames: seq<C.Frame>, a: nat, n: nat) {
    a + n <= |frames| && forall i :: a <= i < a + n ==> !IsUser(frames[i])
  }

  ghost predicate SameAt(owner: map<nat, Owner>, frames: seq<C.Frame>, held: set<nat>,
                         owner2: map<nat, Owner>, frames2: seq<C.Frame>, held2: set<nat>, i: nat)
    requires i < |frames| == |frames2|
  {
    && (Ours(owner, frames, held, i) <==> Ours(owner2, frames2, held2, i))
    && (IsUser(frames[i]) || IsUser(frames2[i]) ==> frames2[i] == frames[i])
  }

  /** No frame is lost by the heap or taken from anybody else, and user frames
      are left alone. */
  ghost predicate SameShare(owner: map<nat, Owner>, frames: seq<C.Frame>, held: set<nat>,
                            owner2: map<nat, Owner>, frames2: seq<C.Frame>, held2: set<nat>) {
    && |frames2| == |frames|
    && forall i: nat {:trigger SameAt(owner, frames, held, owner2, frames2, held2, i)} ::
      i < |frames| ==> SameAt(owner, frames, held, owner2, frames2, held2, i)
  }

  lemma ShareTrans(o1: map<nat, Owner>, f1: seq<C.Frame>, h1: set<nat>,
                   o2: map<nat, Owner>, f2: seq<C.Frame>, h2: set<nat>,
                   o3: map<nat, Owner>, f3: seq<C.Frame>, h3: set<nat>)
    requires SameShare(o1, f1, h1, o2, f2, h2) && SameShare(o2, f2, h2, o3, f3, h3)
    ensures SameShare(o1, f1, h1, o3, f3, h3)
  {
    forall i: nat | i < |f1| ensures SameAt(o1, f1, h1, o3, f3, h3, i) {
      assert SameAt(o1, f1, h1, o2, f2, h2, i) && SameAt(o2, f2, h2, o3, f3, h3, i);
    }
  }

  lemma ShareClaim(owner: map<nat, Owner>, frames: seq<C.Frame>, held: set<nat>, a: nat, n: nat)
    requires C.FreeRun(frames, a, n)
    ensures SameShare(owner, frames, held, owner, C.Claimed(frames, a, n), held + Range(a, n))
  {
    var frames2, held2 := C.Claimed(frames, a, n), held + Range(a, n);
    forall i: nat | i < |frames| ensures SameAt(owner, frames, held, owner, frames2, held2, i) {
    }
  }

  lemma ShareFree(owner: map<nat, Owner>, frames: seq<C.Frame>, held: set<nat>, a: nat, n: nat)
    requires NoUsers(frames, a, n)
    ensures SameShare(owner, frames, held + Range(a, n), owner, C.Freed(frames, a, n), held)
  {
    var frames2, held2 := C.Freed(frames, a, n), held + Range(a, n);
    forall i: nat | i < |frames| ensures SameAt(owner, frames, held2, owner, frames2, held, i) {
    }
  }

  lemma ShareAdd(owner: map<nat, Owner>, frames: seq<C.Frame>, held: set<nat>, p: nat, o: Owner)
    requires p !in owner
    ensures SameShare(owner, frames, held + Range(p, Frames(o)), owner[p := o], frames, held)
  {
    var owner2, held2 := owner[p := o], held + Range(p, Frames(o));
    forall i: nat | i < |frames| ensures SameAt(owner, frames, held2, owner2, frames, held, i) {
      if Covered(owner, i) {
        var q :| q in owner && q <= i < q + Frames(owner[q]);
        assert q in owner2 && owner2[q] == owner[q];
      }
      if i in Range(p, Frames(o)) {
        assert p in owner2 && owner2[p] == o;
      }
    }
  }

  lemma ShareLess(owner: map<nat, Owner>, frames: seq<C.Frame>, held: set<nat>, p: nat)
    requires p in owner
    ensures SameShare(owner, frames, held, owner - {p}, frames, held + Range(p, Frames(owner[p])))
  {
    var owner2, held2 := owner - {p}, held + Range(p, Frames(owner[p]));
    forall i: nat | i < |frames| ensures SameAt(owner, frames, held, owner2, frames, held2, i) {
      if Covered(owner, i) {
        var q :| q in owner && q <= i < q + Frames(owner[q]);
        assert q != p ==> q in owner2 && owner2[q] == owner[q];
      }
    }
  }

  /** Giving up a chunk and freeing its frames loses nothing. */
  lemma GivesBack(owner: map<nat, Owner>, frames: seq<C.Frame>, f: nat)
    requires f in owner && NoUsers(frames, f, Frames(owner[f]))
    ensures SameShare(owner, frames, {}, owner - {f}, C.Freed(frames, f, Frames(owner[f])), {})
  {
    var n := Frames(owner[f]);
    ShareLess(owner, frames, {}, f);
    ShareFree(owner - {f}, frames, {}, f, n);
    ShareTrans(owner, frames, {}, owner - {f}, frames, {} + Range(f, n), owner - {f}, C.Freed(frames, f, n), {});
  }

  lemma ShareSame(owner: map<nat, Owner>, frames: seq<C.Frame>, held: set<nat>)
    ensures SameShare(owner, frames, held, owner, frames, held)
  {
    forall i: nat | i < |frames| ensures SameAt(owner, frames, held, owner, frames, held, i) {
    }
  }

  lemma ChunkHasNoUsers(frames: seq<C.Frame>, a: nat, n: nat)
    requires C.IsChunk(frames, a, n)
    ensures NoUsers(frames, a, n)
  {
  }

  // ------------------------------------------------------------------
  // What clients see

  /** The blocks in clients' hands. */
  ghost function LiveBlocks(h: Heap): map<nat, Block> {
    map a | a in h.blocks && !h.blocks[a].Free? :: h.blocks[a]
  }

  lemma PopLive(h: Heap, id: nat, size: nat)
    requires Inv(h) && id in h.refs && id in h.free && h.free[id] != [] && h.refs[id].nfree > 0
    ensures LiveBlocks(Pop(h, id, size)) == LiveBlocks(h)[h.free[id][0] := Live(id, size)]
    ensures h.free[id][0] !in LiveBlocks(h)
  {
    assert RefOk(h, id);
  }

  lemma PushLive(h: Heap, id: nat, a: nat)
    requires id in h.refs && id in h.free
    ensures LiveBlocks(Push(h, id, a)) == LiveBlocks(h) - {a}
  {
  }

  lemma AddPageLive(h: Heap, id: nat, p: nat, t: nat, words: map<nat, nat>)
    requires Inv(h) && id !in h.refs && p !in h.owner && t < NSIZES
    ensures LiveBlocks(AddPage(h, id, p, t, words)) == LiveBlocks(h)
  {
    FreshPage(h, id, p, t);
  }

  lemma DropPageLive(h: Heap, id: nat, i: nat, j: nat)
    requires id in h.refs && h.refs[id].blk < |h.sizebases| && i < |h.sizebases[h.refs[id].blk]| && j < |h.allbase|
    ensures LiveBlocks(DropPage(h, id, i, j)) == LiveBlocks(h)
  {
  }

  lemma DropBigLive(h: Heap, p: nat)
    ensures LiveBlocks(DropBig(h, p)) == LiveBlocks(h) - {p * PAGE_SIZE}
  {
  }

  // ------------------------------------------------------------------
  // Building the list of a fresh page

  /** Blocks 0 .. n - 1 of the page are linked, each to the one below. */
  ghost predicate Linked(words: map<nat, nat>, p: nat, t: nat, n: nat)
    requires t < NSIZES
  {
    forall j: nat :: j < n ==>
      Place(p, t, j) in words && words[Place(p, t, j)] == if j == 0 then 0 else Place(p, t, j - 1)
  }

  lemma LinkedNext(words: map<nat, nat>, p: nat, t: nat, n: nat)
    requires t < NSIZES && Linked(words, p, t, n)
    ensures Linked(words[Place(p, t, n) := if n == 0 then 0 else Place(p, t, n - 1)], p, t, n + 1)
  {
    forall j: nat | j < n ensures Place(p, t, j) != Place(p, t, n) {
      PlacesDiffer(p, t, j, n);
    }
  }

  lemma LinkedChain(words: map<nat, nat>, p: nat, t: nat)
    requires t < NSIZES && Linked(words, p, t, Capacity(t))
    ensures Chain(words, FullList(p, t))
  {
    var fl := FullList(p, t);
    forall i | 0 <= i < |fl| ensures fl[i] in words && words[fl[i]] == After(fl, i) {
      var j: nat := Capacity(t) - 1 - i;
      assert fl[i] == Place(p, t, j) && Place(p, t, j) in words;
      if j > 0 {
        assert fl[i + 1] == Place(p, t, j - 1);
      } else {
        assert i + 1 == |fl|;
      }
    }
  }

  /** The list of a fresh page starts at its last block. */
  lemma FullHead(p: nat, t: nat)
    requires t < NSIZES
    ensures HeadOffset(FullList(p, t), p) == (Capacity(t) - 1) * Size(t)
  {
    Divides(t);
    assert FullList(p, t)[0] == Place(p, t, Capacity(t) - 1);
  }

  lemma OwnedAdd(h: Heap, h2: Heap, frames: seq<C.Frame>, memStart: nat, p: nat)
    requires Owned(h, frames, memStart) && p in h2.owner && h2.owner == h.owner[p := h2.owner[p]]
    requires memStart <= p && C.IsChunk(frames, p, Frames(h2.owner[p]))
    ensures Owned(h2, frames, memStart)
  {
  }

  lemma OwnedLess(h: Heap, h2: Heap, frames: seq<C.Frame>, memStart: nat, p: nat)
    requires Owned(h, frames, memStart) && h2.owner == h.owner - {p}
    ensures Owned(h2, frames, memStart)
  {
  }

  /** The number of free blocks never exceeds the capacity. */
  lemma FreeAtMost(h: Heap, id: nat)
    requires Inv(h) && id in h.refs
    ensures h.refs[id].blk < NSIZES && h.refs[id].nfree <= Capacity(h.refs[id].blk)
  {
    Accounting(h, id);
  }

  /** What the head of a free list looks like in memory. */
  lemma TakeFacts(h: Heap, id: nat)
    requires Inv(h) && id in h.refs && h.refs[id].nfree > 0
    ensures id in h.free && h.free[id] != []
    ensures var a := h.free[id][0];
      && a == h.refs[id].page * PAGE_SIZE + h.refs[id].freeOffset
      && a in h.words && (h.words[a] == 0 <==> |h.free[id]| == 1)
      && (|h.free[id]| > 1 ==> h.words[a] == h.free[id][1] >= h.refs[id].page * PAGE_SIZE)
  {
    assert RefOk(h, id);
    var fl := h.free[id];
    ChainTail(h.words, fl);
    assert BlockOk(h, fl[0]);
    if |fl| > 1 {
      assert BlockOk(h, fl[1]);
    }
  }

  lemma SizeListEntry(h: Heap, t: nat, i: nat)
    requires Inv(h) && t < NSIZES && i < |h.sizebases[t]|
    ensures h.sizebases[t][i] in h.refs && h.refs[h.sizebases[t][i]].blk == t
  {
    assert SizeListOk(h, t);
    assert h.sizebases[t][i] in h.sizebases[t];
  }

  /** A block in a client's hands that no client had before. */
  ghost predicate IsNewBlock(h: Heap, h2: Heap, a: nat, size: nat) {
    && a !in LiveBlocks(h) && a in LiveBlocks(h2) && a in h2.blocks && BlockOk(h2, a)
    && LiveBlocks(h2) == LiveBlocks(h)[a := h2.blocks[a]]
    && h2.blocks[a].size == size && size <= Length(h2, a)
    && (h2.blocks[a].Live? ==> a % Length(h2, a) == 0) && (h2.blocks[a].Big? ==> a % PAGE_SIZE == 0)
  }

  /** Taking a block from a page that may be fresh, in a heap h1 that clients
      cannot tell from h0. */
  lemma TakenBlock(h0: Heap, h1: Heap, id: nat, size: nat)
    requires Inv(h1) && LiveBlocks(h1) == LiveBlocks(h0)
    requires id in h1.refs && h1.refs[id].nfree > 0 && h1.refs[id].blk < NSIZES && size <= Size(h1.refs[id].blk)
    requires forall id2 :: id2 in h1.refs && id2 != id && h1.refs[id2].blk < NSIZES ==>
      h1.refs[id2].nfree < Capacity(h1.refs[id2].blk)
    ensures id in h1.free && h1.free[id] != []
    ensures NoneWhole(Pop(h1, id, size)) && IsNewBlock(h0, Pop(h1, id, size), h1.free[id][0], size)
    ensures 0 < h1.free[id][0]
  {
    PopKeeps(h1, id, size);
    PopLive(h1, id, size);
    FreeAtMost(h1, id);
    var a, h2 := h1.free[id][0], Pop(h1, id, size);
    assert RefOk(h1, id);
    assert BlockOk(h1, a);
    assert BlockOk(h2, a);
  }

  lemma AddBigLive(h: Heap, p: nat, n: nat, size: nat)
    requires Inv(h) && 0 < p && p !in h.owner && 0 < n && size <= n * PAGE_SIZE
    ensures IsNewBlock(h, AddBig(h, p, n, size), p * PAGE_SIZE, size)
  {
    AddBigKeeps(h, p, n, size);
    assert BlockOk(AddBig(h, p, n, size), p * PAGE_SIZE);
  }

  /** The words subpage_kfree computes are those of Push. */
  lemma GiveFacts(h: Heap, id: nat, a: nat)
    requires Inv(h) && a in h.blocks && h.blocks[a].Live? && h.blocks[a].id == id
    ensures id in h.refs && id in h.free && a >= h.refs[id].page * PAGE_SIZE
    ensures HeadOffset([a], h.refs[id].page) == a - h.refs[id].page * PAGE_SIZE
    ensures h.refs[id].freeOffset == INVALID_OFFSET <==> h.free[id] == []
    ensures h.free[id] != [] ==> h.refs[id].page * PAGE_SIZE + h.refs[id].freeOffset == h.free[id][0]
  {
    assert BlockOk(h, a);
    assert RefOk(h, id);
    if h.free[id] != [] {
      assert BlockOk(h, h.free[id][0]);
    }
  }

  /** Whether the page of a live block is a heap page tells its kind. */
  lemma LivePage(h: Heap, a: nat)
    requires Inv(h) && a in LiveBlocks(h)
    ensures forall id :: id in h.refs && h.refs[id].page == a / PAGE_SIZE ==>
      h.blocks[a].Live? && h.blocks[a].id == id && OnPage(h.refs[id], a)
    ensures h.blocks[a].Live? ==> exists id :: id in h.refs && h.refs[id].page == a / PAGE_SIZE
  {
    assert BlockOk(h, a);
    forall id | id in h.refs && h.refs[id].page == a / PAGE_SIZE
      ensures h.blocks[a].Live? && h.blocks[a].id == id && OnPage(h.refs[id], a)
    {
      assert RefOk(h, id);
      if h.blocks[a].Live? {
        assert RefOk(h, h.blocks[a].id);
      }
    }
  }

  /** Blocks lie in managed memory, so none is at NULL. */
  lemma BlocksManaged(h: Heap, frames: seq<C.Frame>, memStart: nat)
    requires Inv(h) && Owned(h, frames, memStart)
    ensures forall a :: a in h.blocks ==> memStart <= a / PAGE_SIZE
  {
    forall a | a in h.blocks ensures memStart <= a / PAGE_SIZE {
      BlockPageOwned(h, a);
      assert h.owner[a / PAGE_SIZE] == h.owner[a / PAGE_SIZE];
    }
  }
}
