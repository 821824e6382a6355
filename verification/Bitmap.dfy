/**
 The bitmap of kern/lib/bitmap.c, used for swap slots: a byte array that
 refines a sequence of nbits booleans. Bits past nbits in the last byte are
 kept set, so the search for a clear bit needs no bounds test.
 */
module Bitmap {

  import opened KernLib

  const BITS_PER_WORD := 8
  const WORD_ALLBITS: bv8 := 0xff

  /** The mask (1 << offset) of bitmap_translate. */
  function Mask(offset: nat): bv8
    requires offset < BITS_PER_WORD
  {
    (1 as bv8) << offset
  }

  predicate Bit(w: bv8, offset: nat)
    requires offset < BITS_PER_WORD
  {
    w & Mask(offset) != 0
  }

  /** Setting one bit changes that bit only. */
  lemma SetBit(w: bv8, k: nat, j: nat)
    requires k < BITS_PER_WORD && j < BITS_PER_WORD
    ensures Bit(w | Mask(k), j) == (j == k || Bit(w, j))
  {
  }

  /** Clearing one bit changes that bit only. */
  lemma ClearBit(w: bv8, k: nat, j: nat)
    requires k < BITS_PER_WORD && j < BITS_PER_WORD
    ensures Bit(w & !Mask(k), j) == (j != k && Bit(w, j))
  {
  }

  lemma AllBits(w: bv8)
    ensures w == WORD_ALLBITS <==> forall j: nat :: j < BITS_PER_WORD ==> Bit(w, j)
  {
    if forall j: nat :: j < BITS_PER_WORD ==> Bit(w, j) {
      assert Bit(w, 0) && Bit(w, 1) && Bit(w, 2) && Bit(w, 3) && Bit(w, 4) && Bit(w, 5) && Bit(w, 6) && Bit(w, 7);
    }
  }

  class Bitmap {
    const nbits: nat
    const v: array<bv8>

    ghost predicate Valid()
      reads this, v
    {
      v.Length == DivRoundUp(nbits, BITS_PER_WORD) && Padded(v[..], nbits)
    }

    /** The bits, lowest index first. */
    ghost function View(): seq<bool>
      reads this, v
      requires Valid()
    {
      Bits(v[..], nbits)
    }

    /** bitmap_create */
    constructor (nbits: nat)
      ensures this.nbits == nbits && Valid() && fresh(v)
      ensures View() == seq(nbits, i => false)
    {
      this.nbits := nbits;
      var words := DivRoundUp(nbits, BITS_PER_WORD);
      v := new bv8[words](i => 0);
      new;
      if words > nbits / BITS_PER_WORD {
        var ix := words - 1;
        var overbits := nbits - ix * BITS_PER_WORD;
        assert 0 < overbits < BITS_PER_WORD;
        for j := overbits to BITS_PER_WORD
          invariant forall i :: 0 <= i < ix ==> v[i] == 0
          invariant forall k: nat :: k < BITS_PER_WORD ==> Bit(v[ix], k) == (overbits <= k < j)
        {
          ghost var w := v[ix];
          v[ix] := v[ix] | Mask(j);
          forall k: nat | k < BITS_PER_WORD ensures Bit(v[ix], k) == (k == j || Bit(w, k)) {
            SetBit(w, j, k);
          }
        }
      }
    }

    /** bitmap_alloc: the lowest clear bit, or ENOSPC (None) exactly when all
        bits are set. */
    method Alloc() returns (r: Option<nat>)
      requires Valid()
      modifies v
      ensures Valid()
      ensures r.None? <==> AllSet(old(View()))
      ensures r.None? ==> View() == old(View())
      ensures r.Some? ==> IsLowestClear(old(View()), r.value) && View() == old(View())[r.value := true]
    {
      ghost var b := v[..];
      for ix := 0 to v.Length
        invariant v[..] == b
        invariant SetBelow(b, ix * BITS_PER_WORD)
      {
        AllBits(v[ix]);
        if v[ix] != WORD_ALLBITS {
          var offset := LowestClear(v[ix]);
          LowerBitsSet(b, ix, offset);
          LowestView(b, nbits, ix, offset);
          SetAt(b, nbits, ix, offset);
          v[ix] := v[ix] | Mask(offset);
          assert v[..] == b[ix := b[ix] | Mask(offset)];
          return Some(ix * BITS_PER_WORD + offset);
        }
        LowerBitsSet(b, ix, BITS_PER_WORD);
      }
      return None;
    }

    /** bitmap_mark; its assertions are the preconditions. */
    method Mark(index: nat)
      requires Valid() && index < nbits && !View()[index]
      modifies v
      ensures Valid() && View() == old(View())[index := true]
    {
      var ix, offset := index / BITS_PER_WORD, index % BITS_PER_WORD;
      ghost var b := v[..];
      SetAt(b, nbits, ix, offset);
      v[ix] := v[ix] | Mask(offset);
      assert v[..] == b[ix := b[ix] | Mask(offset)];
    }

    /** bitmap_unmark */
    method Unmark(index: nat)
      requires Valid() && index < nbits && View()[index]
      modifies v
      ensures Valid() && View() == old(View())[index := false]
    {
      var ix, offset := index / BITS_PER_WORD, index % BITS_PER_WORD;
      ghost var b := v[..];
      ClearAt(b, nbits, ix, offset);
      v[ix] := v[ix] & !Mask(offset);
      assert v[..] == b[ix := b[ix] & !Mask(offset)];
    }

    /** bitmap_isset; it does not check the index, and reads the padding as
        set. */
    method IsSet(index: nat) returns (r: bool)
      requires Valid() && index < v.Length * BITS_PER_WORD
      ensures r == (index < nbits ==> View()[index])
    {
      r := v[index / BITS_PER_WORD] & Mask(index % BITS_PER_WORD) != 0;
      assert r == At(v[..], index);
    }
  }

  /** The inner search of bitmap_alloc. */
  method LowestClear(w: bv8) returns (offset: nat)
    requires w != WORD_ALLBITS
    ensures offset < BITS_PER_WORD && !Bit(w, offset)
    ensures forall j: nat :: j < offset ==> Bit(w, j)
  {
    AllBits(w);
    offset := 0;
    while Bit(w, offset)
      invariant offset < BITS_PER_WORD
      invariant forall j: nat :: j < offset ==> Bit(w, j)
      invariant exists j: nat :: offset <= j < BITS_PER_WORD && !Bit(w, j)
      decreases BITS_PER_WORD - offset
    {
      offset := offset + 1;
    }
  }

  predicate At(v: seq<bv8>, i: nat)
    requires i < |v| * BITS_PER_WORD
  {
    Bit(v[i / BITS_PER_WORD], i % BITS_PER_WORD)
  }

  ghost predicate Padded(v: seq<bv8>, n: nat) {
    n <= |v| * BITS_PER_WORD && forall i: nat :: n <= i < |v| * BITS_PER_WORD ==> At(v, i)
  }

  ghost predicate SetBelow(v: seq<bv8>, n: nat) {
    n <= |v| * BITS_PER_WORD && forall i: nat :: i < n ==> At(v, i)
  }

  ghost function Bits(v: seq<bv8>, n: nat): seq<bool>
    requires n <= |v| * BITS_PER_WORD
  {
    seq(n, (i: nat) requires i < n => At(v, i))
  }

  ghost predicate AllSet(bits: seq<bool>) { forall i :: 0 <= i < |bits| ==> bits[i] }

  ghost predicate IsLowestClear(bits: seq<bool>, i: nat) {
    i < |bits| && !bits[i] && forall j :: 0 <= j < i ==> bits[j]
  }

  lemma SetAt(v: seq<bv8>, n: nat, ix: nat, k: nat)
    requires ix < |v| && k < BITS_PER_WORD && ix * BITS_PER_WORD + k < n && Padded(v, n)
    ensures var v2 := v[ix := v[ix] | Mask(k)];
      Padded(v2, n) && Bits(v2, n) == Bits(v, n)[ix * BITS_PER_WORD + k := true]
  {
    var v2 := v[ix := v[ix] | Mask(k)];
    forall i: nat | i < |v| * BITS_PER_WORD ensures At(v2, i) == (i == ix * BITS_PER_WORD + k || At(v, i)) {
      Update(v, v2, ix, k, i, true);
    }
  }

  lemma ClearAt(v: seq<bv8>, n: nat, ix: nat, k: nat)
    requires ix < |v| && k < BITS_PER_WORD && ix * BITS_PER_WORD + k < n && Padded(v, n)
    ensures var v2 := v[ix := v[ix] & !Mask(k)];
      Padded(v2, n) && Bits(v2, n) == Bits(v, n)[ix * BITS_PER_WORD + k := false]
  {
    var v2 := v[ix := v[ix] & !Mask(k)];
    forall i: nat | i < |v| * BITS_PER_WORD ensures At(v2, i) == (i != ix * BITS_PER_WORD + k && At(v, i)) {
      Update(v, v2, ix, k, i, false);
    }
  }

  lemma Update(v: seq<bv8>, v2: seq<bv8>, ix: nat, k: nat, i: nat, b: bool)
    requires ix < |v| && k < BITS_PER_WORD && i < |v| * BITS_PER_WORD
    requires v2 == v[ix := if b then v[ix] | Mask(k) else v[ix] & !Mask(k)]
    ensures At(v2, i) == if i == ix * BITS_PER_WORD + k then b else At(v, i)
  {
    var jx, j := i / BITS_PER_WORD, i % BITS_PER_WORD;
    if jx == ix {
      if b {
        SetBit(v[ix], k, j);
      } else {
        ClearBit(v[ix], k, j);
      }
    }
  }

  lemma LowerBitsSet(v: seq<bv8>, ix: nat, offset: nat)
    requires ix < |v| && offset <= BITS_PER_WORD && SetBelow(v, ix * BITS_PER_WORD)
    requires forall j: nat :: j < offset ==> Bit(v[ix], j)
    ensures SetBelow(v, ix * BITS_PER_WORD + offset)
  {
    forall i: nat | ix * BITS_PER_WORD <= i < ix * BITS_PER_WORD + offset ensures At(v, i) {
      assert i / BITS_PER_WORD == ix;
      assert Bit(v[ix], i % BITS_PER_WORD);
    }
  }

  /** Why the assertion that the found index is below nbits holds. */
  lemma LowestView(v: seq<bv8>, n: nat, ix: nat, k: nat)
    requires ix < |v| && k < BITS_PER_WORD && Padded(v, n)
    requires !Bit(v[ix], k) && SetBelow(v, ix * BITS_PER_WORD + k)
    ensures IsLowestClear(Bits(v, n), ix * BITS_PER_WORD + k)
  {
    var i := ix * BITS_PER_WORD + k;
    assert i / BITS_PER_WORD == ix && i % BITS_PER_WORD == k;
    assert !At(v, i);
  }
}
