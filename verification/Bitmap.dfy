/** The bitmap of a collective request: one bit per client slot of the server. */
module Bitmaps {
  type Bitmap = seq<bv8>

  function Empty(n: nat): (b: Bitmap)
    ensures |b| == n / 8 + 1
  {
    seq(n / 8 + 1, _ => 0)
  }

  function Bit(j: nat): bv8
    requires j < 8
  {
    (1 as bv8) << j
  }

  predicate TestBit(x: bv8, j: nat)
    requires j < 8
  {
    x & Bit(j) != 0
  }

  ghost predicate Has(b: Bitmap, slot: nat) {
    slot / 8 < |b| && TestBit(b[slot / 8], slot % 8)
  }

  // _add_bitmap
  function Add(b: Bitmap, slot: nat): (b': Bitmap)
    requires slot / 8 < |b|
    ensures |b'| == |b|
  {
    var i := slot / 8;
    var j := slot - i * 8;
    b[i := b[i] | Bit(j)]
  }

  // The value of a partial last byte with `tail` slots: (1 << tail) - 1.
  function TailMask(tail: nat): bv8
    requires tail < 8
  {
    Bit(tail) - 1
  }

  // _bitmap_full
  predicate Full(b: Bitmap, n: nat)
    requires |b| == n / 8 + 1
  {
    var head := n / 8;
    var tail := n - head * 8;
    (forall i :: 0 <= i < head ==> b[i] == 255) && b[head] == TailMask(tail)
  }

  lemma OrBit(x: bv8, j: nat, k: nat)
    requires j < 8 && k < 8
    ensures TestBit(x | Bit(j), k) <==> (TestBit(x, k) || j == k)
  {
    if j == 0 {} else if j == 1 {} else if j == 2 {} else if j == 3 {}
    else if j == 4 {} else if j == 5 {} else if j == 6 {} else { assert j == 7; }
  }

  // A byte is the mask of its first `tail` bits iff exactly those are set.
  lemma TailByte(x: bv8, tail: nat)
    requires tail < 8
    ensures x == TailMask(tail) <==> forall k :: 0 <= k < 8 ==> (TestBit(x, k) <==> k < tail)
  {
    assert (forall k :: 0 <= k < 8 ==> (TestBit(x, k) <==> k < tail)) ==>
      (TestBit(x, 0) <==> 0 < tail) && (TestBit(x, 1) <==> 1 < tail) && (TestBit(x, 2) <==> 2 < tail) && (TestBit(x, 3) <==> 3 < tail)
      && (TestBit(x, 4) <==> 4 < tail) && (TestBit(x, 5) <==> 5 < tail) && (TestBit(x, 6) <==> 6 < tail) && (TestBit(x, 7) <==> 7 < tail);
  }

  lemma FullByte(x: bv8)
    ensures x == 255 <==> forall k :: 0 <= k < 8 ==> TestBit(x, k)
  {
    assert (forall k :: 0 <= k < 8 ==> TestBit(x, k)) ==>
      TestBit(x, 0) && TestBit(x, 1) && TestBit(x, 2) && TestBit(x, 3)
      && TestBit(x, 4) && TestBit(x, 5) && TestBit(x, 6) && TestBit(x, 7);
  }

  lemma SlotSplit(s: nat, t: nat)
    ensures s / 8 == t / 8 && s % 8 == t % 8 <==> s == t
    ensures s - s / 8 * 8 == s % 8
  {
  }

  /** Adding a slot sets its bit and no other. */
  lemma AddHas(b: Bitmap, slot: nat, t: nat)
    requires slot / 8 < |b|
    ensures Has(Add(b, slot), t) <==> Has(b, t) || t == slot
  {
    SlotSplit(slot, t);
    if t / 8 < |b| {
      OrBit(b[t / 8], slot % 8, t % 8);
    }
  }

  lemma EmptyHas(n: nat, t: nat)
    ensures !Has(Empty(n), t)
  {
    if t / 8 < n / 8 + 1 {
      assert Empty(n)[t / 8] == 0;
      assert (0 as bv8) & Bit(t % 8) == 0;
    }
  }

  /** A request is complete exactly when the contributing slots are 0..n-1. */
  lemma FullIff(b: Bitmap, n: nat)
    requires |b| == n / 8 + 1
    ensures Full(b, n) <==> forall t: nat :: Has(b, t) <==> t < n
  {
    hide TestBit, TailMask;
    var head, tail := n / 8, n % 8;
    SlotSplit(n, n);
    if Full(b, n) {
      forall t: nat ensures Has(b, t) <==> t < n {
        if t / 8 < head { FullByte(b[t / 8]); }
        else if t / 8 == head { TailByte(b[head], tail); }
      }
    }
    if forall t: nat :: Has(b, t) <==> t < n {
      forall i | 0 <= i < head ensures b[i] == 255 {
        forall k | 0 <= k < 8 ensures TestBit(b[i], k) {
          assert Has(b, i * 8 + k);
        }
        FullByte(b[i]);
      }
      forall k | 0 <= k < 8 ensures TestBit(b[head], k) <==> k < tail {
        assert Has(b, head * 8 + k) <==> head * 8 + k < n;
      }
      TailByte(b[head], tail);
    }
  }

  method AddBitmap(bitmap: array<bv8>, clientIndex: nat)
    requires clientIndex / 8 < bitmap.Length
    modifies bitmap
    ensures bitmap[..] == Add(old(bitmap[..]), clientIndex)
  {
    var i := clientIndex / 8;
    var j := clientIndex - i * 8;
    bitmap[i] := bitmap[i] | Bit(j);
  }

  method BitmapFull(bitmap: array<bv8>, clientNum: nat) returns (full: bool)
    requires bitmap.Length == clientNum / 8 + 1
    ensures full <==> forall t: nat :: Has(bitmap[..], t) <==> t < clientNum
  {
    FullIff(bitmap[..], clientNum);
    var head := clientNum / 8;
    var tail := clientNum - head * 8;
    for i := 0 to head
      invariant forall k :: 0 <= k < i ==> bitmap[k] == 255
    {
      if bitmap[i] != 255 {
        return false;
      }
    }
    return bitmap[head] == Bit(tail) - 1;
  }
}
