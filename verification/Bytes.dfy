/** Bytes, memory blocks, little-endian integers and flattened sequences. */
module Bytes {
  type Byte = x: int | 0 <= x < 256
  type Int32 = x: int | -0x8000_0000 <= x < 0x8000_0000
  type SizeT = x: int | 0 <= x < 0x1_0000_0000_0000_0000

  // A failure-compatible optional value.
  datatype Option<+T> = None | Some(value: T) {
    predicate IsFailure() { None? }
    function PropagateFailure<U>(): Option<U>
      requires None?
    {
      None
    }
    function Extract(): T
      requires Some?
    {
      value
    }
  }

  // ---------- memory blocks ----------

  // The block `s` with the bytes `b` written at position `at`.
  function Splice(s: seq<Byte>, at: nat, b: seq<Byte>): (r: seq<Byte>)
    requires at + |b| <= |s|
    ensures |r| == |s| && r[at..at + |b|] == b
    ensures r[..at] == s[..at] && r[at + |b|..] == s[at + |b|..]
  {
    s[..at] + b + s[at + |b|..]
  }

  // memcpy into an array.
  method Memcpy(a: array<Byte>, at: nat, b: seq<Byte>)
    requires at + |b| <= a.Length
    modifies a
    ensures a[..] == Splice(old(a[..]), at, b)
  {
    forall i | 0 <= i < |b| {
      a[at + i] := b[i];
    }
    assert a[..] == Splice(old(a[..]), at, b);
  }

  // A splice leaves every slice disjoint from it as it was.
  lemma SpliceElsewhere(s: seq<Byte>, at: nat, b: seq<Byte>, lo: nat, hi: nat)
    requires at + |b| <= |s| && lo <= hi <= |s|
    requires hi <= at || at + |b| <= lo
    ensures Splice(s, at, b)[lo..hi] == s[lo..hi]
  {
  }

  // ---------- flattening ----------

  function Flat(parts: seq<seq<Byte>>): seq<Byte> {
    if parts == [] then [] else parts[0] + Flat(parts[1..])
  }

  lemma {:induction false} FlatAppend(a: seq<seq<Byte>>, b: seq<seq<Byte>>)
    ensures Flat(a + b) == Flat(a) + Flat(b)
  {
    if a == [] {
      assert a + b == b;
    } else {
      FlatAppend(a[1..], b);
      assert (a + b)[1..] == a[1..] + b;
    }
  }

  lemma FlatOne(p: seq<Byte>)
    ensures Flat([p]) == p
  {
    assert [p][1..] == [];
  }

  // ---------- integers ----------

  function Pow256(n: nat): nat { if n == 0 then 1 else 256 * Pow256(n - 1) }

  function LE(v: nat, n: nat): (b: seq<Byte>)
    ensures |b| == n
  {
    if n == 0 then [] else [v % 256] + LE(v / 256, n - 1)
  }

  function UnLE(b: seq<Byte>): nat {
    if b == [] then 0 else b[0] + 256 * UnLE(b[1..])
  }

  lemma {:induction false} LERoundTrip(v: nat, n: nat)
    requires v < Pow256(n)
    ensures UnLE(LE(v, n)) == v
  {
    if n > 0 {
      LERoundTrip(v / 256, n - 1);
      assert LE(v, n)[1..] == LE(v / 256, n - 1);
    }
  }

  lemma Widths()
    ensures Pow256(4) == 0x1_0000_0000 && Pow256(8) == 0x1_0000_0000_0000_0000
  {
    assert Pow256(2) == 0x1_0000;
    assert Pow256(4) == 0x1_0000 * Pow256(2);
    assert Pow256(6) == 0x1_0000 * Pow256(4);
  }

  lemma {:induction false} UnLEBound(b: seq<Byte>)
    ensures UnLE(b) < Pow256(|b|)
  {
    if b != [] {
      UnLEBound(b[1..]);
    }
  }

  function EncInt(v: Int32): (b: seq<Byte>)
    ensures |b| == 4
  {
    LE(if v < 0 then v + 0x1_0000_0000 else v, 4)
  }

  function DecInt(b: seq<Byte>): Int32
    requires |b| == 4
  {
    UnLEBound(b);
    Widths();
    var u := UnLE(b);
    if u < 0x8000_0000 then u else u - 0x1_0000_0000
  }

  function EncSize(v: SizeT): (b: seq<Byte>)
    ensures |b| == 8
  {
    LE(v, 8)
  }

  function DecSize(b: seq<Byte>): SizeT
    requires |b| == 8
  {
    UnLEBound(b);
    Widths();
    UnLE(b)
  }

  lemma IntRoundTrip(v: Int32)
    ensures DecInt(EncInt(v)) == v
  {
    Widths();
    LERoundTrip(if v < 0 then v + 0x1_0000_0000 else v, 4);
  }

  lemma SizeRoundTrip(v: SizeT)
    ensures DecSize(EncSize(v)) == v
  {
    Widths();
    LERoundTrip(v, 8);
  }
}
