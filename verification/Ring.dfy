/** The ring buffer both sides use. Addresses are offsets into the block.

    `Ring` is the state of one buffer as a value; `CfioBuf` is the buffer itself,
    each of whose methods is proved against the function on values. */
module Rings {
  import opened Bytes

  datatype Ring = Ring(mem: seq<Byte>, used: nat, free: nat, end: nat) {
    function Size(): nat { |mem| }
    ghost predicate Valid() { used < |mem| && free < |mem| && end <= |mem| }
  }

  // Increases free_addr; at the end of the block it wraps, and `end` records
  // where this increment started.
  function UseBuf(r: Ring, n: nat): (r': Ring)
    requires r.Valid() && n <= r.Size()
    ensures r'.Valid() && r'.mem == r.mem && r'.used == r.used
  {
    if r.free + n >= r.Size() then r.(end := r.free, free := r.free + n - r.Size())
    else r.(free := r.free + n)
  }

  function FreeBuf(r: Ring, n: nat): (r': Ring)
    requires r.Valid() && n <= r.Size()
    ensures r'.Valid() && r'.mem == r.mem && r'.free == r.free && r'.end == r.end
  {
    r.(used := if r.used + n >= r.Size() then r.used + n - r.Size() else r.used + n)
  }

  lemma ModCase(a: nat, n: nat)
    requires a < 2 * n
    ensures a % n == if a < n then a else a - n
  {
    if a >= n { ModWrap(a - n, n); } else { ModWrap(a, n); }
  }

  lemma ModWrap(b: nat, n: nat)
    requires b < n
    ensures (b + n) % n == b && b % n == b
  {
  }

  /** The modular size formulas, by the order of the two pointers. */
  function FreeSize(r: Ring): (n: nat)
    requires r.Valid()
    ensures n == if r.free < r.used then r.used - r.free - 1 else r.Size() - (r.free - r.used) - 1
  {
    ModCase(r.Size() + r.used - r.free - 1, r.Size());
    (r.Size() + r.used - r.free - 1) % r.Size()
  }

  function UsedSize(r: Ring): (n: nat)
    requires r.Valid()
    ensures n == if r.free < r.used then r.Size() - (r.used - r.free) else r.free - r.used
    ensures n + FreeSize(r) == r.Size() - 1
  {
    ModCase(r.Size() + r.free - r.used, r.Size());
    (r.Size() + r.free - r.used) % r.Size()
  }

  function LeftSpace(r: Ring): nat
    requires r.Valid()
  {
    r.Size() - r.free
  }

  function Clear(r: Ring): (r': Ring)
    requires r.Valid()
    ensures r'.Valid()
  {
    r.(free := 0, used := 0)
  }

  // Moves free_addr to the start when the tail is too short for n bytes.
  function SkipTail(r: Ring, n: nat): (r': Ring)
    requires r.Valid()
    ensures r'.Valid() && r'.mem == r.mem && r'.used == r.used
  {
    if n > LeftSpace(r) then UseBuf(r, LeftSpace(r)) else r
  }

  function IsFreeSpaceEnough(r: Ring, n: nat): (res: (bool, Ring))
    requires r.Valid()
    ensures res.1.Valid() && res.1.mem == r.mem && res.1.used == r.used
  {
    if FreeSize(r) < n then (false, r)
    else var s := SkipTail(r, n); (FreeSize(s) >= n, s)
  }

  // The address holds no unread byte.
  predicate Unused(r: Ring, x: nat) {
    x < r.Size() && !(if r.used <= r.free then r.used <= x < r.free else r.used <= x || x < r.free)
  }

  // The byte before used_addr stays unused, to tell a full ring from an empty one.
  predicate Spare(r: Ring, x: nat) { x + 1 == r.used || (r.used == 0 && x + 1 == r.Size()) }

  ghost predicate FreeRange(r: Ring, at: nat, n: nat) {
    forall x :: at <= x < at + n ==> Unused(r, x) && !Spare(r, x)
  }

  /** The test succeeds exactly when somewhere in the block n bytes in a row are
      free, and free_addr then stands before such bytes. */
  lemma EnoughIff(r: Ring, n: nat)
    requires r.Valid() && n > 0
    ensures IsFreeSpaceEnough(r, n).0 <==> exists at :: FreeRange(r, at, n)
    ensures IsFreeSpaceEnough(r, n).0 ==> FreeRange(r, IsFreeSpaceEnough(r, n).1.free, n)
  {
    if exists at :: FreeRange(r, at, n) {
      var at :| FreeRange(r, at, n);
      RangeHasRoom(r, at, n);
    }
    if IsFreeSpaceEnough(r, n).0 { assert FreeRange(r, IsFreeSpaceEnough(r, n).1.free, n); }
  }

  // n free bytes in a row stand behind free_addr or, with the tail too short, before used_addr.
  lemma RangeHasRoom(r: Ring, at: nat, n: nat)
    requires r.Valid() && n > 0 && FreeRange(r, at, n)
    ensures if r.free <= at then r.free + n <= r.Size() && n <= FreeSize(r) else at + n < r.used <= r.free
  {
    assert Unused(r, at) && !Spare(r, at);
    assert Unused(r, at + n - 1) && !Spare(r, at + n - 1);
    if r.used <= r.free && at < r.used <= at + n {
      assert Spare(r, r.used - 1);
    }
  }

  predicate CheckUsedAddr(r: Ring, addr: nat)
    requires r.Valid()
  {
    if r.used < r.free then r.used <= addr < r.free
    else !(r.free <= addr < r.used)
  }

  // ---------- packing ----------

  predicate Fits(r: Ring, n: nat)
    requires r.Valid()
  {
    n <= FreeSize(r) && n <= LeftSpace(r)
  }

  // One memcpy at free_addr, then use_buf.
  function PackField(r: Ring, b: seq<Byte>): (r': Ring)
    requires r.Valid() && Fits(r, |b|)
    ensures r'.Valid() && r'.used == r.used && r'.Size() == r.Size()
  {
    UseBuf(r.(mem := Splice(r.mem, r.free, b)), |b|)
  }

  function LastLength(fields: seq<seq<Byte>>): nat {
    if fields == [] then 0
    else if fields[|fields| - 1] != [] then |fields[|fields| - 1]|
    else LastLength(fields[..|fields| - 1])
  }

  // The ring after the packed bytes `b`, when the last non-empty field has
  // length `last`.
  function Packed(r: Ring, b: seq<Byte>, last: nat): (r': Ring)
    requires r.Valid() && |b| <= LeftSpace(r) && last <= |b|
    ensures r'.Valid()
  {
    var mem := Splice(r.mem, r.free, b);
    if r.free + |b| < r.Size() then Ring(mem, r.used, r.free + |b|, r.end)
    else Ring(mem, r.used, 0, r.Size() - last)
  }

  lemma PackFieldIsPacked(r: Ring, b: seq<Byte>)
    requires r.Valid() && Fits(r, |b|)
    ensures PackField(r, b) == Packed(r, b, |b|)
  {
  }

  lemma {:induction false} LastLengthBound(fields: seq<seq<Byte>>)
    ensures LastLength(fields) <= |Flat(fields)|
    ensures Flat(fields) != [] ==> LastLength(fields) > 0
  {
    if fields != [] {
      var front, last := fields[..|fields| - 1], fields[|fields| - 1];
      assert fields == front + [last];
      FlatAppend(front, [last]);
      FlatOne(last);
      LastLengthBound(front);
    }
  }

  // Packing one more field after `done` bytes of the same message.
  lemma PackOneMore(r: Ring, done: seq<Byte>, last: nat, b: seq<Byte>)
    requires r.Valid() && Fits(r, |done| + |b|) && last <= |done| && (done != [] ==> last > 0)
    ensures Fits(Packed(r, done, last), |b|)
    ensures PackField(Packed(r, done, last), b) == Packed(r, done + b, if b == [] then last else |b|)
  {
    var p := Packed(r, done, last);
    if r.free + |done| < r.Size() {
      assert Splice(Splice(r.mem, r.free, done), r.free + |done|, b) == Splice(r.mem, r.free, done + b);
      if b == [] { assert done + b == done; }
    } else {
      assert b == [] && done + b == done;
      assert Splice(p.mem, 0, b) == p.mem;
    }
  }

  // ---------- the buffer ----------

  class CfioBuf {
    const data: array<Byte>
    var used: nat
    var free: nat
    var end: nat

    ghost function Abs(): Ring
      reads this, data
    {
      Ring(data[..], used, free, end)
    }

    ghost predicate Valid()
      reads this, data
    {
      Abs().Valid()
    }

    constructor (size: nat)
      requires size > 0
      ensures Valid() && fresh(data) && data.Length == size
      ensures used == free == end == 0
    {
      data := new Byte[size];
      used, free, end := 0, 0, 0;
    }

    method Use(n: nat)
      requires Valid() && n <= data.Length
      modifies this
      ensures Abs() == UseBuf(old(Abs()), n)
    {
      free := free + n;
      if free >= data.Length {
        end := free - n;
        free := free - data.Length;
      }
    }

    method Free(n: nat)
      requires Valid() && n <= data.Length
      modifies this
      ensures Abs() == FreeBuf(old(Abs()), n)
    {
      used := used + n;
      if used >= data.Length {
        used := used - data.Length;
      }
    }

    method FreeSpace() returns (n: nat)
      requires Valid()
      ensures n == FreeSize(Abs())
    {
      n := (data.Length + used - free - 1) % data.Length;
    }

    method UsedSpace() returns (n: nat)
      requires Valid()
      ensures n == UsedSize(Abs())
    {
      n := (data.Length + free - used) % data.Length;
    }

    method ClearBuf()
      requires Valid()
      modifies this
      ensures Abs() == Clear(old(Abs()))
    {
      free, used := 0, 0;
    }

    method IsEnough(n: nat) returns (ok: bool)
      requires Valid()
      modifies this
      ensures (ok, Abs()) == IsFreeSpaceEnough(old(Abs()), n)
    {
      var leftSpace := data.Length - free;
      var freeSize := FreeSpace();
      if freeSize < n {
        return false;
      }
      if n > leftSpace {
        Use(leftSpace);
      }
      freeSize := FreeSpace();
      return freeSize >= n;
    }

    method CheckUsed(addr: nat) returns (inUse: bool)
      requires Valid() && addr < data.Length
      ensures inUse == CheckUsedAddr(Abs(), addr)
    {
      if used < free {
        return used <= addr && addr < free;
      } else {
        return !(free <= addr && addr < used);
      }
    }

    method PackData(b: seq<Byte>)
      requires Valid() && Fits(Abs(), |b|)
      modifies this, data
      ensures Abs() == PackField(old(Abs()), b)
    {
      if |b| != 0 {
        Memcpy(data, free, b);
      }
      assert data[..] == Splice(old(data[..]), free, b);
      Use(|b|);
    }

    method UnpackData(n: nat) returns (b: seq<Byte>)
      requires Valid() && n <= UsedSize(Abs()) && used + n <= data.Length
      modifies this
      ensures b == old(data[used..used + n]) && Abs() == FreeBuf(old(Abs()), n)
    {
      var usedSize := UsedSpace();
      assert usedSize >= n;
      b := data[used..used + n];
      Free(n);
    }

    // The length of an array, then its bytes: two fields.
    method PackDataArray(len: Int32, b: seq<Byte>)
      requires Valid() && Fits(Abs(), 4 + |b|)
      modifies this, data
      ensures Fits(old(Abs()), 4) && Fits(PackField(old(Abs()), EncInt(len)), |b|)
      ensures Abs() == PackField(PackField(old(Abs()), EncInt(len)), b)
    {
      PackFieldIsPacked(Abs(), EncInt(len));
      PackOneMore(Abs(), EncInt(len), 4, b);
      PackData(EncInt(len));
      PackData(b);
    }
  }
}
