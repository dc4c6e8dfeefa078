/** Row-major arithmetic of n-dimensional boxes, and the two-box copy of the server.

    A box is a start and a count per dimension. Its cells are stored row-major,
    `ele` bytes each. The copy walks the source cells in order while an odometer
    moves the destination pointer; the theorems say that this places every cell
    where the row-major formula says it belongs, and touches nothing else. */
module Boxes {
  import opened Bytes

  datatype Box = Box(start: seq<nat>, count: seq<nat>) {
    predicate Valid() { |start| == |count| }
    function Cells(): nat { Product(count) }
  }

  function Product(dims: seq<nat>): nat {
    if dims == [] then 1 else dims[0] * Product(dims[1..])
  }

  // Weighted sum of `idx` by the row-major strides of `dims`.
  function Lin(idx: seq<nat>, dims: seq<nat>): nat
    requires |idx| == |dims|
  {
    if idx == [] then 0 else idx[0] * Product(dims[1..]) + Lin(idx[1..], dims[1..])
  }

  function Unlin(k: nat, dims: seq<nat>): (idx: seq<nat>)
    requires k < Product(dims)
    ensures |idx| == |dims|
  {
    if dims == [] then [] else
      var stride := Product(dims[1..]);
      ProductPositive(dims, k);
      DivModBounds(k, dims[0], stride);
      [k / stride] + Unlin(k % stride, dims[1..])
  }

  ghost predicate InBounds(idx: seq<nat>, dims: seq<nat>) {
    |idx| == |dims| && forall i :: 0 <= i < |idx| ==> idx[i] < dims[i]
  }

  function Add(a: seq<nat>, b: seq<nat>): (c: seq<nat>)
    requires |a| == |b|
  {
    seq(|a|, i requires 0 <= i < |a| => a[i] + b[i])
  }

  // Componentwise difference; the callers only use it where a[i] >= b[i].
  function Sub(a: seq<nat>, b: seq<nat>): (c: seq<nat>)
    requires |a| == |b|
  {
    seq(|a|, i requires 0 <= i < |a| => if a[i] >= b[i] then a[i] - b[i] else 0)
  }

  ghost predicate Contains(b: Box, g: seq<nat>) {
    && b.Valid()
    && |g| == |b.start|
    && forall i :: 0 <= i < |g| ==> b.start[i] <= g[i] < b.start[i] + b.count[i]
  }

  ghost predicate Inside(src: Box, dst: Box) {
    && src.Valid() && dst.Valid() && |src.start| == |dst.start|
    && forall i :: 0 <= i < |src.start| ==>
         dst.start[i] <= src.start[i] && src.start[i] + src.count[i] <= dst.start[i] + dst.count[i]
  }

  // Row-major position of the global index g inside box b, and its inverse.
  function Offset(b: Box, g: seq<nat>): nat
    requires |b.start| == |b.count| == |g|
  {
    Lin(Sub(g, b.start), b.count)
  }

  function Global(b: Box, k: nat): (g: seq<nat>)
    requires |b.start| == |b.count| && k < b.Cells()
  {
    Add(b.start, Unlin(k, b.count))
  }

  // ---------- arithmetic ----------

  lemma MulMono(a: nat, b: nat, c: nat)
    requires a <= b
    ensures a * c <= b * c
  {
    assert b * c == a * c + (b - a) * c;
  }

  lemma DivModBounds(k: nat, d: nat, stride: nat)
    requires k < d * stride
    ensures stride > 0 && k / stride < d && k % stride < stride
    ensures k == (k / stride) * stride + k % stride
  {
    if stride > 0 && k / stride >= d {
      assert false;
    }
  }

  lemma RowBelow(q: nat, r: nat, q': nat, d: nat)
    requires q < q' && r < d
    ensures q * d + r < q' * d
  {
    MulMono(q + 1, q', d);
  }

  lemma DivModUnique(q: nat, r: nat, d: nat)
    requires r < d
    ensures (q * d + r) / d == q && (q * d + r) % d == r
  {
    var a := q * d + r;
    var q', r' := a / d, a % d;
    assert a == q' * d + r';
    if q < q' {
      RowBelow(q, r, q', d);
    } else if q' < q {
      RowBelow(q', r', q, d);
    }
  }

  lemma ProductPositive(dims: seq<nat>, k: nat)
    requires dims != [] && k < Product(dims)
    ensures Product(dims[1..]) > 0 && dims[0] > 0
  {
  }

  lemma {:induction false} LinBound(idx: seq<nat>, dims: seq<nat>)
    requires InBounds(idx, dims)
    ensures Lin(idx, dims) < Product(dims)
  {
    if idx != [] {
      var stride, rest := Product(dims[1..]), Lin(idx[1..], dims[1..]);
      LinBound(idx[1..], dims[1..]);
      MulMono(idx[0] + 1, dims[0], stride);
      assert (idx[0] + 1) * stride == idx[0] * stride + stride;
      assert Lin(idx, dims) == idx[0] * stride + rest;
    }
  }

  /** Row-major positions and multi-indices are in bijection. */
  lemma {:induction false} UnlinInverse(k: nat, dims: seq<nat>)
    requires k < Product(dims)
    ensures InBounds(Unlin(k, dims), dims) && Lin(Unlin(k, dims), dims) == k
  {
    if dims != [] {
      var stride := Product(dims[1..]);
      DivModBounds(k, dims[0], stride);
      UnlinInverse(k % stride, dims[1..]);
      var idx := Unlin(k, dims);
      assert idx[1..] == Unlin(k % stride, dims[1..]);
      forall i | 0 <= i < |idx| ensures idx[i] < dims[i] {
        if i > 0 { assert idx[i] == idx[1..][i - 1] && dims[i] == dims[1..][i - 1]; }
      }
    }
  }

  lemma {:induction false} LinInverse(idx: seq<nat>, dims: seq<nat>)
    requires InBounds(idx, dims)
    ensures Lin(idx, dims) < Product(dims) && Unlin(Lin(idx, dims), dims) == idx
  {
    LinBound(idx, dims);
    if idx != [] {
      LinBound(idx[1..], dims[1..]);
      DivModUnique(idx[0], Lin(idx[1..], dims[1..]), Product(dims[1..]));
      LinInverse(idx[1..], dims[1..]);
      assert Unlin(Lin(idx, dims), dims) == [idx[0]] + idx[1..];
    }
  }

  lemma {:induction false} LinAdd(a: seq<nat>, b: seq<nat>, dims: seq<nat>)
    requires |a| == |b| == |dims|
    ensures Lin(Add(a, b), dims) == Lin(a, dims) + Lin(b, dims)
  {
    if a != [] {
      LinAdd(a[1..], b[1..], dims[1..]);
      assert Add(a, b)[1..] == Add(a[1..], b[1..]);
      var p := Product(dims[1..]);
      assert (a[0] + b[0]) * p == a[0] * p + b[0] * p;
    }
  }

  lemma {:induction false} LinZero(idx: seq<nat>, dims: seq<nat>)
    requires |idx| == |dims| && forall i :: 0 <= i < |idx| ==> idx[i] == 0
    ensures Lin(idx, dims) == 0
  {
    if idx != [] {
      LinZero(idx[1..], dims[1..]);
    }
  }

  lemma {:induction false} LinUpdate(idx: seq<nat>, dims: seq<nat>, i: nat, v: nat)
    requires |idx| == |dims| && i < |idx|
    ensures Lin(idx[i := v], dims) == Lin(idx, dims) + (v - idx[i]) * Product(dims[i + 1..])
  {
    if i == 0 {
      assert idx[0 := v][1..] == idx[1..];
      var p := Product(dims[1..]);
      assert v * p == idx[0] * p + (v - idx[0]) * p;
    } else {
      LinUpdate(idx[1..], dims[1..], i - 1, v);
      assert idx[i := v][1..] == idx[1..][i - 1 := v];
      assert dims[1..][i..] == dims[i + 1..];
    }
  }

  lemma ProductSuffix(dims: seq<nat>, i: nat)
    requires i < |dims|
    ensures Product(dims[i..]) == dims[i] * Product(dims[i + 1..])
  {
    assert dims[i..][1..] == dims[i + 1..];
  }

  lemma LinSuffix(idx: seq<nat>, dims: seq<nat>, i: nat)
    requires |idx| == |dims| && i < |dims|
    ensures Lin(idx[i..], dims[i..]) == idx[i] * Product(dims[i + 1..]) + Lin(idx[i + 1..], dims[i + 1..])
  {
    assert dims[i..][1..] == dims[i + 1..] && idx[i..][1..] == idx[i + 1..];
  }

  // ---------- correspondence of two boxes ----------

  lemma GlobalContained(b: Box, k: nat)
    requires b.Valid() && k < b.Cells()
    ensures Contains(b, Global(b, k)) && Offset(b, Global(b, k)) == k
  {
    UnlinInverse(k, b.count);
    assert Sub(Global(b, k), b.start) == Unlin(k, b.count);
  }

  lemma ContainedGlobal(b: Box, g: seq<nat>)
    requires Contains(b, g)
    ensures Offset(b, g) < b.Cells() && Global(b, Offset(b, g)) == g
  {
    var d := Sub(g, b.start);
    assert InBounds(d, b.count);
    LinInverse(d, b.count);
    assert Add(b.start, d) == g;
  }

  /** The pointer of the copy: the destination position of source cell i is the
      position of the source corner plus the weighted odometer. */
  lemma PlaceOfSource(dst: Box, src: Box, i: nat)
    requires Inside(src, dst) && i < src.Cells()
    ensures Contains(dst, Global(src, i))
    ensures Offset(dst, Global(src, i))
         == Lin(Sub(src.start, dst.start), dst.count) + Lin(Unlin(i, src.count), dst.count)
  {
    GlobalContained(src, i);
    var g := Global(src, i);
    assert Sub(g, dst.start) == Add(Sub(src.start, dst.start), Unlin(i, src.count));
    LinAdd(Sub(src.start, dst.start), Unlin(i, src.count), dst.count);
  }

  // ---------- cells of a byte array ----------

  function Cell(data: seq<Byte>, k: nat, ele: nat): (c: seq<Byte>)
    requires (k + 1) * ele <= |data|
    ensures |c| == ele
  {
    CellBounds(k, ele);
    data[k * ele..(k + 1) * ele]
  }

  lemma CellBounds(k: nat, ele: nat)
    ensures 0 <= k * ele <= (k + 1) * ele && (k + 1) * ele - k * ele == ele
  {
    assert (k + 1) * ele == k * ele + ele;
  }

  lemma CellFits(k: nat, n: nat, ele: nat)
    requires k < n
    ensures (k + 1) * ele <= n * ele
  {
    assert (k + 1) * ele + (n - k - 1) * ele == n * ele;
  }

  // What the cell of `dst` at position o must hold after `payload` of box `src`
  // has been assigned over `before`.
  ghost function AssignedCell(before: seq<Byte>, ele: nat, dst: Box, src: Box, payload: seq<Byte>, o: nat): seq<Byte>
    requires dst.Valid() && src.Valid()
    requires o < dst.Cells() && |before| == dst.Cells() * ele && |payload| >= src.Cells() * ele
  {
    var g := Global(dst, o);
    if Contains(src, g) then
      ContainedGlobal(src, g);
      CellFits(Offset(src, g), src.Cells(), ele);
      Cell(payload, Offset(src, g), ele)
    else
      CellFits(o, dst.Cells(), ele);
      Cell(before, o, ele)
  }

  ghost predicate Assigned(before: seq<Byte>, after: seq<Byte>, ele: nat, dst: Box, src: Box, payload: seq<Byte>) {
    && dst.Valid() && src.Valid()
    && |before| == |after| == dst.Cells() * ele && |payload| >= src.Cells() * ele
    && forall o: nat :: o < dst.Cells() ==> CellAssigned(before, after, ele, dst, src, payload, o)
  }

  ghost predicate CellAssigned(before: seq<Byte>, after: seq<Byte>, ele: nat, dst: Box, src: Box, payload: seq<Byte>, o: nat)
    requires dst.Valid() && src.Valid()
    requires o < dst.Cells() && |before| == dst.Cells() * ele && |payload| >= src.Cells() * ele
  {
    CellIs(after, o, ele, AssignedCell(before, ele, dst, src, payload, o))
  }

  ghost predicate CellIs(data: seq<Byte>, k: nat, ele: nat, c: seq<Byte>) {
    (k + 1) * ele <= |data| && Cell(data, k, ele) == c
  }

  // ---------- the copy ----------

  /** Advances the odometer and moves the destination pointer along with it.
      `dim` never runs below zero because the source box is not exhausted. */
  method IncSrcIndex(ele: nat, dstCount: seq<nat>, dstAddr: int, srcCount: seq<nat>, srcIndex: array<nat>, ghost k: nat, ghost base: int)
    returns (dstAddr': int)
    requires |dstCount| == |srcCount| == srcIndex.Length
    requires k + 1 < Product(srcCount) && srcIndex[..] == Unlin(k, srcCount)
    requires dstAddr == base + ele * Lin(srcIndex[..], dstCount)
    modifies srcIndex
    ensures srcIndex[..] == Unlin(k + 1, srcCount)
    ensures dstAddr' == base + ele * Lin(srcIndex[..], dstCount)
  {
    ghost var idx := srcIndex[..];
    UnlinInverse(k, srcCount);
    CarryStart(idx, srcCount, k);
    PointerStart(idx, dstCount, ele, base);
    var dim := srcIndex.Length - 1;
    srcIndex[dim] := srcIndex[dim] + 1;
    idx := Bumped(idx);
    dstAddr' := dstAddr;
    var subSize: int := ele;
    while srcIndex[dim] >= srcCount[dim]
      invariant 0 <= dim < srcIndex.Length
      invariant srcIndex[..] == idx && CarryInv(idx, srcCount, dim, k + 1)
      invariant PointerInv(dstAddr', subSize, base, ele, idx, dstCount, dim)
      decreases dim
    {
      CarryContinues(idx, srcCount, dim, k + 1);
      CarryStep(idx, srcCount, dim, k + 1);
      PointerStep(dstAddr', subSize, base, ele, idx, srcCount, dstCount, dim);
      ghost var carried := Carried(idx, dim);
      dstAddr' := dstAddr' - (srcCount[dim] - 1) * subSize;
      srcIndex[dim] := 0;
      subSize := subSize * dstCount[dim];
      dim := dim - 1;
      srcIndex[dim] := srcIndex[dim] + 1;
      idx := carried;
    }
    dstAddr' := dstAddr' + subSize;
    LinInverse(idx, srcCount);
  }

  // The pointer lags one innermost-unfinished stride behind the odometer.
  ghost predicate PointerInv(addr: int, sub: int, base: int, ele: nat, idx: seq<nat>, dst: seq<nat>, dim: int) {
    && |idx| == |dst| && 0 <= dim < |dst|
    && sub == ele * Product(dst[dim + 1..])
    && addr + sub == base + ele * Lin(idx, dst)
  }

  function Carried(idx: seq<nat>, dim: nat): (next: seq<nat>)
    requires 0 < dim < |idx|
  {
    idx[dim := 0][dim - 1 := idx[dim - 1] + 1]
  }

  // While the carry runs: position `dim` may have reached its count, everything
  // to the right is zero, and the weighted value is the next cell number.
  ghost predicate CarryInv(idx: seq<nat>, dims: seq<nat>, dim: int, value: nat) {
    && |idx| == |dims| && 0 <= dim < |idx|
    && (forall i :: 0 <= i < |idx| && i != dim ==> idx[i] < dims[i])
    && 0 < idx[dim] <= dims[dim]
    && (forall i :: dim < i < |idx| ==> idx[i] == 0)
    && Lin(idx, dims) == value
  }

  function Bumped(idx: seq<nat>): (next: seq<nat>)
    requires idx != []
  {
    idx[|idx| - 1 := idx[|idx| - 1] + 1]
  }

  lemma LinBumped(idx: seq<nat>, dims: seq<nat>)
    requires |idx| == |dims| > 0
    ensures Lin(Bumped(idx), dims) == Lin(idx, dims) + 1
  {
    LinBump(idx, dims, |idx| - 1);
    assert dims[|idx| - 1 + 1..] == [];
  }

  lemma CarryStart(idx: seq<nat>, src: seq<nat>, k: nat)
    requires InBounds(idx, src) && k + 1 < Product(src) && Lin(idx, src) == k
    ensures |idx| > 0 && CarryInv(Bumped(idx), src, |idx| - 1, k + 1)
  {
    LinBumped(idx, src);
  }

  lemma PointerStart(idx: seq<nat>, dst: seq<nat>, ele: nat, base: int)
    requires |idx| == |dst| > 0
    ensures PointerInv(base + ele * Lin(idx, dst), ele, base, ele, Bumped(idx), dst, |idx| - 1)
  {
    LinBumped(idx, dst);
    hide Lin, Bumped;
    assert dst[|idx| - 1 + 1..] == [];
    assert ele * Product(dst[|idx| - 1 + 1..]) == ele;
    Distribute(ele, Lin(idx, dst));
  }

  lemma Distribute(a: int, b: int)
    ensures a * (b + 1) == a * b + a
  {
  }

  lemma LeadingFull(idx: seq<nat>, dims: seq<nat>)
    requires |idx| == |dims| > 0 && idx[0] == dims[0]
    requires forall i :: 0 < i < |idx| ==> idx[i] == 0
    ensures Lin(idx, dims) == Product(dims)
  {
    LinZero(idx[1..], dims[1..]);
  }

  // A carry out of the leading dimension would mean that all cells are used up.
  lemma CarryContinues(idx: seq<nat>, dims: seq<nat>, dim: int, value: nat)
    requires CarryInv(idx, dims, dim, value) && idx[dim] >= dims[dim] && value < Product(dims)
    ensures dim > 0
  {
    if dim == 0 {
      LeadingFull(idx, dims);
    }
  }

  lemma CarryStep(idx: seq<nat>, dims: seq<nat>, dim: int, value: nat)
    requires CarryInv(idx, dims, dim, value) && idx[dim] >= dims[dim] && dim > 0
    ensures CarryInv(Carried(idx, dim), dims, dim - 1, value)
  {
    CarriedLin(idx, dims, dim);
  }

  lemma LinBump(idx: seq<nat>, dims: seq<nat>, i: nat)
    requires |idx| == |dims| && i < |idx|
    ensures Lin(idx[i := idx[i] + 1], dims) == Lin(idx, dims) + Product(dims[i + 1..])
  {
    LinUpdate(idx, dims, i, idx[i] + 1);
  }

  lemma LinClear(idx: seq<nat>, dims: seq<nat>, i: nat)
    requires |idx| == |dims| && i < |idx|
    ensures Lin(idx[i := 0], dims) + idx[i] * Product(dims[i + 1..]) == Lin(idx, dims)
  {
    LinUpdate(idx, dims, i, 0);
  }

  lemma CarriedLin(idx: seq<nat>, dims: seq<nat>, dim: nat)
    requires |idx| == |dims| && 0 < dim < |idx|
    ensures Lin(Carried(idx, dim), dims) + idx[dim] * Product(dims[dim + 1..])
         == Lin(idx, dims) + dims[dim] * Product(dims[dim + 1..])
  {
    LinClear(idx, dims, dim);
    LinBump(idx[dim := 0], dims, dim - 1);
    ProductSuffix(dims, dim);
  }

  lemma PointerStep(addr: int, sub: int, base: int, ele: nat, idx: seq<nat>, src: seq<nat>, dst: seq<nat>, dim: nat)
    requires PointerInv(addr, sub, base, ele, idx, dst, dim)
    requires |src| == |dst| && dim > 0 && idx[dim] == src[dim]
    ensures PointerInv(addr - (src[dim] - 1) * sub, sub * dst[dim], base, ele, Carried(idx, dim), dst, dim - 1)
  {
    CarriedLin(idx, dst, dim);
    ProductSuffix(dst, dim);
    Rearrange(ele, Lin(idx, dst), Lin(Carried(idx, dim), dst), src[dim], dst[dim], Product(dst[dim + 1..]));
  }

  lemma Rearrange(ele: int, v: int, v': int, s: int, d: int, p: int)
    requires v' + s * p == v + d * p
    ensures ele * (d * p) == (ele * p) * d
    ensures ele * v' == ele * v - (s - 1) * (ele * p) - ele * p + (ele * p) * d
  {
    var e := ele * p;
    assert ele * (d * p) == e * d;
    assert ele * (s * p) == e * s;
    assert ele * v' + ele * (s * p) == ele * (v' + s * p);
    assert ele * v + ele * (d * p) == ele * (v + d * p);
    assert (s - 1) * e == s * e - e;
  }

  // ---------- one client's box into the hull ----------

  // Cell o of the destination after the first i source cells have been copied.
  ghost function PartialCell(before: seq<Byte>, ele: nat, dst: Box, src: Box, payload: seq<Byte>, i: nat, o: nat): seq<Byte>
    requires dst.Valid() && src.Valid()
    requires o < dst.Cells() && |before| == dst.Cells() * ele && |payload| >= src.Cells() * ele
  {
    var g := Global(dst, o);
    if Contains(src, g) && Offset(src, g) < i then AssignedCell(before, ele, dst, src, payload, o)
    else CellFits(o, dst.Cells(), ele); Cell(before, o, ele)
  }

  ghost predicate Copied(before: seq<Byte>, now: seq<Byte>, ele: nat, dst: Box, src: Box, payload: seq<Byte>, i: nat) {
    && dst.Valid() && src.Valid()
    && |before| == |now| == dst.Cells() * ele && |payload| >= src.Cells() * ele
    && forall o: nat :: o < dst.Cells() ==> CellCopied(before, now, ele, dst, src, payload, i, o)
  }

  ghost predicate CellCopied(before: seq<Byte>, now: seq<Byte>, ele: nat, dst: Box, src: Box, payload: seq<Byte>, i: nat, o: nat)
    requires dst.Valid() && src.Valid()
    requires o < dst.Cells() && |before| == dst.Cells() * ele && |payload| >= src.Cells() * ele
  {
    CellIs(now, o, ele, PartialCell(before, ele, dst, src, payload, i, o))
  }

  lemma CopyNothing(before: seq<Byte>, now: seq<Byte>, ele: nat, dst: Box, src: Box, payload: seq<Byte>)
    requires dst.Valid() && src.Valid() && before == now
    requires |before| == dst.Cells() * ele && |payload| >= src.Cells() * ele
    ensures Copied(before, now, ele, dst, src, payload, 0)
  {
    forall o: nat | o < dst.Cells()
      ensures CellCopied(before, now, ele, dst, src, payload, 0, o)
    {
      CellFits(o, dst.Cells(), ele);
    }
  }

  lemma CopyCell(before: seq<Byte>, now: seq<Byte>, ele: nat, dst: Box, src: Box, payload: seq<Byte>, i: nat, at: nat)
    requires Copied(before, now, ele, dst, src, payload, i)
    requires Inside(src, dst) && i < src.Cells() && at == Offset(dst, Global(src, i))
    ensures at < dst.Cells() && (at + 1) * ele <= |now| && (i + 1) * ele <= |payload|
    ensures at * ele + ele <= |now|
    ensures Copied(before, Splice(now, at * ele, Cell(payload, i, ele)), ele, dst, src, payload, i + 1)
  {
    PlaceOfSource(dst, src, i);
    GlobalContained(src, i);
    ContainedGlobal(dst, Global(src, i));
    CellFits(at, dst.Cells(), ele);
    CellFits(i, src.Cells(), ele);
    CellBounds(at, ele);
    CellBounds(i, ele);
    var c := Cell(payload, i, ele);
    var after, done := Splice(now, at * ele, c), i + 1;
    forall o: nat | o < dst.Cells()
      ensures CellCopied(before, after, ele, dst, src, payload, done, o)
    {
      GlobalContained(dst, o);
      var g := Global(dst, o);
      CellFits(o, dst.Cells(), ele);
      CellBounds(o, ele);
      if o == at {
        assert g == Global(src, i);
      } else {
        assert CellCopied(before, now, ele, dst, src, payload, i, o);
        if o < at { MulMono(o + 1, at, ele); } else { MulMono(at + 1, o, ele); }
        SpliceElsewhere(now, at * ele, c, o * ele, (o + 1) * ele);
        if Contains(src, g) {
          ContainedGlobal(src, g);
          assert Offset(src, g) != i;
        }
      }
    }
  }

  lemma CopyAll(before: seq<Byte>, now: seq<Byte>, ele: nat, dst: Box, src: Box, payload: seq<Byte>)
    requires Copied(before, now, ele, dst, src, payload, src.Cells())
    ensures Assigned(before, now, ele, dst, src, payload)
  {
    forall o: nat | o < dst.Cells()
      ensures CellAssigned(before, now, ele, dst, src, payload, o)
    {
      assert CellCopied(before, now, ele, dst, src, payload, src.Cells(), o);
      var g := Global(dst, o);
      if Contains(src, g) {
        ContainedGlobal(src, g);
      }
    }
  }

  method Extent(count: seq<nat>) returns (n: nat)
    ensures n == Product(count)
  {
    n := 1;
    ghost var rest := count;
    for i := 0 to |count|
      invariant Product(count) == n * Product(count[i..])
    {
      ProductSuffix(count, i);
      MulAssoc(n, count[i], Product(count[i + 1..]));
      n := n * count[i];
    }
    assert count[|count|..] == [];
  }

  lemma MulAssoc(a: nat, b: nat, c: nat)
    ensures a * (b * c) == (a * b) * c
  {
  }

  /** Copies the payload of box `src` into the array of box `dst`, at any rank. */
  method PutVar(ele: nat, dst: Box, data: array<Byte>, src: Box, payload: seq<Byte>)
    requires Inside(src, dst)
    requires data.Length == dst.Cells() * ele && |payload| >= src.Cells() * ele
    modifies data
    ensures Assigned(old(data[..]), data[..], ele, dst, src, payload)
  {
    hide Copied, Assigned, Unlin, Lin, Sub, Product;
    var ndims := |src.count|;
    var srcLen := Extent(src.count);
    var srcIndex := new nat[ndims](_ => 0);
    var dstOffset := CornerOffset(dst, src);
    var dstAddr: int := ele * dstOffset;
    var srcAddr: int := 0;
    ghost var before := data[..];
    CopyNothing(before, data[..], ele, dst, src, payload);
    LinZero(srcIndex[..], dst.count);
    if srcLen > 0 {
      UnlinZero(src.count);
    }
    var i := 0;
    while i < srcLen - 1
      invariant 0 <= i && (srcLen > 0 ==> i < srcLen) && (srcLen == 0 ==> i == 0)
      invariant srcLen > 0 ==> srcIndex[..] == Unlin(i, src.count)
      invariant dstAddr == ele * dstOffset + ele * Lin(srcIndex[..], dst.count)
      invariant srcAddr == i * ele
      invariant Copied(before, data[..], ele, dst, src, payload, i)
    {
      CopyHere(before, data[..], ele, dst, src, payload, i, dstAddr, srcAddr, dstOffset);
      Memcpy(data, dstAddr, payload[srcAddr..srcAddr + ele]);
      dstAddr := IncSrcIndex(ele, dst.count, dstAddr, src.count, srcIndex, i, ele * dstOffset);
      srcAddr := srcAddr + ele;
      i := i + 1;
    }
    if srcLen > 0 {
      CopyHere(before, data[..], ele, dst, src, payload, i, dstAddr, srcAddr, dstOffset);
      Memcpy(data, dstAddr, payload[srcAddr..srcAddr + ele]);
    }
    CopyAll(before, data[..], ele, dst, src, payload);
  }

  lemma {:induction false} UnlinZero(dims: seq<nat>)
    requires Product(dims) > 0
    ensures Unlin(0, dims) == seq(|dims|, _ => 0)
  {
    if dims != [] {
      ProductPositive(dims, 0);
      UnlinZero(dims[1..]);
    }
  }

  lemma CopyHere(before: seq<Byte>, now: seq<Byte>, ele: nat, dst: Box, src: Box, payload: seq<Byte>, i: nat,
                 dstAddr: int, srcAddr: int, corner: nat)
    requires Copied(before, now, ele, dst, src, payload, i)
    requires Inside(src, dst) && i < src.Cells() && corner == Lin(Sub(src.start, dst.start), dst.count)
    requires dstAddr == ele * corner + ele * Lin(Unlin(i, src.count), dst.count) && srcAddr == i * ele
    ensures 0 <= dstAddr && dstAddr + ele <= |now|
    ensures 0 <= srcAddr && srcAddr + ele <= |payload| && srcAddr + ele == (i + 1) * ele
    ensures Copied(before, Splice(now, dstAddr, payload[srcAddr..srcAddr + ele]), ele, dst, src, payload, i + 1)
  {
    PlaceOfSource(dst, src, i);
    Distribute2(ele, corner, Lin(Unlin(i, src.count), dst.count));
    CellBounds(i, ele);
    CopyCell(before, now, ele, dst, src, payload, i, Offset(dst, Global(src, i)));
  }

  lemma Distribute2(a: int, b: int, c: int)
    ensures (b + c) * a == a * b + a * c
  {
  }

  // Position of the source box's first cell inside the destination.
  method CornerOffset(dst: Box, src: Box) returns (offset: nat)
    requires Inside(src, dst)
    ensures offset == Lin(Sub(src.start, dst.start), dst.count)
  {
    var i := |src.count|;
    var subSize := 1;
    offset := 0;
    ghost var shift := Sub(src.start, dst.start);
    while i > 0
      invariant 0 <= i <= |shift|
      invariant subSize == Product(dst.count[i..])
      invariant offset == Lin(shift[i..], dst.count[i..])
    {
      i := i - 1;
      LinSuffix(shift, dst.count, i);
      ProductSuffix(dst.count, i);
      offset := offset + (src.start[i] - dst.start[i]) * subSize;
      subSize := subSize * dst.count[i];
    }
    assert shift[0..] == shift && dst.count[0..] == dst.count;
  }
}
