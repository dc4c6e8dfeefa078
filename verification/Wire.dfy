/** The wire format: how the client packs each call field by field, and how the
    server unpacks it. */
module Wire {
  import opened Bytes
  import opened Boxes

  const FUNC_NC_CREATE := 1
  const FUNC_NC_ENDDEF := 2
  const FUNC_NC_CLOSE := 3
  const FUNC_NC_DEF_DIM := 11
  const FUNC_NC_DEF_VAR := 12
  const FUNC_PUT_ATT := 13
  const FUNC_NC_PUT_VARA := 20

  const CFIO_BYTE := 1
  const CFIO_CHAR := 2
  const CFIO_SHORT := 3
  const CFIO_INT := 4
  const CFIO_FLOAT := 5
  const CFIO_DOUBLE := 6

  predicate KnownType(t: int) { CFIO_BYTE <= t <= CFIO_DOUBLE }

  function TypeSize(t: int): (n: nat)
    requires KnownType(t)
    ensures n > 0
  {
    if t == CFIO_BYTE || t == CFIO_CHAR then 1
    else if t == CFIO_SHORT then 2
    else if t == CFIO_INT || t == CFIO_FLOAT then 4
    else 8
  }

  // One forwarded call. Names are C strings without their terminator; payloads
  // are raw bytes, TypeSize per element.
  datatype Call =
    | Create(path: seq<Byte>, cmode: Int32, ncid: Int32)
    | DefDim(ncid: Int32, name: seq<Byte>, len: SizeT, dimid: Int32)
    | DefVar(ncid: Int32, name: seq<Byte>, xtype: Int32, dimids: seq<Int32>, varid: Int32)
    | PutAtt(ncid: Int32, varid: Int32, name: seq<Byte>, xtype: Int32, data: seq<Byte>)
    | EndDef(ncid: Int32)
    | PutVara(ncid: Int32, varid: Int32, start: seq<SizeT>, count: seq<SizeT>, fpType: Int32, data: seq<Byte>)
    | Close(ncid: Int32)

  predicate CString(s: seq<Byte>) { 0 !in s && |s| + 1 < 0x8000_0000 }

  // Elements of a typed array fill it exactly and are counted by an int.
  predicate Elements(data: seq<Byte>, t: int) {
    KnownType(t) && |data| % TypeSize(t) == 0 && |data| / TypeSize(t) < 0x8000_0000
  }

  // What the client API hands to the packers.
  predicate Packable(c: Call) {
    match c
    case Create(path, _, _) => CString(path)
    case DefDim(_, name, _, _) => CString(name)
    case DefVar(_, name, _, dimids, _) => CString(name) && |dimids| < 0x8000_0000
    case PutAtt(_, _, name, xtype, data) => CString(name) && Elements(data, xtype)
    case EndDef(_) => true
    case PutVara(_, _, start, count, fpType, data) =>
      && |start| == |count| < 0x8000_0000
      && Elements(data, fpType) && |data| / TypeSize(fpType) == Product(count)
    case Close(_) => true
  }

  // ---------- packing ----------

  function EncInts(s: seq<Int32>): (b: seq<Byte>)
    ensures |b| == 4 * |s|
  {
    if s == [] then [] else EncInt(s[0]) + EncInts(s[1..])
  }

  function EncSizes(s: seq<SizeT>): (b: seq<Byte>)
    ensures |b| == 8 * |s|
  {
    if s == [] then [] else EncSize(s[0]) + EncSizes(s[1..])
  }

  function Code(c: Call): Int32 {
    match c
    case Create(_, _, _) => FUNC_NC_CREATE
    case DefDim(_, _, _, _) => FUNC_NC_DEF_DIM
    case DefVar(_, _, _, _, _) => FUNC_NC_DEF_VAR
    case PutAtt(_, _, _, _, _) => FUNC_PUT_ATT
    case EndDef(_) => FUNC_NC_ENDDEF
    case PutVara(_, _, _, _, _, _) => FUNC_NC_PUT_VARA
    case Close(_) => FUNC_NC_CLOSE
  }

  // The number of elements, as the packers pass it on.
  function Count(data: seq<Byte>, t: int): (n: Int32)
    requires Elements(data, t)
    ensures n >= 0
  {
    |data| / TypeSize(t)
  }

  // The fields after the size and the function code, in packing order. A string
  // and an array are two fields: the length, then the contents.
  function BodyFields(c: Call): seq<seq<Byte>>
    requires Packable(c)
  {
    match c
    case Create(path, cmode, ncid) => [EncInt(|path| + 1), path + [0], EncInt(cmode), EncInt(ncid)]
    case DefDim(ncid, name, len, dimid) => [EncInt(ncid), EncInt(|name| + 1), name + [0], EncSize(len), EncInt(dimid)]
    case DefVar(ncid, name, xtype, dimids, varid) =>
      if |dimids| != 0 then
        [EncInt(ncid), EncInt(|name| + 1), name + [0], EncInt(xtype), EncInt(|dimids|), EncInt(|dimids|), EncInts(dimids), EncInt(varid)]
      else
        [EncInt(ncid), EncInt(|name| + 1), name + [0], EncInt(xtype), EncInt(|dimids|), EncInt(varid)]
    case PutAtt(ncid, varid, name, xtype, data) =>
      [EncInt(ncid), EncInt(varid), EncInt(|name| + 1), name + [0], EncInt(xtype), EncInt(Count(data, xtype)), data]
    case EndDef(ncid) => [EncInt(ncid)]
    case PutVara(ncid, varid, start, count, fpType, data) =>
      [EncInt(ncid), EncInt(varid), EncInt(|start|), EncSizes(start), EncInt(|count|), EncSizes(count), EncInt(fpType),
       EncInt(Count(data, fpType)), data]
    case Close(ncid) => [EncInt(ncid)]
  }

  // The size field, as each packer adds it up before packing.
  function SizeOf(c: Call): nat
    requires Packable(c)
  {
    8 + 4 + match c
    case Create(path, _, _) => (|path| + 1 + 4) + 4 + 4
    case DefDim(_, name, _, _) => 4 + (|name| + 1 + 4) + 8 + 4
    case DefVar(_, name, _, dimids, _) =>
      4 + (|name| + 1 + 4) + 4 + 4 + (if |dimids| != 0 then |dimids| * 4 + 4 else 0) + 4
    case PutAtt(_, _, name, xtype, data) => 4 + 4 + (|name| + 1 + 4) + 4 + (|data| / TypeSize(xtype) * TypeSize(xtype) + 4)
    case EndDef(_) => 4
    case PutVara(_, _, start, count, fpType, _) =>
      4 + 4 + (|start| * 8 + 4) + (|count| * 8 + 4) + 4 + (Product(count) * TypeSize(fpType) + 4)
    case Close(_) => 4
  }

  // Sendable: the size fits the size_t header.
  predicate Sendable(c: Call) { Packable(c) && SizeOf(c) < 0x1_0000_0000_0000_0000 }

  function Fields(c: Call): seq<seq<Byte>>
    requires Sendable(c)
  {
    [EncSize(SizeOf(c)), EncInt(Code(c))] + BodyFields(c)
  }

  function Message(c: Call): seq<Byte>
    requires Sendable(c)
  {
    Flat(Fields(c))
  }

  // ---------- unpacking ----------

  function Take(b: seq<Byte>, n: nat): (r: Option<(seq<Byte>, seq<Byte>)>)
    ensures r.Some? ==> |r.value.0| == n && b == r.value.0 + r.value.1
  {
    if n <= |b| then Some((b[..n], b[n..])) else None
  }

  function TakeInt(b: seq<Byte>): Option<(Int32, seq<Byte>)> {
    var (f, r) :- Take(b, 4);
    Some((DecInt(f), r))
  }

  function TakeSize(b: seq<Byte>): Option<(SizeT, seq<Byte>)> {
    var (f, r) :- Take(b, 8);
    Some((DecSize(f), r))
  }

  // An int length followed by that many elements of `size` bytes.
  function TakeArray(b: seq<Byte>, size: nat): Option<(seq<Byte>, seq<Byte>)> {
    var (len, r) :- TakeInt(b);
    if len < 0 then None else Take(r, len * size)
  }

  function UpToNul(b: seq<Byte>): (s: seq<Byte>) {
    if b == [] || b[0] == 0 then [] else [b[0]] + UpToNul(b[1..])
  }

  function TakeStr(b: seq<Byte>): Option<(seq<Byte>, seq<Byte>)> {
    var (f, r) :- TakeArray(b, 1);
    Some((UpToNul(f), r))
  }

  function DecInts(b: seq<Byte>): seq<Int32>
    requires |b| % 4 == 0
  {
    if b == [] then [] else [DecInt(b[..4])] + DecInts(b[4..])
  }

  function DecSizes(b: seq<Byte>): seq<SizeT>
    requires |b| % 8 == 0
  {
    if b == [] then [] else [DecSize(b[..8])] + DecSizes(b[8..])
  }

  function TakeInts(b: seq<Byte>): Option<(seq<Int32>, seq<Byte>)> {
    var (f, r) :- TakeArray(b, 4);
    if |f| % 4 == 0 then Some((DecInts(f), r)) else None
  }

  function TakeSizes(b: seq<Byte>): Option<(seq<SizeT>, seq<Byte>)> {
    var (f, r) :- TakeArray(b, 8);
    if |f| % 8 == 0 then Some((DecSizes(f), r)) else None
  }

  // A type code and an array of elements of that type.
  function TakeTyped(b: seq<Byte>): Option<((Int32, seq<Byte>), seq<Byte>)> {
    var (t, b) :- TakeInt(b);
    if !KnownType(t) then None else
    var (data, b) :- TakeArray(b, TypeSize(t));
    Some(((t, data), b))
  }

  function UnpackCreate(b: seq<Byte>): Option<(Call, seq<Byte>)> {
    var (path, b) :- TakeStr(b);
    var (cmode, b) :- TakeInt(b);
    var (ncid, b) :- TakeInt(b);
    Some((Create(path, cmode, ncid), b))
  }

  function UnpackDefDim(b: seq<Byte>): Option<(Call, seq<Byte>)> {
    var (ncid, b) :- TakeInt(b);
    var (name, b) :- TakeStr(b);
    var (len, b) :- TakeSize(b);
    var (dimid, b) :- TakeInt(b);
    Some((DefDim(ncid, name, len, dimid), b))
  }

  function UnpackDefVar(b: seq<Byte>): Option<(Call, seq<Byte>)> {
    var (ncid, b) :- TakeInt(b);
    var (name, b) :- TakeStr(b);
    var (xtype, b) :- TakeInt(b);
    var (ndims, b) :- TakeInt(b);
    var (dimids, b) :- if ndims != 0 then TakeInts(b) else Some(([], b));
    var (varid, b) :- TakeInt(b);
    Some((DefVar(ncid, name, xtype, dimids, varid), b))
  }

  function UnpackPutAtt(b: seq<Byte>): Option<(Call, seq<Byte>)> {
    var (ncid, b) :- TakeInt(b);
    var (varid, b) :- TakeInt(b);
    var (name, b) :- TakeStr(b);
    var (t, b) :- TakeTyped(b);
    Some((PutAtt(ncid, varid, name, t.0, t.1), b))
  }

  function UnpackEndDef(b: seq<Byte>): Option<(Call, seq<Byte>)> {
    var (ncid, b) :- TakeInt(b);
    Some((EndDef(ncid), b))
  }

  function UnpackPutVara(b: seq<Byte>): Option<(Call, seq<Byte>)> {
    var (ncid, b) :- TakeInt(b);
    var (varid, b) :- TakeInt(b);
    var (start, b) :- TakeSizes(b);
    var (count, b) :- TakeSizes(b);
    var (t, b) :- TakeTyped(b);
    Some((PutVara(ncid, varid, start, count, t.0, t.1), b))
  }

  function UnpackClose(b: seq<Byte>): Option<(Call, seq<Byte>)> {
    var (ncid, b) :- TakeInt(b);
    Some((Close(ncid), b))
  }

  // The dispatch on the function code.
  function UnpackBody(code: Int32, b: seq<Byte>): Option<(Call, seq<Byte>)> {
    if code == FUNC_NC_CREATE then UnpackCreate(b)
    else if code == FUNC_NC_DEF_DIM then UnpackDefDim(b)
    else if code == FUNC_NC_DEF_VAR then UnpackDefVar(b)
    else if code == FUNC_PUT_ATT then UnpackPutAtt(b)
    else if code == FUNC_NC_ENDDEF then UnpackEndDef(b)
    else if code == FUNC_NC_PUT_VARA then UnpackPutVara(b)
    else if code == FUNC_NC_CLOSE then UnpackClose(b)
    else None
  }

  function Unpack(b: seq<Byte>): Option<(Call, seq<Byte>)> {
    var (size, b) :- TakeSize(b);
    var (code, b) :- TakeInt(b);
    UnpackBody(code, b)
  }

  // ---------- round trip ----------

  // What is left of fields f, followed by `rest`, once k fields are consumed.
  function Cur(f: seq<seq<Byte>>, k: nat, rest: seq<Byte>): seq<Byte>
    requires k <= |f|
  {
    Flat(f[k..]) + rest
  }

  lemma CurEnd(f: seq<seq<Byte>>, rest: seq<Byte>)
    ensures Cur(f, |f|, rest) == rest
  {
  }

  lemma FieldAt(f: seq<seq<Byte>>, k: nat, rest: seq<Byte>)
    requires k < |f|
    ensures Take(Cur(f, k, rest), |f[k]|) == Some((f[k], Cur(f, k + 1, rest)))
  {
    assert f[k..][1..] == f[k + 1..];
    assert Cur(f, k, rest) == f[k] + Cur(f, k + 1, rest);
  }

  lemma IntAt(f: seq<seq<Byte>>, k: nat, rest: seq<Byte>, v: Int32)
    requires k < |f| && f[k] == EncInt(v)
    ensures TakeInt(Cur(f, k, rest)) == Some((v, Cur(f, k + 1, rest)))
  {
    FieldAt(f, k, rest);
    IntRoundTrip(v);
  }

  lemma SizeAt(f: seq<seq<Byte>>, k: nat, rest: seq<Byte>, v: SizeT)
    requires k < |f| && f[k] == EncSize(v)
    ensures TakeSize(Cur(f, k, rest)) == Some((v, Cur(f, k + 1, rest)))
  {
    FieldAt(f, k, rest);
    SizeRoundTrip(v);
  }

  lemma ArrayAt(f: seq<seq<Byte>>, k: nat, rest: seq<Byte>, len: Int32, size: nat)
    requires k + 1 < |f| && len >= 0 && f[k] == EncInt(len) && |f[k + 1]| == len * size
    ensures TakeArray(Cur(f, k, rest), size) == Some((f[k + 1], Cur(f, k + 2, rest)))
  {
    IntAt(f, k, rest, len);
    FieldAt(f, k + 1, rest);
  }

  lemma {:induction false} UpToNulString(s: seq<Byte>)
    requires 0 !in s
    ensures UpToNul(s + [0]) == s
  {
    if s != [] {
      UpToNulString(s[1..]);
      assert (s + [0])[1..] == s[1..] + [0];
    }
  }

  lemma StrAt(f: seq<seq<Byte>>, k: nat, rest: seq<Byte>, s: seq<Byte>)
    requires CString(s) && k + 1 < |f| && f[k] == EncInt(|s| + 1) && f[k + 1] == s + [0]
    ensures TakeStr(Cur(f, k, rest)) == Some((s, Cur(f, k + 2, rest)))
  {
    ArrayAt(f, k, rest, |s| + 1, 1);
    UpToNulString(s);
  }

  lemma {:induction false} IntsRoundTrip(s: seq<Int32>)
    ensures DecInts(EncInts(s)) == s
  {
    if s != [] {
      IntRoundTrip(s[0]);
      IntsRoundTrip(s[1..]);
      assert EncInts(s)[..4] == EncInt(s[0]) && EncInts(s)[4..] == EncInts(s[1..]);
    }
  }

  lemma {:induction false} SizesRoundTrip(s: seq<SizeT>)
    ensures DecSizes(EncSizes(s)) == s
  {
    if s != [] {
      SizeRoundTrip(s[0]);
      SizesRoundTrip(s[1..]);
      assert EncSizes(s)[..8] == EncSize(s[0]) && EncSizes(s)[8..] == EncSizes(s[1..]);
    }
  }

  lemma SizesOf(b: seq<Byte>, s: seq<SizeT>, r: seq<Byte>)
    requires TakeArray(b, 8) == Some((EncSizes(s), r))
    ensures TakeSizes(b) == Some((s, r))
  {
    SizesRoundTrip(s);
  }

  lemma IntsOf(b: seq<Byte>, s: seq<Int32>, r: seq<Byte>)
    requires TakeArray(b, 4) == Some((EncInts(s), r))
    ensures TakeInts(b) == Some((s, r))
  {
    IntsRoundTrip(s);
  }

  lemma SizesAt(f: seq<seq<Byte>>, k: nat, rest: seq<Byte>, s: seq<SizeT>)
    requires |s| < 0x8000_0000 && k + 1 < |f| && f[k] == EncInt(|s|) && f[k + 1] == EncSizes(s)
    ensures TakeSizes(Cur(f, k, rest)) == Some((s, Cur(f, k + 2, rest)))
  {
    ArrayAt(f, k, rest, |s|, 8);
    SizesOf(Cur(f, k, rest), s, Cur(f, k + 2, rest));
  }

  lemma IntsAt(f: seq<seq<Byte>>, k: nat, rest: seq<Byte>, s: seq<Int32>)
    requires |s| < 0x8000_0000 && k + 1 < |f| && f[k] == EncInt(|s|) && f[k + 1] == EncInts(s)
    ensures TakeInts(Cur(f, k, rest)) == Some((s, Cur(f, k + 2, rest)))
  {
    ArrayAt(f, k, rest, |s|, 4);
    IntsOf(Cur(f, k, rest), s, Cur(f, k + 2, rest));
  }

  lemma ElementBytes(data: seq<Byte>, t: int)
    requires Elements(data, t)
    ensures |data| / TypeSize(t) * TypeSize(t) == |data|
  {
  }

  lemma TypedAt(f: seq<seq<Byte>>, k: nat, rest: seq<Byte>, t: Int32, data: seq<Byte>)
    requires Elements(data, t) && k + 2 < |f|
    requires f[k] == EncInt(t) && f[k + 1] == EncInt(Count(data, t)) && f[k + 2] == data
    ensures TakeTyped(Cur(f, k, rest)) == Some(((t, data), Cur(f, k + 3, rest)))
  {
    IntAt(f, k, rest, t);
    ElementBytes(data, t);
    ArrayAt(f, k + 1, rest, Count(data, t), TypeSize(t));
  }

  lemma DefVarBody(c: Call, rest: seq<Byte>)
    requires Packable(c) && c.DefVar?
    ensures UnpackDefVar(Cur(BodyFields(c), 0, rest)) == Some((c, rest))
  {
    hide Cur, TakeInt, TakeInts, TakeStr, EncInt, EncInts;
    var f := BodyFields(c);
    CurEnd(f, rest);
    IntAt(f, 0, rest, c.ncid);
    StrAt(f, 1, rest, c.name);
    IntAt(f, 3, rest, c.xtype);
    IntAt(f, 4, rest, |c.dimids|);
    if c.dimids == [] {
      IntAt(f, 5, rest, c.varid);
    } else {
      IntsAt(f, 5, rest, c.dimids);
      IntAt(f, 7, rest, c.varid);
    }
  }

  lemma PutVaraBody(c: Call, rest: seq<Byte>)
    requires Packable(c) && c.PutVara?
    ensures UnpackPutVara(Cur(BodyFields(c), 0, rest)) == Some((c, rest))
  {
    hide Cur, TakeInt, TakeSizes, TakeTyped, EncInt, EncSizes;
    var f := BodyFields(c);
    CurEnd(f, rest);
    IntAt(f, 0, rest, c.ncid);
    IntAt(f, 1, rest, c.varid);
    SizesAt(f, 2, rest, c.start);
    SizesAt(f, 4, rest, c.count);
    TypedAt(f, 6, rest, c.fpType, c.data);
  }

  lemma PutAttBody(c: Call, rest: seq<Byte>)
    requires Packable(c) && c.PutAtt?
    ensures UnpackPutAtt(Cur(BodyFields(c), 0, rest)) == Some((c, rest))
  {
    hide Cur, TakeInt, TakeStr, TakeTyped, EncInt;
    var f := BodyFields(c);
    CurEnd(f, rest);
    IntAt(f, 0, rest, c.ncid);
    IntAt(f, 1, rest, c.varid);
    StrAt(f, 2, rest, c.name);
    TypedAt(f, 4, rest, c.xtype, c.data);
  }

  lemma CreateBody(c: Call, rest: seq<Byte>)
    requires Packable(c) && c.Create?
    ensures UnpackCreate(Cur(BodyFields(c), 0, rest)) == Some((c, rest))
  {
    var f := BodyFields(c);
    StrAt(f, 0, rest, c.path);
    IntAt(f, 2, rest, c.cmode);
    IntAt(f, 3, rest, c.ncid);
  }

  lemma DefDimBody(c: Call, rest: seq<Byte>)
    requires Packable(c) && c.DefDim?
    ensures UnpackDefDim(Cur(BodyFields(c), 0, rest)) == Some((c, rest))
  {
    var f := BodyFields(c);
    IntAt(f, 0, rest, c.ncid);
    StrAt(f, 1, rest, c.name);
    SizeAt(f, 3, rest, c.len);
    IntAt(f, 4, rest, c.dimid);
  }

  lemma OneIntBody(c: Call, rest: seq<Byte>)
    requires Packable(c) && (c.EndDef? || c.Close?)
    ensures TakeInt(Cur(BodyFields(c), 0, rest)) == Some((c.ncid, rest))
  {
    IntAt(BodyFields(c), 0, rest, c.ncid);
  }

  lemma Dispatch(c: Call, b: seq<Byte>)
    ensures UnpackBody(Code(c), b) ==
      match c
      case Create(_, _, _) => UnpackCreate(b)
      case DefDim(_, _, _, _) => UnpackDefDim(b)
      case DefVar(_, _, _, _, _) => UnpackDefVar(b)
      case PutAtt(_, _, _, _, _) => UnpackPutAtt(b)
      case EndDef(_) => UnpackEndDef(b)
      case PutVara(_, _, _, _, _, _) => UnpackPutVara(b)
      case Close(_) => UnpackClose(b)
  {
  }

  /** Unpacking what the client packed returns the call and leaves what follows. */
  lemma BodyRoundTrip(c: Call, rest: seq<Byte>)
    requires Packable(c)
    ensures UnpackBody(Code(c), Cur(BodyFields(c), 0, rest)) == Some((c, rest))
  {
    Dispatch(c, Cur(BodyFields(c), 0, rest));
    if c.Create? { CreateBody(c, rest); }
    else if c.DefDim? { DefDimBody(c, rest); }
    else if c.DefVar? { DefVarBody(c, rest); }
    else if c.PutAtt? { PutAttBody(c, rest); }
    else if c.PutVara? { PutVaraBody(c, rest); }
    else { OneIntBody(c, rest); }
  }

  lemma MessageRoundTrip(c: Call, rest: seq<Byte>)
    requires Sendable(c)
    ensures Unpack(Message(c) + rest) == Some((c, rest))
  {
    var f := Fields(c);
    assert Message(c) + rest == Cur(f, 0, rest) by { assert f[0..] == f; }
    SizeAt(f, 0, rest, SizeOf(c));
    IntAt(f, 1, rest, Code(c));
    assert f[2..] == BodyFields(c) == BodyFields(c)[0..];
    BodyRoundTrip(c, rest);
  }

  // ---------- sizes ----------

  function LengthFrom(f: seq<seq<Byte>>, k: nat): nat
    requires k <= |f|
    decreases |f| - k
  {
    if k == |f| then 0 else |f[k]| + LengthFrom(f, k + 1)
  }

  lemma {:induction false} FlatLength(f: seq<seq<Byte>>, k: nat)
    requires k <= |f|
    ensures |Flat(f[k..])| == LengthFrom(f, k)
    decreases |f| - k
  {
    if k < |f| {
      FlatLength(f, k + 1);
      assert f[k..][1..] == f[k + 1..];
    }
  }

  lemma PutVaraLength(c: Call)
    requires Packable(c) && c.PutVara?
    ensures LengthFrom(BodyFields(c), 0) == 24 + 8 * |c.start| + 8 * |c.count| + |c.data|
  {
    var f := BodyFields(c);
    assert LengthFrom(f, 8) == |c.data|;
    assert LengthFrom(f, 6) == 8 + |c.data|;
    assert LengthFrom(f, 4) == 8 * |c.count| + 12 + |c.data|;
    assert LengthFrom(f, 2) == 8 * |c.start| + 8 * |c.count| + 16 + |c.data|;
  }

  lemma PutAttLength(c: Call)
    requires Packable(c) && c.PutAtt?
    ensures LengthFrom(BodyFields(c), 0) == 21 + |c.name| + |c.data|
  {
    var f := BodyFields(c);
    assert LengthFrom(f, 6) == |c.data|;
    assert LengthFrom(f, 4) == 8 + |c.data|;
    assert LengthFrom(f, 2) == |c.name| + 13 + |c.data|;
  }

  // The size every packer computes.
  lemma BodyLength(c: Call)
    requires Packable(c)
    ensures LengthFrom(BodyFields(c), 0) + 12 == SizeOf(c)
  {
    var f := BodyFields(c);
    match c
    case Create(_, _, _) =>
      assert LengthFrom(f, 3) == 4;
      assert LengthFrom(f, 2) == 8;
      assert LengthFrom(f, 1) == |f[1]| + 8;
    case DefDim(_, _, _, _) =>
      assert LengthFrom(f, 4) == 4;
      assert LengthFrom(f, 2) == |f[2]| + 12;
    case DefVar(_, _, _, dimids, _) =>
      if |dimids| != 0 {
        assert LengthFrom(f, 7) == 4;
        assert LengthFrom(f, 6) == 4 * |dimids| + 4;
        assert LengthFrom(f, 4) == 4 * |dimids| + 12;
      } else {
        assert LengthFrom(f, 6) == 0;
        assert LengthFrom(f, 5) == 4;
        assert LengthFrom(f, 4) == 8;
      }
      assert LengthFrom(f, 2) == |f[2]| + 4 + LengthFrom(f, 4);
    case PutAtt(_, _, _, xtype, data) =>
      PutAttLength(c);
      ElementBytes(data, xtype);
    case EndDef(_) =>
    case PutVara(_, _, _, _, fpType, data) =>
      PutVaraLength(c);
      ElementBytes(data, fpType);
    case Close(_) =>
  }

  /** The size field is the number of bytes packed. */
  lemma MessageLength(c: Call)
    requires Sendable(c)
    ensures |Message(c)| == SizeOf(c) >= 16
    ensures DecSize(Message(c)[..8]) == |Message(c)|
  {
    var f := Fields(c);
    FlatLength(f, 0);
    FlatLength(f, 2);
    FlatLength(BodyFields(c), 0);
    assert f[0..] == f && f[2..] == BodyFields(c) == BodyFields(c)[0..];
    BodyLength(c);
    assert LengthFrom(f, 0) == 8 + (4 + LengthFrom(f, 2));
    assert Message(c)[..8] == f[0];
    SizeRoundTrip(SizeOf(c));
  }

  function Messages(cs: seq<Call>): (ms: seq<seq<Byte>>)
    requires forall i :: 0 <= i < |cs| ==> Sendable(cs[i])
    ensures |ms| == |cs| && forall i :: 0 <= i < |cs| ==> ms[i] == Message(cs[i])
  {
    seq(|cs|, i requires 0 <= i < |cs| => Message(cs[i]))
  }

  /** A byte stream splits into packed calls in one way only. */
  lemma {:induction false} SplitUnique(cs: seq<Call>, ds: seq<Call>)
    requires forall i :: 0 <= i < |cs| ==> Sendable(cs[i])
    requires forall i :: 0 <= i < |ds| ==> Sendable(ds[i])
    requires Flat(Messages(cs)) == Flat(Messages(ds))
    ensures cs == ds
  {
    hide Message, Unpack, Sendable, DecSize;
    if cs != [] { MessageLength(cs[0]); }
    if ds != [] { MessageLength(ds[0]); }
    if cs != [] && ds != [] {
      assert Messages(cs)[1..] == Messages(cs[1..]);
      assert Messages(ds)[1..] == Messages(ds[1..]);
      MessageRoundTrip(cs[0], Flat(Messages(cs[1..])));
      MessageRoundTrip(ds[0], Flat(Messages(ds[1..])));
      assert cs[0] == ds[0];
      assert Flat(Messages(cs))[|Message(cs[0])|..] == Flat(Messages(cs[1..]));
      assert Flat(Messages(ds))[|Message(ds[0])|..] == Flat(Messages(ds[1..]));
      SplitUnique(cs[1..], ds[1..]);
    }
  }
}
