/** Lockstep rounds: all clients of a server issue the same call, and the server
    performs it exactly once, when the last of them has contributed. */
module Rounds {
  import opened Bytes
  import opened Boxes
  import opened Merge
  import opened Wire
  import opened Collective
  import Bitmaps

  // The request a collective call belongs to.
  function KeyOf(c: Call): Key
    requires c.PutAtt? || c.EndDef? || c.Close? || c.PutVara?
  {
    Key(Code(c), c.ncid, if c.PutAtt? || c.PutVara? then c.varid else 0)
  }

  // ---------- sizes are kept ----------

  lemma HandleDefsSlots(g: Defining, nc: int, k: nat, n: nat)
    requires k <= |g.defs|
    requires forall i :: 0 <= i < |g.defs| ==> g.defs[i].Var? ==> |g.defs[i].slots| == n
    ensures forall i :: 0 <= i < |g.defs| ==> HandleDefs(g, nc, k).defs[i].Var? ==> |HandleDefs(g, nc, k).defs[i].slots| == n
  {
  }

  lemma FireSized(io: Io, n: nat, c: Call)
    requires Sized(io, n) && c.ncid in io.files
    ensures c.PutAtt? ==> Sized(FirePutAtt(io, c), n)
    ensures c.EndDef? ==> Sized(FireEndDef(io, c), n)
    ensures c.Close? ==> Sized(FireClose(io, c), n)
  {
    if c.EndDef? && !io.files[c.ncid].dataMode {
      var f := io.files[c.ncid];
      HandleDefsSlots(Defining(f.defs, io.events, io.nextId), f.serverId, |f.defs|, n);
      hide HandleDefs;
    }
  }

  lemma PutVaraSized(io: Io, n: nat, slot: nat, c: Call)
    requires Sized(io, n) && slot < n && c.PutVara?
    ensures Sized(Handle(io, n, slot, c), n)
  {
    hide FindVar, WriteEvents, Ready, Bitmaps.Add, Bitmaps.Full, FirePutVara;
    var key := Key(FUNC_NC_PUT_VARA, c.ncid, c.varid);
    var a := Arrive(io, n, key, slot);
    assert Sized(a, n);
    if c.ncid in io.files && HasVar(io.files[c.ncid].defs, c.varid) {
      var v := FindVar(io.files[c.ncid].defs, c.varid);
      assert Sized(StoreSlot(a, c, v, slot), n);
      FirePutVaraSized(StoreSlot(a, c, v, slot), n, c, v);
    }
    hide Sized;
  }

  lemma FirePutVaraSized(io: Io, n: nat, c: Call, v: nat)
    requires Sized(io, n) && c.PutVara? && c.ncid in io.files && v < |io.files[c.ncid].defs| && io.files[c.ncid].defs[v].Var?
    ensures Sized(FirePutVara(io, c, v), n)
  {
    hide WriteEvents, Ready;
  }

  lemma HandleSized(io: Io, n: nat, slot: nat, c: Call)
    requires Sized(io, n) && slot < n
    ensures Sized(Handle(io, n, slot, c), n)
  {
    hide FirePutAtt, FireEndDef, FireClose, FirePutVara, FindVar, FindDim;
    if c.PutVara? {
      PutVaraSized(io, n, slot, c);
    } else if c.PutAtt? || c.EndDef? || c.Close? {
      var a := Arrive(io, n, KeyOf(c), slot);
      assert Sized(a, n);
      if c.ncid in io.files { FireSized(a, n, c); }
    }
  }

  // ---------- a round ----------

  // The state after the messages of slots 0..i-1.
  ghost function Round(io: Io, n: nat, calls: seq<Call>, i: nat): (io': Io)
    requires Sized(io, n) && |calls| == n && i <= n
    ensures Sized(io', n)
  {
    hide Handle, Sized;
    if i == 0 then io
    else
      var before := Round(io, n, calls, i - 1);
      HandleSized(before, n, i - 1, calls[i - 1]);
      Handle(before, n, i - 1, calls[i - 1])
  }

  // The same call, up to the block each client writes.
  ghost predicate SameShape(c: Call, d: Call) {
    if c.PutVara? then d.PutVara? && c.ncid == d.ncid && c.varid == d.varid && c.fpType == d.fpType && |c.start| == |d.start|
    else c == d
  }

  // The files and variables the call names exist, and a write fits its variable:
  // its rank, and the size of its elements.
  ghost predicate Applicable(io: Io, c: Call) {
    match c
    case PutAtt(ncid, varid, _, _, _) => ncid in io.files && (varid == NC_GLOBAL || HasVar(io.files[ncid].defs, varid))
    case EndDef(ncid) => ncid in io.files
    case Close(ncid) => ncid in io.files
    case PutVara(ncid, varid, start, _, fpType, _) =>
      && ncid in io.files && io.files[ncid].serverId != INVALID && HasVar(io.files[ncid].defs, varid)
      && var d := io.files[ncid].defs[FindVar(io.files[ncid].defs, varid)];
         d.serverId != INVALID && |start| == |d.dimIds| && KnownType(d.xtype)
         && KnownType(fpType) && TypeSize(fpType) == TypeSize(d.xtype)
    case _ => true
  }

  // All clients issue the same call.
  ghost predicate Matching(n: nat, calls: seq<Call>) {
    |calls| == n && n > 0 && forall i :: 0 <= i < n ==> Packable(calls[i]) && SameShape(calls[0], calls[i])
  }

  // The call makes the server look up dimension or variable id 0 of a file it knows.
  ghost predicate NamesOwn(io: Io, c: Call) {
    && (c.DefDim? || c.DefVar? || c.PutAtt? || c.PutVara?) && c.ncid in io.files
    && match c
       case DefDim(_, _, _, dimid) => dimid == OWN
       case DefVar(ncid, _, _, dimids, varid) =>
         HitsOwn(io.files[ncid].defs, dimids) || (HasDims(io.files[ncid].defs, dimids) && varid == OWN)
       case PutAtt(_, varid, _, _, _) => varid == OWN
       case PutVara(_, varid, _, _, _, _) => varid == OWN
       case _ => false
  }

  ghost predicate RoundOk(io: Io, n: nat, calls: seq<Call>) {
    Matching(n, calls) && Applicable(io, calls[0]) && !NamesOwn(io, calls[0])
  }

  // No request pending, no slot filled, and the process is alive.
  ghost predicate Quiet(io: Io, n: nat) {
    && io.table == map[] && !io.failed
    && forall id :: id in io.files ==> forall i :: 0 <= i < |io.files[id].defs| ==>
         io.files[id].defs[i].Var? ==> io.files[id].defs[i].slots == EmptySlots(n)
  }

  ghost function SlotsOf(calls: seq<Call>): (s: seq<Slot>)
    requires forall i :: 0 <= i < |calls| ==> calls[i].PutVara?
  {
    seq(|calls|, i requires 0 <= i < |calls| => Full(Box(calls[i].start, calls[i].count), calls[i].data))
  }

  // ---------- bitmaps over a round ----------

  function Bits(n: nat, i: nat): (b: Bitmaps.Bitmap)
    requires i <= n
    ensures |b| == n / 8 + 1
  {
    if i == 0 then Bitmaps.Empty(n) else Bitmaps.Add(Bits(n, i - 1), i - 1)
  }

  lemma {:induction false} BitsHas(n: nat, i: nat, t: nat)
    requires i <= n
    ensures Bitmaps.Has(Bits(n, i), t) <==> t < i
  {
    if i == 0 {
      Bitmaps.EmptyHas(n, t);
    } else {
      BitsHas(n, i - 1, t);
      Bitmaps.AddHas(Bits(n, i - 1), i - 1, t);
    }
  }

  lemma BitsFull(n: nat, i: nat)
    requires i <= n
    ensures Bitmaps.Full(Bits(n, i), n) <==> i == n
  {
    Bitmaps.FullIff(Bits(n, i), n);
    forall t: nat ensures Bitmaps.Has(Bits(n, i), t) <==> t < i {
      BitsHas(n, i, t);
    }
    assert Bitmaps.Has(Bits(n, i), i) <==> i < i;
  }

  // ---------- each kind of round ----------

  lemma FindAppended(defs: seq<Def>, d: Def)
    ensures d.Dim? ==> HasDim(defs + [d], d.id)
    ensures d.Var? ==> HasVar(defs + [d], d.id)
  {
    assert (defs + [d])[|defs|] == d;
  }

  // Definitions and creation act on the first message; the rest change nothing.
  lemma {:induction false} FirstOnly(io: Io, n: nat, calls: seq<Call>, i: nat)
    requires Sized(io, n) && RoundOk(io, n, calls) && 1 <= i <= n
    requires calls[0].Create? || calls[0].DefDim? || calls[0].DefVar?
    ensures Round(io, n, calls, i) == Handle(io, n, 0, calls[0])
  {
    var c := calls[0];
    if i == 1 {
      assert Round(io, n, calls, 0) == io;
    } else {
      FirstOnly(io, n, calls, i - 1);
      assert SameShape(c, calls[i - 1]);
      if (c.DefDim? || c.DefVar?) && c.ncid in io.files {
        var defs := io.files[c.ncid].defs;
        if c.DefDim? { FindAppended(defs, Dim(c.dimid, c.name, c.len, INVALID)); }
        else { FindAppended(defs, Var(c.varid, c.name, c.xtype, c.dimids, INVALID, [], EmptySlots(n))); }
      }
    }
  }

  // The state while i clients have contributed to request `key`.
  function Pending(io: Io, key: Key, n: nat, i: nat): (p: Io)
    requires i <= n
    ensures i == 0 ==> p == io.(table := map[])
  {
    io.(table := if i == 0 then map[] else map[key := Bits(n, i)])
  }

  lemma ArriveNext(io: Io, key: Key, n: nat, i: nat)
    requires i < n
    ensures TableOk(Pending(io, key, n, i), n)
    ensures Arrive(Pending(io, key, n, i), n, key, i) == Pending(io, key, n, i + 1)
    ensures Bitmaps.Full(Pending(io, key, n, i + 1).table[key], n) <==> i + 1 == n
  {
    hide Bitmaps.Full, Bitmaps.Add, Bitmaps.Empty;
    BitsFull(n, i + 1);
  }

  // What the last message does, for the kinds without slots.
  function Fire(io: Io, c: Call): Io
    requires c.PutAtt? || c.EndDef? || c.Close?
    requires c.ncid in io.files
  {
    if c.PutAtt? then FirePutAtt(io, c) else if c.EndDef? then FireEndDef(io, c) else FireClose(io, c)
  }

  lemma CollectNext(io: Io, n: nat, c: Call, i: nat)
    requires i < n && (c.PutAtt? || c.EndDef? || c.Close?) && c.ncid in io.files && !io.failed
    requires Sized(Pending(io, KeyOf(c), n, i), n)
    ensures Handle(Pending(io, KeyOf(c), n, i), n, i, c) ==
      if i + 1 == n then Fire(Pending(io, KeyOf(c), n, n), c) else Pending(io, KeyOf(c), n, i + 1)
  {
    hide HandleDefs, Bits, FirePutAtt, FireEndDef, FireClose, FindVar, Bitmaps.Full, Bitmaps.Add;
    ArriveNext(io, KeyOf(c), n, i);
  }

  // Attributes, enddef and close only collect bits until the last message.
  lemma {:induction false} Collecting(io: Io, n: nat, calls: seq<Call>, i: nat)
    requires Sized(io, n) && Matching(n, calls) && io.table == map[] && !io.failed && i < n
    requires (calls[0].PutAtt? || calls[0].EndDef? || calls[0].Close?) && calls[0].ncid in io.files
    ensures Round(io, n, calls, i) == Pending(io, KeyOf(calls[0]), n, i)
  {
    hide Handle, Bits;
    if i > 0 {
      Collecting(io, n, calls, i - 1);
      assert SameShape(calls[0], calls[i - 1]);
      CollectNext(io, n, calls[0], i - 1);
    }
  }

  // ---------- a put_vara round ----------

  // The variable's slots once the first i clients have stored their data.
  ghost function Filled(n: nat, calls: seq<Call>, i: nat): (s: seq<Slot>)
    requires i <= n == |calls| && forall j :: 0 <= j < n ==> calls[j].PutVara?
    ensures |s| == n
  {
    SlotsOf(calls[..i]) + EmptySlots(n - i)
  }

  ghost function WithSlots(io: Io, ncid: Int32, v: nat, slots: seq<Slot>): Io
    requires ncid in io.files && v < |io.files[ncid].defs| && io.files[ncid].defs[v].Var?
  {
    SetDefs(io, ncid, io.files[ncid].defs[v := io.files[ncid].defs[v].(slots := slots)])
  }

  ghost predicate PutReady(io: Io, n: nat, calls: seq<Call>, v: nat) {
    && RoundOk(io, n, calls) && !io.failed && calls[0].PutVara? && v == FindVar(io.files[calls[0].ncid].defs, calls[0].varid)
    && (forall j :: 0 <= j < n ==> calls[j].PutVara?)
    && io.files[calls[0].ncid].defs[v].slots == EmptySlots(n)
  }

  lemma {:induction false} FindSame(defs: seq<Def>, defs': seq<Def>, id: int)
    requires |defs| == |defs'|
    requires forall j :: 0 <= j < |defs| ==> defs[j].Var? == defs'[j].Var? && defs[j].id == defs'[j].id
    ensures FindVar(defs', id) == FindVar(defs, id)
  {
    if defs != [] && !(defs[0].Var? && defs[0].id == id) {
      FindSame(defs[1..], defs'[1..], id);
    }
  }

  lemma SlotsOfReady(io: Io, n: nat, calls: seq<Call>, v: nat)
    requires PutReady(io, n, calls, v)
    ensures var d := io.files[calls[0].ncid].defs[v];
      KnownType(d.xtype) && Ready(SlotsOf(calls), |d.dimIds|, TypeSize(d.xtype))
  {
    var d, slots := io.files[calls[0].ncid].defs[v], SlotsOf(calls);
    forall i | 0 <= i < n
      ensures KnownType(d.xtype) && calls[i].PutVara? && |calls[i].start| == |calls[i].count| == |d.dimIds|
      ensures |calls[i].data| == Product(calls[i].count) * TypeSize(d.xtype)
    {
      assert SameShape(calls[0], calls[i]) && Packable(calls[i]);
      ElementBytes(calls[i].data, calls[i].fpType);
    }
    forall i | 0 <= i < n
      ensures BoxesOf(slots)[i].Valid() && |BoxesOf(slots)[i].start| == |d.dimIds|
      ensures |BufsOf(slots)[i]| == BoxesOf(slots)[i].Cells() * TypeSize(d.xtype)
    {
      assert slots[i] == Full(Box(calls[i].start, calls[i].count), calls[i].data);
    }
  }

  // The state after i of the n messages of a write.
  ghost function PutState(io: Io, n: nat, calls: seq<Call>, v: nat, i: nat): Io
    requires PutReady(io, n, calls, v) && i <= n
  {
    WithSlots(Pending(io, KeyOf(calls[0]), n, i), calls[0].ncid, v, Filled(n, calls, i))
  }

  lemma StoreNext(io: Io, n: nat, calls: seq<Call>, v: nat, i: nat)
    requires PutReady(io, n, calls, v) && i < n
    ensures Filled(n, calls, i)[i := Full(Box(calls[i].start, calls[i].count), calls[i].data)] == Filled(n, calls, i + 1)
  {
  }

  lemma SlotsTwice(io: Io, ncid: Int32, v: nat, s1: seq<Slot>, s2: seq<Slot>)
    requires ncid in io.files && v < |io.files[ncid].defs| && io.files[ncid].defs[v].Var?
    ensures WithSlots(WithSlots(io, ncid, v, s1), ncid, v, s2) == WithSlots(io, ncid, v, s2)
    ensures s2 == io.files[ncid].defs[v].slots ==> WithSlots(io, ncid, v, s2) == io
  {
    var f := io.files[ncid];
    var d1, d2 := f.defs[v].(slots := s1), f.defs[v].(slots := s2);
    assert f.defs[v := d1][v := d2] == f.defs[v := d2];
    assert WithSlots(WithSlots(io, ncid, v, s1), ncid, v, s2).files == WithSlots(io, ncid, v, s2).files;
    if s2 == f.defs[v].slots {
      assert f.defs[v := d2] == f.defs;
      assert io.files[ncid := f] == io.files;
    }
  }

  lemma ArriveWithSlots(io: Io, n: nat, key: Key, slot: nat, ncid: Int32, v: nat, s: seq<Slot>)
    requires ncid in io.files && v < |io.files[ncid].defs| && io.files[ncid].defs[v].Var?
    requires slot < n && TableOk(io, n)
    ensures TableOk(WithSlots(io, ncid, v, s), n)
    ensures Arrive(WithSlots(io, ncid, v, s), n, key, slot) == WithSlots(Arrive(io, n, key, slot), ncid, v, s)
  {
  }

  lemma PutNext(io: Io, n: nat, calls: seq<Call>, v: nat, i: nat)
    requires PutReady(io, n, calls, v) && i < n && Sized(PutState(io, n, calls, v, i), n)
    ensures Handle(PutState(io, n, calls, v, i), n, i, calls[i]) ==
      if i + 1 == n then FirePutVara(PutState(io, n, calls, v, n), calls[n - 1], v) else PutState(io, n, calls, v, i + 1)
  {
    hide Bits, FirePutVara, FindVar, Bitmaps.Full, Bitmaps.Add, Filled;
    var c, key := calls[i], KeyOf(calls[0]);
    assert SameShape(calls[0], c);
    var p := PutState(io, n, calls, v, i);
    ArriveNext(io, key, n, i);
    StoreNext(io, n, calls, v, i);
    FindSame(io.files[c.ncid].defs, p.files[c.ncid].defs, c.varid);
    var q, q' := Pending(io, key, n, i), Pending(io, key, n, i + 1);
    ArriveWithSlots(q, n, key, i, c.ncid, v, Filled(n, calls, i));
    assert Arrive(p, n, key, i) == WithSlots(q', c.ncid, v, Filled(n, calls, i));
    SlotsTwice(q', c.ncid, v, Filled(n, calls, i), Filled(n, calls, i + 1));
  }

  lemma {:induction false} PutCollecting(io: Io, n: nat, calls: seq<Call>, v: nat, i: nat)
    requires Sized(io, n) && PutReady(io, n, calls, v) && io.table == map[] && i < n
    ensures Round(io, n, calls, i) == PutState(io, n, calls, v, i)
  {
    hide Handle, Bits;
    if i > 0 {
      PutCollecting(io, n, calls, v, i - 1);
      PutNext(io, n, calls, v, i - 1);
    } else {
      assert Filled(n, calls, 0) == EmptySlots(n);
      var f := io.files[calls[0].ncid];
      assert f.defs[v := f.defs[v].(slots := EmptySlots(n))] == f.defs;
      assert PutState(io, n, calls, v, 0) == io;
    }
  }

  lemma PutLast(io: Io, n: nat, calls: seq<Call>, v: nat)
    requires PutReady(io, n, calls, v) && io.table == map[]
    ensures var f := io.files[calls[0].ncid];
      && KnownType(f.defs[v].xtype) && Ready(SlotsOf(calls), |f.defs[v].dimIds|, TypeSize(f.defs[v].xtype))
      && FirePutVara(PutState(io, n, calls, v, n), calls[n - 1], v)
         == io.(events := io.events + WriteEvents(f, f.defs[v].(slots := SlotsOf(calls))))
  {
    hide Bits, FindVar, Ready, WriteEvents;
    SlotsOfReady(io, n, calls, v);
    assert SameShape(calls[0], calls[n - 1]);
    assert Filled(n, calls, n) == SlotsOf(calls) by { assert calls[..n] == calls; }
    var ncid, key, q := calls[0].ncid, KeyOf(calls[0]), Pending(io, KeyOf(calls[0]), n, n);
    var f, p := io.files[ncid], PutState(io, n, calls, v, n);
    assert p == WithSlots(q, ncid, v, SlotsOf(calls));
    SlotsTwice(q, ncid, v, SlotsOf(calls), EmptySlots(n));
    assert WithSlots(p, ncid, v, EmptySlots(n)) == q;
    assert p.files[ncid].defs[v] == f.defs[v].(slots := SlotsOf(calls));
    WriteOfFile(p.files[ncid], f, p.files[ncid].defs[v]);
    assert q.table - {key} == map[];
  }

  // The write depends on the file only through its id.
  lemma WriteOfFile(f: File, g: File, d: Def)
    requires f.serverId == g.serverId
    requires d.Var? && KnownType(d.xtype) && Ready(d.slots, |d.dimIds|, TypeSize(d.xtype))
    ensures WriteEvents(f, d) == WriteEvents(g, d)
  {
  }

  // ---------- the round theorem ----------

  /** What one round amounts to: the operation, performed once. */
  ghost function RoundSpec(io: Io, n: nat, calls: seq<Call>): (io': Io)
    requires Sized(io, n) && RoundOk(io, n, calls) && Quiet(io, n)
  {
    var c := calls[0];
    if c.PutAtt? || c.EndDef? || c.Close? then Fire(io, c)
    else if c.PutVara? then
      var f := io.files[c.ncid];
      var v := FindVar(f.defs, c.varid);
      PutVaraReady(io, n, calls);
      SlotsOfReady(io, n, calls, v);
      io.(events := io.events + WriteEvents(f, f.defs[v].(slots := SlotsOf(calls))))
    else Handle(io, n, 0, c)
  }

  lemma PutVaraReady(io: Io, n: nat, calls: seq<Call>)
    requires RoundOk(io, n, calls) && Quiet(io, n) && calls[0].PutVara?
    ensures PutReady(io, n, calls, FindVar(io.files[calls[0].ncid].defs, calls[0].varid))
  {
    forall j | 0 <= j < n ensures calls[j].PutVara? {
      assert SameShape(calls[0], calls[j]);
    }
  }

  // Firing removes the one pending request.
  lemma FireRemoves(io: Io, n: nat, c: Call)
    requires (c.PutAtt? || c.EndDef? || c.Close?) && Applicable(io, c) && !NamesOwn(io, c) && io.table == map[]
    ensures Fire(Pending(io, KeyOf(c), n, n), c) == Fire(io, c)
    ensures Fire(io, c).table == map[]
  {
    hide HandleDefs, Bits;
    var p := Pending(io, KeyOf(c), n, n);
    assert p.table - {KeyOf(c)} == map[];
    assert io.table - {KeyOf(c)} == map[];
  }

  lemma HandleDefsKeepsSlots(g: Defining, nc: int, k: nat)
    requires k <= |g.defs|
    ensures forall i :: 0 <= i < |g.defs| ==>
      HandleDefs(g, nc, k).defs[i].Var? == g.defs[i].Var?
      && (g.defs[i].Var? ==> HandleDefs(g, nc, k).defs[i].slots == g.defs[i].slots)
  {
  }

  lemma SpecQuiet(io: Io, n: nat, calls: seq<Call>)
    requires Sized(io, n) && RoundOk(io, n, calls) && Quiet(io, n)
    ensures Quiet(RoundSpec(io, n, calls), n)
  {
    var c := calls[0];
    if c.PutAtt? || c.EndDef? || c.Close? { FireRemoves(io, n, c); }
    if c.EndDef? && !io.files[c.ncid].dataMode {
      var f := io.files[c.ncid];
      HandleDefsKeepsSlots(Defining(f.defs, io.events, io.nextId), f.serverId, |f.defs|);
    }
    hide HandleDefs, FindVar, FindDim, WriteEvents;
  }

  lemma CollectedRound(io: Io, n: nat, calls: seq<Call>)
    requires Sized(io, n) && RoundOk(io, n, calls) && Quiet(io, n)
    requires calls[0].PutAtt? || calls[0].EndDef? || calls[0].Close?
    ensures Round(io, n, calls, n) == Fire(io, calls[0])
  {
    hide Handle, Fire, Bits, Sized, NamesOwn;
    assert SameShape(calls[0], calls[n - 1]);
    Collecting(io, n, calls, n - 1);
    CollectNext(io, n, calls[0], n - 1);
    FireRemoves(io, n, calls[0]);
  }

  lemma WrittenRound(io: Io, n: nat, calls: seq<Call>)
    requires Sized(io, n) && RoundOk(io, n, calls) && Quiet(io, n) && calls[0].PutVara?
    ensures Round(io, n, calls, n) == RoundSpec(io, n, calls)
  {
    hide Handle, FirePutVara, WriteEvents, Bits, Sized, NamesOwn;
    var v := FindVar(io.files[calls[0].ncid].defs, calls[0].varid);
    PutVaraReady(io, n, calls);
    PutCollecting(io, n, calls, v, n - 1);
    PutNext(io, n, calls, v, n - 1);
    PutLast(io, n, calls, v);
  }

  /** After the last of the n messages the operation has been performed exactly
      once, no request is pending and every slot is empty again. */
  lemma RoundCorrect(io: Io, n: nat, calls: seq<Call>)
    requires Sized(io, n) && RoundOk(io, n, calls) && Quiet(io, n)
    ensures Round(io, n, calls, n) == RoundSpec(io, n, calls)
    ensures Quiet(RoundSpec(io, n, calls), n) && Sized(RoundSpec(io, n, calls), n)
  {
    hide Handle, Fire, Round, Sized, Quiet, WriteEvents;
    SpecQuiet(io, n, calls);
    if calls[0].PutAtt? || calls[0].EndDef? || calls[0].Close? { CollectedRound(io, n, calls); }
    else if calls[0].PutVara? { WrittenRound(io, n, calls); }
    else { FirstOnly(io, n, calls, n); }
  }

  // ---------- when a round ends the process ----------

  lemma {:induction false} FailedStays(io: Io, n: nat, calls: seq<Call>, i: nat, k: nat)
    requires Sized(io, n) && |calls| == n && i <= k <= n && Round(io, n, calls, i).failed
    ensures Round(io, n, calls, k).failed
    decreases k
  {
    hide Sized;
    if i < k { FailedStays(io, n, calls, i, k - 1); }
  }

  // The first message fails, or, for an attribute, the last.
  lemma FirstFails(io: Io, n: nat, c: Call)
    requires Sized(io, n) && !io.failed && NamesOwn(io, c) && !c.PutAtt?
    ensures Handle(io, n, 0, c).failed
  {
    hide FindVar, FindDim, Bitmaps.Add;
  }

  lemma NamesOwnFails(io: Io, n: nat, calls: seq<Call>)
    requires Sized(io, n) && Matching(n, calls) && Quiet(io, n) && NamesOwn(io, calls[0])
    ensures Round(io, n, calls, n).failed
  {
    hide Handle, Bits, Sized, FindVar, HitsOwn, HasDims;
    var c := calls[0];
    if c.PutAtt? {
      assert SameShape(c, calls[n - 1]);
      Collecting(io, n, calls, n - 1);
      CollectNext(io, n, c, n - 1);
    } else {
      FirstFails(io, n, c);
      RoundOne(io, n, calls);
      hide Round;
      FailedStays(io, n, calls, 1, n);
    }
  }

  lemma RoundOne(io: Io, n: nat, calls: seq<Call>)
    requires Sized(io, n) && |calls| == n
    ensures Round(io, n, calls, 1) == Handle(io, n, 0, calls[0])
  {
    hide Handle, Sized;
    assert Round(io, n, calls, 0) == io;
  }

  /** A round of matching calls ends the process exactly when the call makes the
      server look up id 0, the key of the file's own entry. The library numbers
      dimensions and variables from 1, but takes dimension ids from the caller. */
  lemma RoundFailsIff(io: Io, n: nat, calls: seq<Call>)
    requires Sized(io, n) && Matching(n, calls) && Quiet(io, n)
    requires Applicable(io, calls[0]) || NamesOwn(io, calls[0])
    ensures Round(io, n, calls, n).failed <==> NamesOwn(io, calls[0])
  {
    if NamesOwn(io, calls[0]) {
      NamesOwnFails(io, n, calls);
    } else {
      RoundCorrect(io, n, calls);
      hide Round, RoundSpec, Sized;
    }
  }

  // The ids the library assigns, and the dimension ids it has handed out.
  predicate LibraryIds(c: Call) {
    match c
    case DefDim(_, _, _, dimid) => dimid != OWN
    case DefVar(_, _, _, dimids, varid) => varid != OWN && forall i :: 0 <= i < |dimids| ==> dimids[i] != OWN
    case PutAtt(_, varid, _, _, _) => varid != OWN
    case PutVara(_, varid, _, _, _, _) => varid != OWN
    case _ => true
  }

  lemma LibraryIdsAreSafe(io: Io, c: Call)
    requires LibraryIds(c)
    ensures !NamesOwn(io, c)
  {
  }

  // ---------- whole programs ----------

  // Rounds that are applicable one after the other.
  ghost predicate ProgramOk(io: Io, n: nat, rounds: seq<seq<Call>>)
    requires Sized(io, n)
    decreases |rounds|
  {
    rounds == [] ||
    (RoundOk(io, n, rounds[0]) && Quiet(io, n)
     && (RoundCorrect(io, n, rounds[0]); ProgramOk(RoundSpec(io, n, rounds[0]), n, rounds[1..])))
  }

  ghost function ServerRun(io: Io, n: nat, rounds: seq<seq<Call>>): (io': Io)
    requires Sized(io, n) && forall r :: 0 <= r < |rounds| ==> |rounds[r]| == n
    ensures Sized(io', n)
    decreases |rounds|
  {
    if rounds == [] then io else ServerRun(Round(io, n, rounds[0], n), n, rounds[1..])
  }

  ghost function SpecRun(io: Io, n: nat, rounds: seq<seq<Call>>): (io': Io)
    requires Sized(io, n) && ProgramOk(io, n, rounds)
    decreases |rounds|
  {
    if rounds == [] then io
    else RoundCorrect(io, n, rounds[0]); SpecRun(RoundSpec(io, n, rounds[0]), n, rounds[1..])
  }

  lemma {:induction false} ProgramRounds(io: Io, n: nat, rounds: seq<seq<Call>>)
    requires Sized(io, n) && ProgramOk(io, n, rounds)
    ensures forall r :: 0 <= r < |rounds| ==> |rounds[r]| == n
    decreases |rounds|
  {
    if rounds != [] {
      RoundCorrect(io, n, rounds[0]);
      ProgramRounds(RoundSpec(io, n, rounds[0]), n, rounds[1..]);
      forall r | 0 <= r < |rounds| ensures |rounds[r]| == n {
        if r > 0 { assert rounds[r] == rounds[1..][r - 1]; }
      }
    }
  }

  /** A server decoding n messages a round performs each round's call once, in
      program order, with nothing left pending in between. */
  lemma {:induction false} RunCorrect(io: Io, n: nat, rounds: seq<seq<Call>>)
    requires Sized(io, n) && Quiet(io, n) && ProgramOk(io, n, rounds)
    requires forall r :: 0 <= r < |rounds| ==> |rounds[r]| == n
    ensures ServerRun(io, n, rounds) == SpecRun(io, n, rounds)
    ensures Quiet(ServerRun(io, n, rounds), n)
    decreases |rounds|
  {
    if rounds != [] {
      RoundCorrect(io, n, rounds[0]);
      RunCorrect(RoundSpec(io, n, rounds[0]), n, rounds[1..]);
    }
  }
}
