/** What the server does with one decoded message, as a function on its state:
    the id table with its deferred definitions, the per-request bitmaps, and the
    netCDF calls it has made. */
module Collective {
  import opened Bytes
  import opened Boxes
  import opened Merge
  import opened Wire
  import Bitmaps

  const INVALID := -1
  const NC_GLOBAL := -1

  // ---------- state ----------

  datatype Att = Att(name: seq<Byte>, xtype: Int32, data: seq<Byte>)

  // An entry of a file's definition list. Server ids are INVALID until enddef.
  datatype Def =
    | Dim(id: Int32, name: seq<Byte>, len: int, serverId: int)
    | Var(id: Int32, name: seq<Byte>, xtype: Int32, dimIds: seq<int>, serverId: int, atts: seq<Att>, slots: seq<Slot>)

  datatype File = File(serverId: int, dataMode: bool, defs: seq<Def>)

  datatype Key = Key(code: Int32, ncid: Int32, varid: Int32)

  // A netCDF call. The cells of a write are given where some client wrote them.
  datatype Event =
    | CreateFile(path: seq<Byte>, cmode: Int32, id: int)
    | DefineDim(nc: int, name: seq<Byte>, len: int, id: int)
    | DefineVar(nc: int, name: seq<Byte>, xtype: Int32, dimIds: seq<int>, id: int)
    | PutAttribute(nc: int, varId: int, att: Att)
    | EndDefine(nc: int)
    | Write(nc: int, varId: int, xtype: Int32, box: Box, cells: seq<Option<seq<Byte>>>)
    | CloseFile(nc: int)

  // Ids returned by the netCDF calls are fresh numbers. `failed`: an assertion
  // ended the process, or memory outside its arrays was used; nothing follows.
  datatype Io = Io(files: map<Int32, File>, table: map<Key, Bitmaps.Bitmap>, events: seq<Event>, nextId: nat, failed: bool)

  function NoFiles(): Io { Io(map[], map[], [], 0, false) }

  function Fail(io: Io): Io { io.(failed := true) }

  // ---------- id table ----------

  function FindDim(defs: seq<Def>, id: int): (i: nat)
    ensures i <= |defs|
    ensures i < |defs| ==> defs[i].Dim? && defs[i].id == id
    ensures forall j :: 0 <= j < i ==> !(defs[j].Dim? && defs[j].id == id)
  {
    if defs == [] || (defs[0].Dim? && defs[0].id == id) then 0 else 1 + FindDim(defs[1..], id)
  }

  function FindVar(defs: seq<Def>, id: int): (i: nat)
    ensures i <= |defs|
    ensures i < |defs| ==> defs[i].Var? && defs[i].id == id
    ensures forall j :: 0 <= j < i ==> !(defs[j].Var? && defs[j].id == id)
  {
    if defs == [] || (defs[0].Var? && defs[0].id == id) then 0 else 1 + FindVar(defs[1..], id)
  }

  // The file's own entry of the id table has dimension id and variable id 0: a
  // lookup with id 0 finds it where a dimension or a variable is expected.
  const OWN := 0

  predicate HasDim(defs: seq<Def>, id: int) { FindDim(defs, id) < |defs| }
  predicate HasVar(defs: seq<Def>, id: int) { FindVar(defs, id) < |defs| }

  function SetDefs(io: Io, ncid: Int32, defs: seq<Def>): Io
    requires ncid in io.files
  {
    io.(files := io.files[ncid := io.files[ncid].(defs := defs)])
  }

  // ---------- definitions ----------

  function IoCreate(io: Io, c: Call): Io
    requires c.Create?
  {
    if c.ncid in io.files then io
    else io.(files := io.files[c.ncid := File(io.nextId, false, [])],
             events := io.events + [CreateFile(c.path, c.cmode, io.nextId)], nextId := io.nextId + 1)
  }

  function IoDefDim(io: Io, c: Call): Io
    requires c.DefDim?
  {
    if c.ncid !in io.files then io
    else if c.dimid == OWN then Fail(io)
    else if HasDim(io.files[c.ncid].defs, c.dimid) then io
    else SetDefs(io, c.ncid, io.files[c.ncid].defs + [Dim(c.dimid, c.name, c.len, INVALID)])
  }

  function EmptySlots(n: nat): (s: seq<Slot>) { seq(n, _ => Empty) }

  // The lookups of the dimensions, in order: the first one missing ends them.
  predicate HitsOwn(defs: seq<Def>, ids: seq<int>) {
    exists i :: 0 <= i < |ids| && ids[i] == OWN && forall j :: 0 <= j < i ==> HasDim(defs, ids[j])
  }

  predicate HasDims(defs: seq<Def>, ids: seq<int>) { forall i :: 0 <= i < |ids| ==> HasDim(defs, ids[i]) }

  function IoDefVar(io: Io, n: nat, c: Call): Io
    requires c.DefVar?
  {
    if c.ncid !in io.files then io
    else
      var defs := io.files[c.ncid].defs;
      if HitsOwn(defs, c.dimids) then Fail(io)
      else if !HasDims(defs, c.dimids) then io
      else if c.varid == OWN then Fail(io)
      else if HasVar(defs, c.varid) then io
      else SetDefs(io, c.ncid, defs + [Var(c.varid, c.name, c.xtype, c.dimids, INVALID, [], EmptySlots(n))])
  }

  // The running outcome of enddef: the list so far, the calls made, the next id.
  datatype Defining = Defining(defs: seq<Def>, events: seq<Event>, nextId: nat)

  function Translate(defs: seq<Def>, ids: seq<int>): (r: seq<int>)
    ensures |r| == |ids|
  {
    seq(|ids|, i requires 0 <= i < |ids| =>
      var d := FindDim(defs, ids[i]); if d < |defs| then defs[d].serverId else INVALID)
  }

  predicate AttWritten(t: int) { t == CFIO_CHAR || t == CFIO_INT || t == CFIO_FLOAT || t == CFIO_DOUBLE }

  function AttEvents(nc: int, varId: int, atts: seq<Att>): seq<Event> {
    if atts == [] then []
    else (if AttWritten(atts[0].xtype) then [PutAttribute(nc, varId, atts[0])] else []) + AttEvents(nc, varId, atts[1..])
  }

  // _handle_def on entry k.
  function HandleDef(g: Defining, nc: int, k: nat): (g': Defining)
    requires k < |g.defs|
    ensures |g'.defs| == |g.defs|
  {
    match g.defs[k]
    case Dim(id, name, len, _) =>
      Defining(g.defs[k := Dim(id, name, len, g.nextId)], g.events + [DefineDim(nc, name, len, g.nextId)], g.nextId + 1)
    case Var(_, name, xtype, dimIds, _, atts, _) =>
      var ids := Translate(g.defs, dimIds);
      Defining(g.defs[k := g.defs[k].(dimIds := ids, serverId := g.nextId)],
               g.events + [DefineVar(nc, name, xtype, ids, g.nextId)] + AttEvents(nc, g.nextId, atts), g.nextId + 1)
  }

  // The first k entries handled.
  function HandleDefs(g: Defining, nc: int, k: nat): (g': Defining)
    requires k <= |g.defs|
    ensures |g'.defs| == |g.defs|
  {
    if k == 0 then g else HandleDef(HandleDefs(g, nc, k - 1), nc, k - 1)
  }

  // ---------- collective requests ----------

  // _recv_client_io
  function Arrive(io: Io, n: nat, key: Key, slot: nat): Io
    requires slot < n && (key in io.table ==> |io.table[key]| == n / 8 + 1)
  {
    var bits := if key in io.table then io.table[key] else Bitmaps.Empty(n);
    io.(table := io.table[key := Bitmaps.Add(bits, slot)])
  }

  // _remove_client_io
  function Remove(io: Io, key: Key): Io { io.(table := io.table - {key}) }

  predicate TableOk(io: Io, n: nat) { forall k :: k in io.table ==> |io.table[k]| == n / 8 + 1 }

  function FirePutAtt(io: Io, c: Call): Io
    requires c.PutAtt? && c.ncid in io.files
  {
    var key := Key(FUNC_PUT_ATT, c.ncid, c.varid);
    var f := io.files[c.ncid];
    var att := Att(c.name, c.xtype, c.data);
    if c.varid == NC_GLOBAL then
      Remove(io.(events := io.events + (if AttWritten(c.xtype) then [PutAttribute(f.serverId, NC_GLOBAL, att)] else [])), key)
    else if c.varid == OWN then Fail(io)
    else
      var v := FindVar(f.defs, c.varid);
      if v == |f.defs| then io
      else Remove(SetDefs(io, c.ncid, f.defs[v := f.defs[v].(atts := f.defs[v].atts + [att])]), key)
  }

  function FireEndDef(io: Io, c: Call): Io
    requires c.EndDef? && c.ncid in io.files
  {
    var key := Key(FUNC_NC_ENDDEF, c.ncid, 0);
    var f := io.files[c.ncid];
    if f.dataMode then Remove(io, key)
    else
      var g := HandleDefs(Defining(f.defs, io.events, io.nextId), f.serverId, |f.defs|);
      Remove(Io(io.files[c.ncid := File(f.serverId, true, g.defs)], io.table,
                g.events + [EndDefine(f.serverId)], g.nextId, io.failed), key)
  }

  function FireClose(io: Io, c: Call): Io
    requires c.Close? && c.ncid in io.files
  {
    var key := Key(FUNC_NC_CLOSE, c.ncid, 0);
    Remove(io.(events := io.events + [CloseFile(io.files[c.ncid].serverId)]), key).(files := io.files - {c.ncid})
  }

  // The element types for which the server has a write call.
  predicate NumericType(t: int) { t == CFIO_SHORT || t == CFIO_INT || t == CFIO_FLOAT || t == CFIO_DOUBLE }

  // cfio_id_put_var
  function StoreSlot(io: Io, c: Call, v: nat, slot: nat): Io
    requires c.PutVara? && c.ncid in io.files && v < |io.files[c.ncid].defs|
    requires io.files[c.ncid].defs[v].Var? && slot < |io.files[c.ncid].defs[v].slots|
  {
    var defs := io.files[c.ncid].defs;
    SetDefs(io, c.ncid, defs[v := defs[v].(slots := defs[v].slots[slot := Full(Box(c.start, c.count), c.data)])])
  }

  ghost function MergedCells(hull: Box, boxes: seq<Box>, bufs: seq<seq<Byte>>, ele: nat): (cells: seq<Option<seq<Byte>>>)
    requires Payloads(boxes, bufs, ele) && hull.Valid()
  {
    seq(hull.Cells(), o requires 0 <= o < hull.Cells() => Expected(hull, boxes, bufs, ele, |boxes|, o))
  }

  // The write of a complete request: the hull, and the overlay of all payloads.
  ghost function WriteEvents(f: File, v: Def): seq<Event>
    requires v.Var? && KnownType(v.xtype) && Ready(v.slots, |v.dimIds|, TypeSize(v.xtype))
  {
    if NumericType(v.xtype) then
      var boxes, bufs := BoxesOf(v.slots), BufsOf(v.slots);
      var hull := Hull(boxes, |v.dimIds|);
      [Write(f.serverId, v.serverId, v.xtype, hull, MergedCells(hull, boxes, bufs, TypeSize(v.xtype)))]
    else []
  }

  // The part of cfio_io_put_vara behind a full bitmap. The merge reads every
  // slot as a box of the variable's rank filled with elements of its type.
  ghost function FirePutVara(io: Io, c: Call, v: nat): Io
    requires c.PutVara? && c.ncid in io.files && v < |io.files[c.ncid].defs| && io.files[c.ncid].defs[v].Var?
  {
    var f := io.files[c.ncid];
    var d := f.defs[v];
    if f.serverId == INVALID || d.serverId == INVALID || |c.start| != |d.dimIds| then io
    else if KnownType(d.xtype) && Ready(d.slots, |d.dimIds|, TypeSize(d.xtype)) then
      Remove(SetDefs(io, c.ncid, f.defs[v := d.(slots := EmptySlots(|d.slots|))]).(events := io.events + WriteEvents(f, d)),
             Key(FUNC_NC_PUT_VARA, c.ncid, c.varid))
    else Fail(io)
  }

  // ---------- one message ----------

  predicate SlotsOk(io: Io, n: nat) {
    forall id :: id in io.files ==> forall i :: 0 <= i < |io.files[id].defs| ==>
      io.files[id].defs[i].Var? ==> |io.files[id].defs[i].slots| == n
  }

  ghost predicate Sized(io: Io, n: nat) { n > 0 && TableOk(io, n) && SlotsOk(io, n) }

  // The decode switch.
  ghost function Handle(io: Io, n: nat, slot: nat, c: Call): Io
    requires Sized(io, n) && slot < n
  {
    if io.failed then io else
    match c
    case Create(_, _, _) => IoCreate(io, c)
    case DefDim(_, _, _, _) => IoDefDim(io, c)
    case DefVar(_, _, _, _, _) => IoDefVar(io, n, c)
    case PutAtt(_, ncid, _, _, _) =>
      var key := Key(FUNC_PUT_ATT, c.ncid, c.varid);
      var a := Arrive(io, n, key, slot);
      if c.ncid in io.files && Bitmaps.Full(a.table[key], n) then FirePutAtt(a, c) else a
    case EndDef(_) =>
      var key := Key(FUNC_NC_ENDDEF, c.ncid, 0);
      var a := Arrive(io, n, key, slot);
      if c.ncid in io.files && Bitmaps.Full(a.table[key], n) then FireEndDef(a, c) else a
    case PutVara(_, _, _, _, _, _) =>
      var key := Key(FUNC_NC_PUT_VARA, c.ncid, c.varid);
      var a := Arrive(io, n, key, slot);
      if c.ncid !in io.files then a
      else if c.varid == OWN then Fail(a)
      else if !HasVar(io.files[c.ncid].defs, c.varid) then a
      else
        var v := FindVar(io.files[c.ncid].defs, c.varid);
        var s := StoreSlot(a, c, v, slot);
        if Bitmaps.Full(s.table[key], n) then FirePutVara(s, c, v) else s
    case Close(_) =>
      var key := Key(FUNC_NC_CLOSE, c.ncid, 0);
      var a := Arrive(io, n, key, slot);
      if c.ncid in io.files && Bitmaps.Full(a.table[key], n) then FireClose(a, c) else a
  }
}
