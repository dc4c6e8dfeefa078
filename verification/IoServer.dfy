/** The handlers of the server as methods that update the id table, the request
    table and the list of netCDF calls. */
module IoServer {
  import opened Bytes
  import opened Boxes
  import opened Merge
  import opened Wire
  import opened Collective
  import opened Rounds
  import Bitmaps

  // The array handed to the write call has the cells the event records.
  ghost predicate Records(data: seq<Byte>, cells: seq<Option<seq<Byte>>>, ele: nat) {
    |data| == |cells| * ele && forall o: nat :: o < |cells| && cells[o].Some? ==> CellIs(data, o, ele, cells[o].value)
  }

  class CfioIo {
    const clientNum: nat
    var files: map<Int32, File>
    var table: map<Key, Bitmaps.Bitmap>
    ghost var events: seq<Event>
    var nextId: nat
    // An assertion has failed, or memory outside an array was used.
    var failed: bool

    ghost function Abs(): Io
      reads this
    {
      Io(files, table, events, nextId, failed)
    }

    constructor (n: nat)
      requires n > 0
      ensures clientNum == n && Abs() == NoFiles() && Sized(Abs(), n) && Quiet(Abs(), n)
    {
      clientNum, files, table, events, nextId, failed := n, map[], map[], [], 0, false;
    }

    // ---------- netCDF ----------

    method NcDefine(ghost e: Event) returns (id: int)
      modifies this`events, this`nextId
      ensures id == old(nextId) && nextId == old(nextId) + 1 && events == old(events) + [e]
    {
      id := nextId;
      nextId := nextId + 1;
      events := events + [e];
    }

    method NcPutVara(nc: int, varId: int, xtype: Int32, hull: Box, data: array<Byte>, ghost cells: seq<Option<seq<Byte>>>)
      requires KnownType(xtype) && Records(data[..], cells, TypeSize(xtype))
      modifies this`events
      ensures events == old(events) + [Write(nc, varId, xtype, hull, cells)]
    {
      events := events + [Write(nc, varId, xtype, hull, cells)];
    }

    // ---------- requests ----------

    method RecvClientIo(key: Key, slot: nat) returns (full: bool)
      requires Sized(Abs(), clientNum) && slot < clientNum
      modifies this`table
      ensures Abs() == Arrive(old(Abs()), clientNum, key, slot)
      ensures key in table && full == Bitmaps.Full(table[key], clientNum)
    {
      if key !in table {
        table := table[key := Bitmaps.Empty(clientNum)];
      }
      table := table[key := Bitmaps.Add(table[key], slot)];
      full := Bitmaps.Full(table[key], clientNum);
    }

    method RemoveClientIo(key: Key)
      modifies this`table
      ensures Abs() == Remove(old(Abs()), key)
    {
      table := table - {key};
    }

    // ---------- definitions ----------

    method IoCreate(c: Call)
      requires c.Create?
      modifies this
      ensures Abs() == Collective.IoCreate(old(Abs()), c)
    {
      if c.ncid !in files {
        files := files[c.ncid := File(INVALID, false, [])];
        var id := NcDefine(CreateFile(c.path, c.cmode, nextId));
        files := files[c.ncid := files[c.ncid].(serverId := id)];
      }
    }

    method IoDefDim(c: Call)
      requires c.DefDim?
      modifies this
      ensures Abs() == Collective.IoDefDim(old(Abs()), c)
    {
      if c.ncid !in files {
        return;
      }
      if c.dimid == OWN {
        // The lookup finds the file's own entry, which has no dimension.
        failed := true;
        return;
      }
      if !HasDim(files[c.ncid].defs, c.dimid) {
        files := files[c.ncid := files[c.ncid].(defs := files[c.ncid].defs + [Dim(c.dimid, c.name, c.len, INVALID)])];
      }
    }

    method IoDefVar(c: Call)
      requires c.DefVar?
      modifies this
      ensures Abs() == Collective.IoDefVar(old(Abs()), clientNum, c)
    {
      if c.ncid !in files {
        return;
      }
      var defs := files[c.ncid].defs;
      for i := 0 to |c.dimids|
        invariant Abs() == old(Abs())
        invariant forall j :: 0 <= j < i ==> c.dimids[j] != OWN && HasDim(defs, c.dimids[j])
      {
        if c.dimids[i] == OWN {
          failed := true;
          return;
        }
        if !HasDim(defs, c.dimids[i]) {
          return;
        }
      }
      if c.varid == OWN {
        failed := true;
        return;
      }
      if !HasVar(defs, c.varid) {
        files := files[c.ncid :=
          files[c.ncid].(defs := defs + [Var(c.varid, c.name, c.xtype, c.dimids, INVALID, [], EmptySlots(clientNum))])];
      }
    }

    // Replaces the client's dimension ids by the server's, one after the other.
    method TranslateDims(defs: seq<Def>, ids: seq<int>) returns (r: seq<int>)
      ensures r == Translate(defs, ids)
    {
      r := ids;
      for i := 0 to |ids|
        invariant |r| == |ids| && r[..i] == Translate(defs, ids)[..i] && r[i..] == ids[i..]
      {
        assert r[i] == r[i..][0];
        var d := FindDim(defs, r[i]);
        r := r[i := if d < |defs| then defs[d].serverId else INVALID];
      }
    }

    method HandleDef(ncid: Int32, k: nat)
      requires ncid in files && k < |files[ncid].defs|
      modifies this`files, this`events, this`nextId
      ensures var f := old(files[ncid]);
        var g := Collective.HandleDef(Defining(f.defs, old(events), old(nextId)), f.serverId, k);
        files == old(files)[ncid := f.(defs := g.defs)] && events == g.events && nextId == g.nextId
    {
      var f := files[ncid];
      match f.defs[k]
      case Dim(dimId, name, len, _) =>
        var id := NcDefine(DefineDim(f.serverId, name, len, nextId));
        files := files[ncid := f.(defs := f.defs[k := Dim(dimId, name, len, id)])];
      case Var(_, name, xtype, dimIds, _, atts, _) =>
        var ids := TranslateDims(f.defs, dimIds);
        var id := NcDefine(DefineVar(f.serverId, name, xtype, ids, nextId));
        PutAtts(f.serverId, id, atts);
        files := files[ncid := f.(defs := f.defs[k := f.defs[k].(dimIds := ids, serverId := id)])];
    }

    // The attributes collected for a variable, those of a type with a call.
    method PutAtts(nc: int, varId: int, atts: seq<Att>)
      modifies this`events
      ensures events == old(events) + AttEvents(nc, varId, atts)
    {
      assert atts[0..] == atts;
      for i := 0 to |atts|
        invariant events + AttEvents(nc, varId, atts[i..]) == old(events) + AttEvents(nc, varId, atts)
      {
        assert atts[i..][1..] == atts[i + 1..];
        if AttWritten(atts[i].xtype) {
          events := events + [PutAttribute(nc, varId, atts[i])];
        }
      }
    }

    /** enddef: defines the whole list once, then leaves define mode. */
    method IoEndDef(c: Call, slot: nat)
      requires c.EndDef? && Sized(Abs(), clientNum) && slot < clientNum && !failed
      modifies this
      ensures Abs() == Handle(old(Abs()), clientNum, slot, c)
    {
      hide Bitmaps.Full, Bitmaps.Add, Collective.HandleDef;
      var key := Key(FUNC_NC_ENDDEF, c.ncid, 0);
      var full := RecvClientIo(key, slot);
      if full {
        if c.ncid !in files {
          return;
        }
        if !files[c.ncid].dataMode {
          ghost var f, table0 := files[c.ncid], table;
          ghost var g0 := Defining(f.defs, events, nextId);
          for k := 0 to |files[c.ncid].defs|
            invariant c.ncid in files && |files[c.ncid].defs| == |f.defs| && table == table0 && !failed
            invariant var g := HandleDefs(g0, f.serverId, k);
              files == old(files)[c.ncid := f.(defs := g.defs)] && events == g.events && nextId == g.nextId
          {
            HandleDef(c.ncid, k);
          }
          events := events + [EndDefine(files[c.ncid].serverId)];
          files := files[c.ncid := files[c.ncid].(dataMode := true)];
        }
        RemoveClientIo(key);
      }
    }
  
    method IoPutAtt(c: Call, slot: nat)
      requires c.PutAtt? && Sized(Abs(), clientNum) && slot < clientNum && !failed
      modifies this
      ensures Abs() == Handle(old(Abs()), clientNum, slot, c)
    {
      hide Bitmaps.Full, Bitmaps.Add;
      var key := Key(FUNC_PUT_ATT, c.ncid, c.varid);
      var full := RecvClientIo(key, slot);
      if c.ncid !in files {
        return;
      }
      if full {
        var f := files[c.ncid];
        var att := Att(c.name, c.xtype, c.data);
        if c.varid == NC_GLOBAL {
          if AttWritten(c.xtype) {
            events := events + [PutAttribute(f.serverId, NC_GLOBAL, att)];
          }
        } else if c.varid == OWN {
          failed := true;
          return;
        } else {
          var v := FindVar(f.defs, c.varid);
          if v == |f.defs| {
            return;
          }
          files := files[c.ncid := f.(defs := f.defs[v := f.defs[v].(atts := f.defs[v].atts + [att])])];
        }
        RemoveClientIo(key);
      }
    }

    method IoClose(c: Call, slot: nat)
      requires c.Close? && Sized(Abs(), clientNum) && slot < clientNum && !failed
      modifies this
      ensures Abs() == Handle(old(Abs()), clientNum, slot, c)
    {
      hide Bitmaps.Full, Bitmaps.Add;
      var key := Key(FUNC_NC_CLOSE, c.ncid, 0);
      var full := RecvClientIo(key, slot);
      if full && c.ncid in files {
        events := events + [CloseFile(files[c.ncid].serverId)];
        RemoveClientIo(key);
        files := files - {c.ncid};
      }
    }

    // ---------- put_vara ----------

    // Merges the blocks of variable v, writes them, and empties the slots.
    method MergeAndWrite(ncid: Int32, v: nat)
      requires ncid in files && v < |files[ncid].defs| && files[ncid].defs[v].Var?
      requires var d := files[ncid].defs[v]; KnownType(d.xtype) && Ready(d.slots, |d.dimIds|, TypeSize(d.xtype))
      modifies this`files, this`events
      ensures var f := old(files[ncid]); var d := f.defs[v];
        && files == old(files)[ncid := f.(defs := f.defs[v := d.(slots := EmptySlots(|d.slots|))])]
        && events == old(events) + WriteEvents(f, d)
    {
      var f := files[ncid];
      var d := f.defs[v];
      var ndims := |d.dimIds|;
      var recvData := new Slot[|d.slots|](i requires 0 <= i < |d.slots| => d.slots[i]);
      assert recvData[..] == d.slots;
      var totalStart, totalCount := new nat[ndims](_ => 0), new nat[ndims](_ => 0);
      var totalData := MergeVarData(ndims, TypeSize(d.xtype), recvData, totalStart, totalCount);
      var hull := Box(totalStart[..], totalCount[..]);
      if NumericType(d.xtype) {
        ghost var cells := MergedCells(hull, BoxesOf(d.slots), BufsOf(d.slots), TypeSize(d.xtype));
        MergedRecords(totalData[..], hull, BoxesOf(d.slots), BufsOf(d.slots), TypeSize(d.xtype));
        NcPutVara(f.serverId, d.serverId, d.xtype, hull, totalData, cells);
      }
      assert recvData[..] == EmptySlots(|d.slots|);
      files := files[ncid := f.(defs := f.defs[v := d.(slots := recvData[..])])];
    }

    /** put_vara: stores the client's block in its slot; the last block of the
        round merges and writes them all. */
    method IoPutVara(c: Call, slot: nat)
      requires c.PutVara? && Sized(Abs(), clientNum) && slot < clientNum && !failed
      modifies this
      ensures Abs() == Handle(old(Abs()), clientNum, slot, c)
    {
      hide Bitmaps.Full, Bitmaps.Add, Ready, WriteEvents;
      var key := Key(FUNC_NC_PUT_VARA, c.ncid, c.varid);
      var full := RecvClientIo(key, slot);
      if c.ncid !in files {
        return;
      }
      if c.varid == OWN {
        // The file's own entry has no variable to store the block in.
        failed := true;
        return;
      }
      if !HasVar(files[c.ncid].defs, c.varid) {
        return;
      }
      var defs := files[c.ncid].defs;
      var v := FindVar(defs, c.varid);
      var stored := defs[v].(slots := defs[v].slots[slot := Full(Box(c.start, c.count), c.data)]);
      files := files[c.ncid := files[c.ncid].(defs := defs[v := stored])];
      if full {
        if files[c.ncid].serverId == INVALID || stored.serverId == INVALID || |c.start| != |stored.dimIds| {
          return;
        }
        if !KnownType(stored.xtype) || !Ready(stored.slots, |stored.dimIds|, TypeSize(stored.xtype)) {
          // The merge would read outside the blocks it was given.
          failed := true;
          return;
        }
        MergeAndWrite(c.ncid, v);
        RemoveClientIo(key);
      }
    }

    /** The decode switch: each message has the effect the model gives it. */
    method Decode(c: Call, slot: nat)
      requires Sized(Abs(), clientNum) && slot < clientNum
      modifies this
      ensures Abs() == Handle(old(Abs()), clientNum, slot, c) && Sized(Abs(), clientNum)
    {
      HandleSized(Abs(), clientNum, slot, c);
      hide Sized, FirePutAtt, FireEndDef, FireClose, FirePutVara, Arrive, StoreSlot, Bitmaps.Full, Collective.IoCreate,
           Collective.IoDefDim, Collective.IoDefVar;
      if failed {
        return;
      }
      match c
      case Create(_, _, _) => IoCreate(c);
      case DefDim(_, _, _, _) => IoDefDim(c);
      case DefVar(_, _, _, _, _) => IoDefVar(c);
      case PutAtt(_, _, _, _, _) => IoPutAtt(c, slot);
      case EndDef(_) => IoEndDef(c, slot);
      case PutVara(_, _, _, _, _, _) => IoPutVara(c, slot);
      case Close(_) => IoClose(c, slot);
    }
  }

  lemma MergedRecords(data: seq<Byte>, hull: Box, boxes: seq<Box>, bufs: seq<seq<Byte>>, ele: nat)
    requires Merged(data, hull, boxes, bufs, ele, |boxes|)
    ensures Records(data, MergedCells(hull, boxes, bufs, ele), ele)
  {
    forall o: nat | o < hull.Cells() && MergedCells(hull, boxes, bufs, ele)[o].Some?
      ensures CellIs(data, o, ele, MergedCells(hull, boxes, bufs, ele)[o].value)
    {
      assert CellMerged(data, hull, boxes, bufs, ele, |boxes|, o);
    }
  }
}
