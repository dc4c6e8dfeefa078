/** The netCDF calls a program leads to, read off the program alone: which calls
    define what, under which ids, with which attributes, and what is written. It
    does not mention the server's tables, bitmaps or slots. */
module Trace {
  import opened Bytes
  import opened Wire
  import opened Collective
  import opened Programs
  import Merge

  // ---------- files ----------

  // The call of each round.
  function Firsts(prog: seq<seq<Call>>): (cs: seq<Call>)
    requires forall r :: 0 <= r < |prog| ==> prog[r] != []
    ensures |cs| == |prog| && forall r :: 0 <= r < |prog| ==> cs[r] == prog[r][0]
  {
    seq(|prog|, r requires 0 <= r < |prog| => prog[r][0])
  }

  // The round that created the file known as `id` before round r, if it is open.
  function OpenAt(cs: seq<Call>, r: nat, id: int): (a: Option<nat>)
    requires r <= |cs|
    ensures a.Some? ==> a.value < r && cs[a.value].Create? && cs[a.value].ncid == id
    ensures a.Some? ==> OpenAt(cs, a.value, id).None?
    decreases r
  {
    if r == 0 then None
    else
      var c, before := cs[r - 1], OpenAt(cs, r - 1, id);
      if c.Create? && c.ncid == id && before.None? then Some(r - 1)
      else if c.Close? && c.ncid == id then None
      else before
  }

  // The first enddef of file `id` between rounds a and r.
  function EndedAt(cs: seq<Call>, a: nat, r: nat, id: int): (e: Option<nat>)
    requires a < r <= |cs|
    ensures e.Some? ==> a < e.value < r && cs[e.value].EndDef? && cs[e.value].ncid == id && EndedAt(cs, a, e.value, id).None?
    decreases r
  {
    if r == a + 1 then None
    else
      var before := EndedAt(cs, a, r - 1, id);
      if before.Some? then before
      else if cs[r - 1].EndDef? && cs[r - 1].ncid == id then Some(r - 1)
      else None
  }

  // ---------- definitions ----------

  predicate DefinesDim(c: Call, id: int, dim: int) { c.DefDim? && c.ncid == id && c.dimid == dim }
  predicate DefinesVar(c: Call, id: int, v: int) { c.DefVar? && c.ncid == id && c.varid == v }

  predicate HasDimIn(cs: seq<Call>, D: seq<nat>, id: int, dim: int)
    requires forall k :: 0 <= k < |D| ==> D[k] < |cs|
  {
    exists k :: 0 <= k < |D| && DefinesDim(cs[D[k]], id, dim)
  }

  predicate HasVarIn(cs: seq<Call>, D: seq<nat>, id: int, v: int)
    requires forall k :: 0 <= k < |D| ==> D[k] < |cs|
  {
    exists k :: 0 <= k < |D| && DefinesVar(cs[D[k]], id, v)
  }

  // A definition counts when its id is new and the dimensions it names are known.
  predicate Counts(cs: seq<Call>, D: seq<nat>, c: Call, id: int)
    requires forall k :: 0 <= k < |D| ==> D[k] < |cs|
  {
    || (c.DefDim? && c.ncid == id && !HasDimIn(cs, D, id, c.dimid))
    || (c.DefVar? && c.ncid == id && !HasVarIn(cs, D, id, c.varid)
        && forall t :: 0 <= t < |c.dimids| ==> HasDimIn(cs, D, id, c.dimids[t]))
  }

  // The rounds between a and r that define something in file `id`.
  function Defs(cs: seq<Call>, a: nat, r: nat, id: int): (D: seq<nat>)
    requires a < r <= |cs|
    ensures forall k :: 0 <= k < |D| ==> a < D[k] < r && (cs[D[k]].DefDim? || cs[D[k]].DefVar?)
    decreases r
  {
    if r == a + 1 then []
    else
      var D := Defs(cs, a, r - 1, id);
      if Counts(cs, D, cs[r - 1], id) then D + [r - 1] else D
  }

  // The place of a dimension, or a variable, among the definitions.
  function DimPlace(cs: seq<Call>, D: seq<nat>, dim: int): (k: nat)
    requires forall k :: 0 <= k < |D| ==> D[k] < |cs|
    ensures k <= |D|
  {
    if D == [] || (cs[D[0]].DefDim? && cs[D[0]].dimid == dim) then 0 else 1 + DimPlace(cs, D[1..], dim)
  }

  function VarPlace(cs: seq<Call>, D: seq<nat>, v: int): (k: nat)
    requires forall k :: 0 <= k < |D| ==> D[k] < |cs|
    ensures k <= |D|
  {
    if D == [] || (cs[D[0]].DefVar? && cs[D[0]].varid == v) then 0 else 1 + VarPlace(cs, D[1..], v)
  }

  // The attributes put on variable v of file `id` between rounds i and r, in order.
  function AttsOf(cs: seq<Call>, i: nat, r: nat, id: int, v: int): seq<Att>
    requires r <= |cs|
    decreases r
  {
    if r <= i + 1 then []
    else
      var c := cs[r - 1];
      AttsOf(cs, i, r - 1, id, v)
      + if c.PutAtt? && c.ncid == id && c.varid == v && v != NC_GLOBAL then [Att(c.name, c.xtype, c.data)] else []
  }

  // ---------- ids ----------

  // How many ids round i gets from netCDF, and all rounds before r.
  function Given(cs: seq<Call>, i: nat): nat
    requires i < |cs|
  {
    var c := cs[i];
    if c.Create? && OpenAt(cs, i, c.ncid).None? then 1
    else if c.EndDef? && OpenAt(cs, i, c.ncid).Some? && EndedAt(cs, OpenAt(cs, i, c.ncid).value, i, c.ncid).None? then
      |Defs(cs, OpenAt(cs, i, c.ncid).value, i, c.ncid)|
    else 0
  }

  function NextId(cs: seq<Call>, r: nat): nat
    requires r <= |cs|
  {
    if r == 0 then 0 else NextId(cs, r - 1) + Given(cs, r - 1)
  }

  // ---------- calls ----------

  // The attribute calls there are: for char, int, float and double.
  function AttCalls(nc: int, varId: int, atts: seq<Att>): seq<Event> {
    if atts == [] then []
    else
      (if atts[0].xtype == CFIO_CHAR || atts[0].xtype == CFIO_INT || atts[0].xtype == CFIO_FLOAT || atts[0].xtype == CFIO_DOUBLE
       then [PutAttribute(nc, varId, atts[0])] else [])
      + AttCalls(nc, varId, atts[1..])
  }

  // What enddef at round e defines for the k-th definition, when ids start at base.
  function DefCalls(cs: seq<Call>, D: seq<nat>, k: nat, id: int, nc: int, base: nat, e: nat): seq<Event>
    requires k < |D| && e <= |cs| && forall k :: 0 <= k < |D| ==> D[k] < |cs| && (cs[D[k]].DefDim? || cs[D[k]].DefVar?)
  {
    var c := cs[D[k]];
    if c.DefDim? then [DefineDim(nc, c.name, c.len, base + k)]
    else
      [DefineVar(nc, c.name, c.xtype, seq(|c.dimids|, t requires 0 <= t < |c.dimids| => base + DimPlace(cs, D, c.dimids[t])), base + k)]
      + AttCalls(nc, base + k, AttsOf(cs, D[k], e, id, c.varid))
  }

  function AllDefCalls(cs: seq<Call>, D: seq<nat>, k: nat, id: int, nc: int, base: nat, e: nat): seq<Event>
    requires k <= |D| && e <= |cs| && forall k :: 0 <= k < |D| ==> D[k] < |cs| && (cs[D[k]].DefDim? || cs[D[k]].DefVar?)
  {
    if k == 0 then [] else AllDefCalls(cs, D, k - 1, id, nc, base, e) + DefCalls(cs, D, k - 1, id, nc, base, e)
  }

  // The bytes of an element of the types there are write calls for.
  function Width(xtype: int): nat {
    if xtype == CFIO_SHORT then 2 else if xtype == CFIO_INT || xtype == CFIO_FLOAT then 4 else 8
  }

  // The write of a round whose blocks are boxes of one rank with their payloads.
  ghost function Writing(calls: seq<Call>, nc: int, varId: int, xtype: Int32): seq<Event> {
    if (xtype == CFIO_SHORT || xtype == CFIO_INT || xtype == CFIO_FLOAT || xtype == CFIO_DOUBLE)
       && calls != [] && (forall i :: 0 <= i < |calls| ==> calls[i].PutVara?)
       && Merge.SameRank(BlocksOf(calls), |calls[0].start|)
       && Merge.Payloads(BlocksOf(calls), PayloadsOf(calls), Width(xtype))
    then
      var hull := Merge.Hull(BlocksOf(calls), |calls[0].start|);
      [Write(nc, varId, xtype, hull, MergedCells(hull, BlocksOf(calls), PayloadsOf(calls), Width(xtype)))]
    else []
  }

  // The netCDF calls of round r.
  ghost function Calls(prog: seq<seq<Call>>, r: nat): seq<Event>
    requires r < |prog| && forall r :: 0 <= r < |prog| ==> prog[r] != []
  {
    var cs := Firsts(prog);
    var c := cs[r];
    var open := OpenAt(cs, r, c.ncid);
    if c.Create? then
      if open.None? then [CreateFile(c.path, c.cmode, NextId(cs, r))] else []
    else if c.DefDim? || c.DefVar? || open.None? then []
    else
      var nc := NextId(cs, open.value);
      var ended := EndedAt(cs, open.value, r, c.ncid);
      match c
      case PutAtt(_, varid, name, xtype, data) => if varid == NC_GLOBAL then AttCalls(nc, NC_GLOBAL, [Att(name, xtype, data)]) else []
      case EndDef(id) =>
        if ended.Some? then []
        else
          var D := Defs(cs, open.value, r, id);
          AllDefCalls(cs, D, |D|, id, nc, NextId(cs, r), r) + [EndDefine(nc)]
      case PutVara(id, varid, _, _, _, _) =>
        if ended.None? then []
        else
          var D := Defs(cs, open.value, ended.value, id);
          var k := VarPlace(cs, D, varid);
          if k < |D| && cs[D[k]].DefVar? then Writing(prog[r], nc, NextId(cs, ended.value) + k, cs[D[k]].xtype) else []
      case _ => [CloseFile(nc)]
  }

  // All calls of the first r rounds.
  ghost function Made(prog: seq<seq<Call>>, r: nat): seq<Event>
    requires r <= |prog| && forall r :: 0 <= r < |prog| ==> prog[r] != []
  {
    if r == 0 then [] else Made(prog, r - 1) + Calls(prog, r - 1)
  }
}
