/** The server's calls are those of the trace: its tables always hold what the
    program's calls say. */
module TraceProof {
  import opened Bytes
  import opened Wire
  import opened Collective
  import opened Rounds
  import opened Definitions
  import opened Programs
  import opened Trace
  import EndToEnd
  import Merge

  // ---------- tables and program ----------

  // The server id of definition k: given at enddef, to what was defined by then.
  function IdAt(cs: seq<Call>, a: nat, r: nat, id: int, k: nat): int
    requires a < r <= |cs|
  {
    var e := EndedAt(cs, a, r, id);
    if e.Some? && k < |Defs(cs, a, e.value, id)| then NextId(cs, e.value) + k else INVALID
  }

  ghost predicate EntryTied(d: Def, cs: seq<Call>, i: nat, a: nat, r: nat, id: int, serverId: int)
    requires a < i < r <= |cs|
  {
    var c := cs[i];
    if c.DefDim? then d == Dim(c.dimid, c.name, c.len, serverId)
    else
      && c.DefVar? && d.Var? && d.id == c.varid && d.name == c.name && d.xtype == c.xtype && d.serverId == serverId
      && |d.dimIds| == |c.dimids|
      && (EndedAt(cs, a, r, id).None? ==> d.dimIds == c.dimids && d.atts == AttsOf(cs, i, r, id, c.varid))
  }

  ghost predicate DefsTied(defs: seq<Def>, cs: seq<Call>, a: nat, r: nat, id: int)
    requires a < r <= |cs|
  {
    var D := Trace.Defs(cs, a, r, id);
    && |defs| == |D|
    && forall k :: 0 <= k < |D| ==> EntryTied(defs[k], cs, D[k], a, r, id, IdAt(cs, a, r, id, k))
  }

  ghost predicate FileTied(f: File, cs: seq<Call>, a: nat, r: nat, id: int)
    requires a < r <= |cs|
  {
    f.serverId == NextId(cs, a) && f.dataMode == EndedAt(cs, a, r, id).Some? && DefsTied(f.defs, cs, a, r, id)
  }

  ghost predicate FilesTied(io: Io, cs: seq<Call>, r: nat)
    requires r <= |cs|
  {
    && io.nextId == NextId(cs, r)
    && forall id: Int32 ::
         (id in io.files <==> OpenAt(cs, r, id).Some?)
         && (id in io.files ==> FileTied(io.files[id], cs, OpenAt(cs, r, id).value, r, id))
  }

  // ---------- lookups ----------

  lemma {:induction false} FindDimPlace(defs: seq<Def>, cs: seq<Call>, D: seq<nat>, dim: int)
    requires |defs| == |D| && forall k :: 0 <= k < |D| ==> D[k] < |cs|
    requires forall k :: 0 <= k < |D| ==>
      (defs[k].Dim? <==> cs[D[k]].DefDim?) && (cs[D[k]].DefDim? ==> defs[k].id == cs[D[k]].dimid)
    ensures FindDim(defs, dim) == DimPlace(cs, D, dim)
  {
    if D != [] { FindDimPlace(defs[1..], cs, D[1..], dim); }
  }

  lemma {:induction false} FindVarPlace(defs: seq<Def>, cs: seq<Call>, D: seq<nat>, v: int)
    requires |defs| == |D| && forall k :: 0 <= k < |D| ==> D[k] < |cs|
    requires forall k :: 0 <= k < |D| ==>
      (defs[k].Var? <==> cs[D[k]].DefVar?) && (cs[D[k]].DefVar? ==> defs[k].id == cs[D[k]].varid)
    ensures FindVar(defs, v) == VarPlace(cs, D, v)
  {
    if D != [] { FindVarPlace(defs[1..], cs, D[1..], v); }
  }

  // The definitions of a file are its own.
  lemma {:induction false} DefsOwn(cs: seq<Call>, a: nat, r: nat, id: int)
    requires a < r <= |cs|
    ensures forall k :: 0 <= k < |Trace.Defs(cs, a, r, id)| ==> cs[Trace.Defs(cs, a, r, id)[k]].ncid == id
    decreases r
  {
    if r > a + 1 { DefsOwn(cs, a, r - 1, id); }
  }

  lemma HasInTable(defs: seq<Def>, cs: seq<Call>, a: nat, r: nat, id: int, x: int)
    requires a < r <= |cs| && DefsTied(defs, cs, a, r, id)
    ensures FindDim(defs, x) == DimPlace(cs, Trace.Defs(cs, a, r, id), x)
    ensures FindVar(defs, x) == VarPlace(cs, Trace.Defs(cs, a, r, id), x)
    ensures HasDim(defs, x) <==> HasDimIn(cs, Trace.Defs(cs, a, r, id), id, x)
    ensures HasVar(defs, x) <==> HasVarIn(cs, Trace.Defs(cs, a, r, id), id, x)
  {
    var D := Trace.Defs(cs, a, r, id);
    DefsOwn(cs, a, r, id);
    FindDimPlace(defs, cs, D, x);
    FindVarPlace(defs, cs, D, x);
    if HasDim(defs, x) { assert DefinesDim(cs[D[FindDim(defs, x)]], id, x); }
    if HasVar(defs, x) { assert DefinesVar(cs[D[FindVar(defs, x)]], id, x); }
    if HasDimIn(cs, D, id, x) {
      var k :| 0 <= k < |D| && DefinesDim(cs[D[k]], id, x);
      assert defs[k].Dim? && defs[k].id == x;
    }
    if HasVarIn(cs, D, id, x) {
      var k :| 0 <= k < |D| && DefinesVar(cs[D[k]], id, x);
      assert defs[k].Var? && defs[k].id == x;
    }
  }

  // ---------- files a round leaves alone ----------

  // A call on another file, or one that defines, ends and attaches nothing.
  ghost predicate Idle(cs: seq<Call>, a: nat, r: nat, id: int)
    requires a < r < |cs|
  {
    var c := cs[r];
    c.ncid != id || c.Create? || c.PutVara? || (c.PutAtt? && c.varid == NC_GLOBAL)
    || (c.EndDef? && EndedAt(cs, a, r, id).Some?)
    || ((c.DefDim? || c.DefVar?) && !Counts(cs, Trace.Defs(cs, a, r, id), c, id))
  }

  lemma IdleKeeps(f: File, cs: seq<Call>, a: nat, r: nat, id: int)
    requires a < r < |cs| && FileTied(f, cs, a, r, id) && Idle(cs, a, r, id)
    ensures FileTied(f, cs, a, r + 1, id)
  {
    var D := Trace.Defs(cs, a, r, id);
    assert Trace.Defs(cs, a, r + 1, id) == D;
    assert EndedAt(cs, a, r + 1, id) == EndedAt(cs, a, r, id);
    forall k | 0 <= k < |D| ensures EntryTied(f.defs[k], cs, D[k], a, r + 1, id, IdAt(cs, a, r + 1, id, k)) {
      assert EntryTied(f.defs[k], cs, D[k], a, r, id, IdAt(cs, a, r, id, k));
    }
  }

  // ---------- definitions, attributes, enddef ----------

  lemma Appended(f: File, cs: seq<Call>, a: nat, r: nat, id: int, d: Def)
    requires a < r < |cs| && FileTied(f, cs, a, r, id) && Counts(cs, Trace.Defs(cs, a, r, id), cs[r], id)
    requires var c := cs[r];
      if c.DefDim? then d == Dim(c.dimid, c.name, c.len, INVALID)
      else d.Var? && d.id == c.varid && d.name == c.name && d.xtype == c.xtype && d.serverId == INVALID
           && d.dimIds == c.dimids && d.atts == []
    ensures FileTied(f.(defs := f.defs + [d]), cs, a, r + 1, id)
  {
    var D := Trace.Defs(cs, a, r, id);
    assert Trace.Defs(cs, a, r + 1, id) == D + [r];
    assert EndedAt(cs, a, r + 1, id) == EndedAt(cs, a, r, id);
    if EndedAt(cs, a, r, id).Some? { DefsGrow(cs, a, EndedAt(cs, a, r, id).value, r, id); }
    var defs, D' := f.defs + [d], D + [r];
    forall k | 0 <= k < |D'| ensures EntryTied(defs[k], cs, D'[k], a, r + 1, id, IdAt(cs, a, r + 1, id, k)) {
      if k < |D| {
        assert EntryTied(f.defs[k], cs, D[k], a, r, id, IdAt(cs, a, r, id, k));
        if cs[D[k]].DefVar? { NoAttribute(cs, D[k], r, id, cs[D[k]].varid); }
      } else {
        if cs[r].DefVar? { assert AttsOf(cs, r, r + 1, id, cs[r].varid) == []; }
      }
    }
  }

  lemma NoAttribute(cs: seq<Call>, i: nat, r: nat, id: int, v: int)
    requires i < r < |cs| && !cs[r].PutAtt?
    ensures AttsOf(cs, i, r + 1, id, v) == AttsOf(cs, i, r, id, v)
  {
  }

  // Definitions only get more.
  lemma {:induction false} DefsGrow(cs: seq<Call>, a: nat, e: nat, r: nat, id: int)
    requires a < e <= r <= |cs|
    ensures Trace.Defs(cs, a, e, id) <= Trace.Defs(cs, a, r, id)
    decreases r
  {
    if e < r { DefsGrow(cs, a, e, r - 1, id); }
  }

  // A variable is defined only once.
  lemma {:induction false} OneVar(cs: seq<Call>, a: nat, r: nat, id: int, j: nat, k: nat)
    requires a < r <= |cs| && j < k < |Trace.Defs(cs, a, r, id)|
    requires cs[Trace.Defs(cs, a, r, id)[j]].DefVar? && cs[Trace.Defs(cs, a, r, id)[k]].DefVar?
    ensures cs[Trace.Defs(cs, a, r, id)[j]].varid != cs[Trace.Defs(cs, a, r, id)[k]].varid
    decreases r
  {
    var D := Trace.Defs(cs, a, r - 1, id);
    if k < |D| {
      OneVar(cs, a, r - 1, id, j, k);
    } else {
      DefsOwn(cs, a, r - 1, id);
      assert !DefinesVar(cs[D[j]], id, cs[r - 1].varid);
    }
  }

  // An attribute goes to the one variable it names.
  lemma Attached(f: File, cs: seq<Call>, a: nat, r: nat, id: int, v: nat)
    requires a < r < |cs| && FileTied(f, cs, a, r, id) && cs[r].PutAtt? && cs[r].ncid == id && cs[r].varid != NC_GLOBAL
    requires v < |f.defs| && f.defs[v].Var? && f.defs[v].id == cs[r].varid
    ensures FileTied(f.(defs := f.defs[v := f.defs[v].(atts := f.defs[v].atts + [Att(cs[r].name, cs[r].xtype, cs[r].data)])]), cs, a, r + 1, id)
  {
    var D, c := Trace.Defs(cs, a, r, id), cs[r];
    var defs := f.defs[v := f.defs[v].(atts := f.defs[v].atts + [Att(c.name, c.xtype, c.data)])];
    assert Trace.Defs(cs, a, r + 1, id) == D;
    assert EndedAt(cs, a, r + 1, id) == EndedAt(cs, a, r, id);
    forall k | 0 <= k < |D| ensures EntryTied(defs[k], cs, D[k], a, r + 1, id, IdAt(cs, a, r + 1, id, k)) {
      assert EntryTied(f.defs[k], cs, D[k], a, r, id, IdAt(cs, a, r, id, k));
      assert EntryTied(f.defs[v], cs, D[v], a, r, id, IdAt(cs, a, r, id, v));
      if k < v && cs[D[k]].DefVar? {
        OneVar(cs, a, r, id, k, v);
      } else if v < k && cs[D[k]].DefVar? {
        OneVar(cs, a, r, id, v, k);
      }
    }
  }

  // ---------- enddef ----------

  // Every dimension a definition names stands before it.
  lemma {:induction false} DimsBefore(cs: seq<Call>, a: nat, r: nat, id: int, k: nat, t: nat)
    requires a < r <= |cs| && k < |Trace.Defs(cs, a, r, id)|
    requires cs[Trace.Defs(cs, a, r, id)[k]].DefVar? && t < |cs[Trace.Defs(cs, a, r, id)[k]].dimids|
    ensures var D := Trace.Defs(cs, a, r, id);
      exists j :: 0 <= j < k && cs[D[j]].DefDim? && cs[D[j]].dimid == cs[D[k]].dimids[t]
    decreases r
  {
    var D, D' := Trace.Defs(cs, a, r - 1, id), Trace.Defs(cs, a, r, id);
    if k < |D| {
      DimsBefore(cs, a, r - 1, id, k, t);
      var j :| 0 <= j < k && cs[D[j]].DefDim? && cs[D[j]].dimid == cs[D[k]].dimids[t];
      assert D'[j] == D[j];
    } else {
      assert HasDimIn(cs, D, id, cs[r - 1].dimids[t]);
      var j :| 0 <= j < |D| && DefinesDim(cs[D[j]], id, cs[r - 1].dimids[t]);
      assert D'[j] == D[j];
    }
  }

  lemma TiedOrdered(f: File, cs: seq<Call>, a: nat, r: nat, id: int)
    requires a < r <= |cs| && FileTied(f, cs, a, r, id) && !f.dataMode
    ensures Ordered(f.defs)
  {
    var D := Trace.Defs(cs, a, r, id);
    forall k, t | 0 <= k < |f.defs| && f.defs[k].Var? && 0 <= t < |f.defs[k].dimIds|
      ensures FindDim(f.defs, f.defs[k].dimIds[t]) < k
    {
      assert EntryTied(f.defs[k], cs, D[k], a, r, id, IdAt(cs, a, r, id, k));
      DimsBefore(cs, a, r, id, k, t);
      var j :| 0 <= j < k && cs[D[j]].DefDim? && cs[D[j]].dimid == cs[D[k]].dimids[t];
      assert EntryTied(f.defs[j], cs, D[j], a, r, id, IdAt(cs, a, r, id, j));
    }
  }

  lemma {:induction false} SameAttCalls(nc: int, varId: int, atts: seq<Att>)
    ensures AttEvents(nc, varId, atts) == AttCalls(nc, varId, atts)
  {
    if atts != [] { SameAttCalls(nc, varId, atts[1..]); }
  }

  // The calls enddef makes for entry k are those the program's k-th definition asks for.
  lemma SameDefCalls(f: File, cs: seq<Call>, a: nat, r: nat, id: int, base: nat, k: nat)
    requires a < r <= |cs| && FileTied(f, cs, a, r, id) && !f.dataMode && k < |f.defs|
    ensures DefEvents(f.defs, f.serverId, base, k) == DefCalls(cs, Trace.Defs(cs, a, r, id), k, id, f.serverId, base, r)
  {
    hide AttEvents, AttCalls, FindDim, DimPlace, HasDim, HasVar, HasDimIn, HasVarIn, NextId;
    var D := Trace.Defs(cs, a, r, id);
    assert EntryTied(f.defs[k], cs, D[k], a, r, id, IdAt(cs, a, r, id, k));
    if cs[D[k]].DefVar? {
      var c := cs[D[k]];
      forall t | 0 <= t < |c.dimids| ensures IdOf(base, FindDim(f.defs, c.dimids[t])) == base + DimPlace(cs, D, c.dimids[t]) {
        HasInTable(f.defs, cs, a, r, id, c.dimids[t]);
      }
      assert seq(|c.dimids|, t requires 0 <= t < |c.dimids| => IdOf(base, FindDim(f.defs, c.dimids[t])))
          == seq(|c.dimids|, t requires 0 <= t < |c.dimids| => base + DimPlace(cs, D, c.dimids[t]));
      SameAttCalls(f.serverId, IdOf(base, k), f.defs[k].atts);
    }
  }

  lemma TiedCount(f: File, cs: seq<Call>, a: nat, r: nat, id: int)
    requires a < r <= |cs| && FileTied(f, cs, a, r, id)
    ensures |f.defs| == |Trace.Defs(cs, a, r, id)|
  {
  }

  lemma {:induction false} SameAllDefCalls(f: File, cs: seq<Call>, a: nat, r: nat, id: int, base: nat, k: nat)
    requires a < r <= |cs| && FileTied(f, cs, a, r, id) && !f.dataMode && k <= |f.defs|
    ensures AllDefEvents(f.defs, f.serverId, base, k) == AllDefCalls(cs, Trace.Defs(cs, a, r, id), k, id, f.serverId, base, r)
  {
    hide FileTied, DefEvents, DefCalls, Trace.Defs;
    TiedCount(f, cs, a, r, id);
    if k > 0 {
      SameAllDefCalls(f, cs, a, r, id, base, k - 1);
      SameDefCalls(f, cs, a, r, id, base, k - 1);
    }
  }

  lemma Ended(f: File, cs: seq<Call>, a: nat, r: nat, id: int, g: Collective.Defining, g0: Collective.Defining)
    requires a < r < |cs| && FileTied(f, cs, a, r, id) && !f.dataMode && cs[r].EndDef? && cs[r].ncid == id
    requires g0.defs == f.defs && g0.nextId == NextId(cs, r) && Progress(g0, g, f.serverId, |f.defs|)
    ensures FileTied(File(f.serverId, true, g.defs), cs, a, r + 1, id)
  {
    hide AllDefEvents;
    var D := Trace.Defs(cs, a, r, id);
    assert EndedAt(cs, a, r + 1, id) == Some(r);
    assert Trace.Defs(cs, a, r + 1, id) == D;
    forall k | 0 <= k < |D| ensures EntryTied(g.defs[k], cs, D[k], a, r + 1, id, IdAt(cs, a, r + 1, id, k)) {
      assert EntryTied(f.defs[k], cs, D[k], a, r, id, IdAt(cs, a, r, id, k));
      assert g.defs[k].serverId == IdOf(g0.nextId, k);
    }
  }

  // ---------- one round ----------

  // The other files: unchanged, and idle.
  lemma OthersKept(io: Io, io': Io, cs: seq<Call>, r: nat, id: Int32)
    requires r < |cs| && FilesTied(io, cs, r) && cs[r].ncid != id
    requires (id in io'.files <==> id in io.files) && (id in io.files ==> io'.files[id] == io.files[id])
    ensures id in io'.files <==> OpenAt(cs, r + 1, id).Some?
    ensures id in io'.files ==> FileTied(io'.files[id], cs, OpenAt(cs, r + 1, id).value, r + 1, id)
  {
    if id in io.files { IdleKeeps(io.files[id], cs, OpenAt(cs, r, id).value, r, id); }
    hide FileTied;
  }

  // What is to be shown of the file the call names, and of the ids given.
  ghost predicate StepTied(io': Io, cs: seq<Call>, r: nat)
    requires r < |cs|
  {
    var id := cs[r].ncid;
    && io'.nextId == NextId(cs, r + 1)
    && (id in io'.files <==> OpenAt(cs, r + 1, id).Some?)
    && (id in io'.files ==> FileTied(io'.files[id], cs, OpenAt(cs, r + 1, id).value, r + 1, id))
  }

  ghost predicate SameOthers(io: Io, io': Io, ncid: Int32) {
    forall id: Int32 :: id != ncid ==> (id in io'.files <==> id in io.files) && (id in io.files ==> io'.files[id] == io.files[id])
  }

  lemma StepOfAll(io: Io, io': Io, cs: seq<Call>, r: nat)
    requires r < |cs| && FilesTied(io, cs, r) && SameOthers(io, io', cs[r].ncid) && StepTied(io', cs, r)
    ensures FilesTied(io', cs, r + 1)
  {
    forall id: Int32
      ensures id in io'.files <==> OpenAt(cs, r + 1, id).Some?
      ensures id in io'.files ==> FileTied(io'.files[id], cs, OpenAt(cs, r + 1, id).value, r + 1, id)
    {
      if id != cs[r].ncid { OthersKept(io, io', cs, r, id); }
    }
    hide FileTied;
  }

  // The file a call names.
  lemma NamedFile(io: Io, cs: seq<Call>, r: nat)
    requires r < |cs| && FilesTied(io, cs, r) && cs[r].ncid in io.files
    ensures io.nextId == NextId(cs, r) && OpenAt(cs, r, cs[r].ncid).Some?
    ensures FileTied(io.files[cs[r].ncid], cs, OpenAt(cs, r, cs[r].ncid).value, r, cs[r].ncid)
    ensures !cs[r].Close? ==> OpenAt(cs, r + 1, cs[r].ncid) == OpenAt(cs, r, cs[r].ncid)
  {
  }

  lemma OneFile(io: Io, io': Io, id: Int32)
    requires id in io.files && id in io'.files && io'.files == io.files[id := io'.files[id]]
    ensures SameOthers(io, io', id)
  {
  }

  lemma CreateTied(io: Io, cs: seq<Call>, r: nat)
    requires r < |cs| && FilesTied(io, cs, r) && cs[r].Create?
    ensures StepTied(IoCreate(io, cs[r]), cs, r) && SameOthers(io, IoCreate(io, cs[r]), cs[r].ncid)
  {
    var id := cs[r].ncid;
    if id in io.files {
      IdleKeeps(io.files[id], cs, OpenAt(cs, r, id).value, r, id);
    } else {
      assert EndedAt(cs, r, r + 1, id).None?;
      assert Trace.Defs(cs, r, r + 1, id) == [];
    }
  }

  lemma DefDimTied(io: Io, cs: seq<Call>, r: nat)
    requires r < |cs| && FilesTied(io, cs, r) && cs[r].DefDim? && !NamesOwn(io, cs[r])
    ensures StepTied(IoDefDim(io, cs[r]), cs, r) && SameOthers(io, IoDefDim(io, cs[r]), cs[r].ncid)
  {
    var c, id := cs[r], cs[r].ncid;
    NoIds(cs, r);
    if id in io.files {
      hide FilesTied, SameOthers, Trace.Defs, OpenAt, NextId, EndedAt;
      NamedFile(io, cs, r);
      OneFile(io, IoDefDim(io, c), id);
      var f, a := io.files[id], OpenAt(cs, r, id).value;
      HasInTable(f.defs, cs, a, r, id, c.dimid);
      if HasDim(f.defs, c.dimid) {
        IdleKeeps(f, cs, a, r, id);
      } else {
        Appended(f, cs, a, r, id, Dim(c.dimid, c.name, c.len, INVALID));
      }
    }
    hide FileTied, HasDim;
  }

  lemma DefVarTied(io: Io, n: nat, cs: seq<Call>, r: nat)
    requires r < |cs| && FilesTied(io, cs, r) && cs[r].DefVar? && !NamesOwn(io, cs[r])
    ensures StepTied(IoDefVar(io, n, cs[r]), cs, r) && SameOthers(io, IoDefVar(io, n, cs[r]), cs[r].ncid)
  {
    var c, id := cs[r], cs[r].ncid;
    NoIds(cs, r);
    if id in io.files {
      hide FilesTied, SameOthers, Trace.Defs, OpenAt, NextId, EndedAt;
      NamedFile(io, cs, r);
      OneFile(io, IoDefVar(io, n, c), id);
      var f, a := io.files[id], OpenAt(cs, r, id).value;
      HasInTable(f.defs, cs, a, r, id, c.varid);
      forall t | 0 <= t < |c.dimids| ensures HasDim(f.defs, c.dimids[t]) <==> HasDimIn(cs, Trace.Defs(cs, a, r, id), id, c.dimids[t]) {
        HasInTable(f.defs, cs, a, r, id, c.dimids[t]);
      }
      if HasDims(f.defs, c.dimids) && !HasVar(f.defs, c.varid) {
        Appended(f, cs, a, r, id, Var(c.varid, c.name, c.xtype, c.dimids, INVALID, [], EmptySlots(n)));
      } else {
        IdleKeeps(f, cs, a, r, id);
      }
    }
    hide FileTied, HasDim, HasVar;
  }

  lemma PutAttTied(io: Io, cs: seq<Call>, r: nat)
    requires r < |cs| && FilesTied(io, cs, r) && cs[r].PutAtt? && Applicable(io, cs[r]) && !NamesOwn(io, cs[r])
    ensures StepTied(FirePutAtt(io, cs[r]), cs, r) && SameOthers(io, FirePutAtt(io, cs[r]), cs[r].ncid)
    ensures FirePutAtt(io, cs[r]).events == io.events +
      if cs[r].varid == NC_GLOBAL then
        AttCalls(NextId(cs, OpenAt(cs, r, cs[r].ncid).value), NC_GLOBAL, [Att(cs[r].name, cs[r].xtype, cs[r].data)])
      else []
  {
    hide FilesTied, DefsTied, Trace.Defs, EndedAt, NextId, AttsOf, AttCalls, FindVar, OpenAt, SameOthers;
    var c, id := cs[r], cs[r].ncid;
    NoIds(cs, r);
    NamedFile(io, cs, r);
    OneFile(io, FirePutAtt(io, c), id);
    AttTableTied(io.files[id], cs, OpenAt(cs, r, id).value, r, id);
    SameAttCall(io.files[id].serverId, NC_GLOBAL, Att(c.name, c.xtype, c.data));
  }

  // The file's table after the round.
  lemma AttTableTied(f: File, cs: seq<Call>, a: nat, r: nat, id: Int32)
    requires a < r < |cs| && FileTied(f, cs, a, r, id) && cs[r].PutAtt? && cs[r].ncid == id
    requires cs[r].varid != NC_GLOBAL ==> HasVar(f.defs, cs[r].varid)
    ensures cs[r].varid == NC_GLOBAL ==> FileTied(f, cs, a, r + 1, id)
    ensures cs[r].varid != NC_GLOBAL ==>
      var c := cs[r]; var v := FindVar(f.defs, c.varid);
      FileTied(f.(defs := f.defs[v := f.defs[v].(atts := f.defs[v].atts + [Att(c.name, c.xtype, c.data)])]), cs, a, r + 1, id)
  {
    hide FileTied;
    if cs[r].varid == NC_GLOBAL {
      IdleKeeps(f, cs, a, r, id);
    } else {
      Attached(f, cs, a, r, id, FindVar(f.defs, cs[r].varid));
    }
  }

  lemma NoIds(cs: seq<Call>, r: nat)
    requires r < |cs| && !cs[r].Create? && !cs[r].EndDef?
    ensures NextId(cs, r + 1) == NextId(cs, r)
  {
  }

  lemma SameAttCall(nc: int, varId: int, att: Att)
    ensures AttCalls(nc, varId, [att]) ==
      if att.xtype in {CFIO_CHAR, CFIO_INT, CFIO_FLOAT, CFIO_DOUBLE} then [PutAttribute(nc, varId, att)] else []
  {
    assert [att][1..] == [];
    assert AttCalls(nc, varId, [att][1..]) == [];
  }

  lemma CloseTied(io: Io, cs: seq<Call>, r: nat)
    requires r < |cs| && FilesTied(io, cs, r) && cs[r].Close? && Applicable(io, cs[r])
    ensures StepTied(FireClose(io, cs[r]), cs, r) && SameOthers(io, FireClose(io, cs[r]), cs[r].ncid)
    ensures FireClose(io, cs[r]).events == io.events + [CloseFile(NextId(cs, OpenAt(cs, r, cs[r].ncid).value))]
  {
  }

  // A later enddef does nothing.
  lemma EndedAgain(io: Io, cs: seq<Call>, r: nat)
    requires r < |cs| && FilesTied(io, cs, r) && cs[r].EndDef? && Applicable(io, cs[r]) && io.files[cs[r].ncid].dataMode
    ensures StepTied(io, cs, r)
  {
    hide DefsTied, NextId, EndedAt, Trace.Defs;
    var id := cs[r].ncid;
    var f, a := io.files[id], OpenAt(cs, r, id).value;
    assert OpenAt(cs, r + 1, id) == Some(a);
    EndDefIds(cs, r, a);
    IdleKeeps(f, cs, a, r, id);
  }

  lemma EndDefTied(io: Io, cs: seq<Call>, r: nat)
    requires r < |cs| && FilesTied(io, cs, r) && cs[r].EndDef? && Applicable(io, cs[r])
    ensures StepTied(FireEndDef(io, cs[r]), cs, r) && SameOthers(io, FireEndDef(io, cs[r]), cs[r].ncid)
    ensures var id := cs[r].ncid; var a := OpenAt(cs, r, id).value; var D := Trace.Defs(cs, a, r, id);
      FireEndDef(io, cs[r]).events == io.events +
        if EndedAt(cs, a, r, id).Some? then []
        else AllDefCalls(cs, D, |D|, id, NextId(cs, a), NextId(cs, r), r) + [EndDefine(NextId(cs, a))]
  {
    hide FilesTied, DefsTied, AllDefEvents, AllDefCalls, HandleDefs, Ordered, Progress, NextId, EndedAt, Trace.Defs, OpenAt, SameOthers;
    var c, id := cs[r], cs[r].ncid;
    NamedFile(io, cs, r);
    OneFile(io, FireEndDef(io, c), id);
    var f, a := io.files[id], OpenAt(cs, r, id).value;
    EndDefIds(cs, r, a);
    if f.dataMode {
      EndedAgain(io, cs, r);
    } else {
      EndDefinesTied(io, cs, r, id, f, a);
    }
  }

  lemma EndDefIds(cs: seq<Call>, r: nat, a: nat)
    requires r < |cs| && cs[r].EndDef? && OpenAt(cs, r, cs[r].ncid) == Some(a)
    ensures NextId(cs, r + 1) == NextId(cs, r) +
      if EndedAt(cs, a, r, cs[r].ncid).Some? then 0 else |Trace.Defs(cs, a, r, cs[r].ncid)|
  {
  }

  lemma EndDefinesTied(io: Io, cs: seq<Call>, r: nat, id: Int32, f: File, a: nat)
    requires r < |cs| && io.nextId == NextId(cs, r) && cs[r] == EndDef(id)
    requires a < r && FileTied(f, cs, a, r, id) && !f.dataMode
    ensures var g := HandleDefs(Collective.Defining(f.defs, io.events, io.nextId), f.serverId, |f.defs|);
      && FileTied(File(f.serverId, true, g.defs), cs, a, r + 1, id)
      && g.nextId == io.nextId + |Trace.Defs(cs, a, r, id)|
      && g.events == io.events + AllDefCalls(cs, Trace.Defs(cs, a, r, id), |Trace.Defs(cs, a, r, id)|, id, f.serverId, io.nextId, r)
  {
    hide AllDefEvents, AllDefCalls, HandleDefs, Ordered, NextId;
    var g0 := Collective.Defining(f.defs, io.events, io.nextId);
    TiedOrdered(f, cs, a, r, id);
    EndDefDefines(g0, f.serverId, |f.defs|);
    Ended(f, cs, a, r, id, HandleDefs(g0, f.serverId, |f.defs|), g0);
    SameAllDefCalls(f, cs, a, r, id, io.nextId, |f.defs|);
  }

  lemma {:induction false} VarPlacePrefix(cs: seq<Call>, D: seq<nat>, D': seq<nat>, v: int)
    requires D <= D' && forall k :: 0 <= k < |D'| ==> D'[k] < |cs|
    requires VarPlace(cs, D', v) < |D|
    ensures VarPlace(cs, D, v) == VarPlace(cs, D', v)
  {
    if D != [] && !(cs[D[0]].DefVar? && cs[D[0]].varid == v) { VarPlacePrefix(cs, D[1..], D'[1..], v); }
  }

  // The variable a write names, as the program defines it.
  lemma WrittenVar(io: Io, cs: seq<Call>, r: nat)
    requires r < |cs| && FilesTied(io, cs, r) && cs[r].PutVara? && Applicable(io, cs[r])
    ensures OpenAt(cs, r, cs[r].ncid).Some?
    ensures var id := cs[r].ncid; var a := OpenAt(cs, r, id).value; var ended := EndedAt(cs, a, r, id);
      && io.files[id].serverId == NextId(cs, a) && ended.Some?
      && var D := Trace.Defs(cs, a, ended.value, id); var k := VarPlace(cs, D, cs[r].varid);
      && k < |D| && cs[D[k]].DefVar? && VarOf(io, cs[r]).xtype == cs[D[k]].xtype
      && VarOf(io, cs[r]).serverId == NextId(cs, ended.value) + k
  {
    var c, id := cs[r], cs[r].ncid;
    var f, a := io.files[id], OpenAt(cs, r, id).value;
    var k, D' := FindVar(f.defs, c.varid), Trace.Defs(cs, a, r, id);
    HasInTable(f.defs, cs, a, r, id, c.varid);
    assert EntryTied(f.defs[k], cs, D'[k], a, r, id, IdAt(cs, a, r, id, k));
    var ended := EndedAt(cs, a, r, id);
    DefsGrow(cs, a, ended.value, r, id);
    VarPlacePrefix(cs, Trace.Defs(cs, a, ended.value, id), D', c.varid);
  }

  lemma PutVaraTied(io: Io, n: nat, prog: seq<seq<Call>>, r: nat)
    requires r < |prog| && forall r :: 0 <= r < |prog| ==> prog[r] != []
    requires FilesTied(io, Firsts(prog), r) && Firsts(prog)[r].PutVara?
    requires Sized(io, n) && RoundOk(io, n, prog[r]) && Quiet(io, n)
    ensures StepTied(RoundSpec(io, n, prog[r]), Firsts(prog), r) && SameOthers(io, RoundSpec(io, n, prog[r]), prog[r][0].ncid)
    ensures RoundSpec(io, n, prog[r]).events == io.events + Calls(prog, r)
  {
    hide Sized, Quiet, WriteEvents, FileTied, Trace.Defs, EndedAt, MergedCells, FindVar, NextId, NamesOwn, RoundSpec, Calls, WriteOf, Matching;
    var cs, calls := Firsts(prog), prog[r];
    var id := cs[r].ncid;
    NoIds(cs, r);
    IdleKeeps(io.files[id], cs, OpenAt(cs, r, id).value, r, id);
    PutVaraCalls(io, n, prog, r);
    RoundWrites(io, n, calls);
    PutVaraKeepsFiles(io, n, calls);
  }

  lemma PutVaraCalls(io: Io, n: nat, prog: seq<seq<Call>>, r: nat)
    requires r < |prog| && forall r :: 0 <= r < |prog| ==> prog[r] != []
    requires FilesTied(io, Firsts(prog), r) && Firsts(prog)[r].PutVara?
    requires Sized(io, n) && RoundOk(io, n, prog[r]) && Quiet(io, n)
    ensures Calls(prog, r) ==
      if VarOf(io, prog[r][0]).xtype in {CFIO_SHORT, CFIO_INT, CFIO_FLOAT, CFIO_DOUBLE} then [WriteOf(io, n, prog[r])] else []
  {
    hide Sized, Quiet, FileTied, FilesTied, Trace.Defs, EndedAt, MergedCells, FindVar, NextId, NamesOwn, Merge.Hull, Merge.Payloads, Merge.SameRank,
         BlocksOf, PayloadsOf;
    WrittenVar(io, Firsts(prog), r);
    RoundBlocks(io, n, prog[r]);
  }

  lemma PutVaraKeepsFiles(io: Io, n: nat, calls: seq<Call>)
    requires Sized(io, n) && RoundOk(io, n, calls) && Quiet(io, n) && calls[0].PutVara?
    ensures RoundSpec(io, n, calls).files == io.files && RoundSpec(io, n, calls).nextId == io.nextId
  {
    hide WriteEvents, FindVar;
  }

  lemma RoundTied(io: Io, n: nat, prog: seq<seq<Call>>, r: nat)
    requires r < |prog| && forall r :: 0 <= r < |prog| ==> prog[r] != []
    requires FilesTied(io, Firsts(prog), r) && Sized(io, n) && RoundOk(io, n, prog[r]) && Quiet(io, n)
    ensures FilesTied(RoundSpec(io, n, prog[r]), Firsts(prog), r + 1)
    ensures RoundSpec(io, n, prog[r]).events == io.events + Calls(prog, r)
  {
    hide Sized, HandleDefs, WriteEvents, FileTied, FindVar, FindDim, AllDefCalls, AttCalls, Trace.Defs, EndedAt, NextId;
    var cs := Firsts(prog);
    var c := cs[r];
    if c.Create? { CreateTied(io, cs, r); }
    else if c.DefDim? { DefDimTied(io, cs, r); }
    else if c.DefVar? { DefVarTied(io, n, cs, r); }
    else if c.PutAtt? { PutAttTied(io, cs, r); }
    else if c.EndDef? { EndDefTied(io, cs, r); }
    else if c.PutVara? { PutVaraTied(io, n, prog, r); }
    else { CloseTied(io, cs, r); }
    StepOfAll(io, RoundSpec(io, n, prog[r]), cs, r);
  }

  // ---------- whole programs ----------

  lemma {:induction false} RunTied(n: nat, prog: seq<seq<Call>>, r: nat)
    requires Sized(NoFiles(), n) && ProgramOk(NoFiles(), n, prog) && r <= |prog|
    requires forall r :: 0 <= r < |prog| ==> prog[r] != []
    ensures ProgramOk(NoFiles(), n, prog[..r])
    ensures FilesTied(SpecRun(NoFiles(), n, prog[..r]), Firsts(prog), r)
    ensures SpecRun(NoFiles(), n, prog[..r]).events == Made(prog, r)
  {
    hide Sized, RoundOk, Quiet, FileTied, ProgramOk, RoundSpec, Calls, NoFiles;
    ProgramPrefix(NoFiles(), n, prog, r);
    if r > 0 {
      RunTied(n, prog, r - 1);
      SpecRunStep(NoFiles(), n, prog, r - 1);
      RoundTied(SpecRun(NoFiles(), n, prog[..r - 1]), n, prog, r - 1);
    } else {
      EmptyTied(prog);
      assert prog[..0] == [];
    }
  }

  lemma EmptyTied(prog: seq<seq<Call>>)
    requires forall r :: 0 <= r < |prog| ==> prog[r] != []
    ensures FilesTied(NoFiles(), Firsts(prog), 0) && NoFiles().events == []
  {
  }

  /** The calls a server makes for a program are those of the trace. */
  lemma TraceCorrect(n: nat, prog: seq<seq<Call>>)
    requires Sized(NoFiles(), n) && ProgramOk(NoFiles(), n, prog)
    ensures forall r :: 0 <= r < |prog| ==> prog[r] != []
    ensures SpecRun(NoFiles(), n, prog).events == Made(prog, |prog|)
  {
    hide Sized, ProgramOk, SpecRun, Made, FilesTied;
    ProgramRounds(NoFiles(), n, prog);
    SizedPositive(NoFiles(), n);
    RunTied(n, prog, |prog|);
    assert prog[..|prog|] == prog;
  }

  /** End to end, in terms of the program alone: whatever the interleaving, the calls
      a server has made are those the trace gives for the rounds decoded so far. */
  lemma EndToEndTrace(mems: seq<seq<Byte>>, recvMems: seq<seq<Byte>>, region: nat, run: seq<EndToEnd.Action>, prog: seq<seq<Call>>)
    requires Blocks(mems, recvMems, region) && Sized(NoFiles(), |mems|)
    requires EndToEnd.Runs(StartWorld(mems, recvMems, NoFiles(), region), run, NoFiles(), region)
    requires Quiet(NoFiles(), |mems|) && ProgramOk(NoFiles(), |mems|, prog)
    requires Follows(EndToEnd.Reached(StartWorld(mems, recvMems, NoFiles(), region), run, NoFiles(), region).pairs, prog)
    ensures forall r :: 0 <= r < |prog| ==> prog[r] != []
    ensures var w := EndToEnd.Reached(StartWorld(mems, recvMems, NoFiles(), region), run, NoFiles(), region);
      && w.rounds <= |prog| && w.io.events == Made(prog, w.rounds)
      && (Exited(w, |prog|) ==> w.io.events == Made(prog, |prog|))
  {
    hide EndToEnd.WorldInv, EndToEnd.Runs, EndToEnd.Reached, Sized, Quiet, ProgramOk, SpecRun, Follows, Exited, StartPairs, Made, FilesTied, NoFiles;
    EndToEndCorrect(mems, recvMems, NoFiles(), region, run, prog);
    ProgramRounds(NoFiles(), |mems|, prog);
    SizedPositive(NoFiles(), |mems|);
    RunTied(|mems|, prog, EndToEnd.Reached(StartWorld(mems, recvMems, NoFiles(), region), run, NoFiles(), region).rounds);
  }

  // ---------- what is defined, once ----------

  predicate DefinesId(e: Event, i: int) { (e.DefineDim? || e.DefineVar?) && e.id == i }

  lemma {:induction false} AttCallsOnly(nc: int, varId: int, atts: seq<Att>)
    ensures forall x :: 0 <= x < |AttCalls(nc, varId, atts)| ==> AttCalls(nc, varId, atts)[x].PutAttribute?
  {
    if atts != [] { AttCallsOnly(nc, varId, atts[1..]); }
  }

  lemma DefCallsFirst(cs: seq<Call>, D: seq<nat>, k: nat, id: int, nc: int, base: nat, e: nat)
    requires k < |D| && e <= |cs| && forall k :: 0 <= k < |D| ==> D[k] < |cs| && (cs[D[k]].DefDim? || cs[D[k]].DefVar?)
    ensures var calls := DefCalls(cs, D, k, id, nc, base, e);
      calls != [] && forall x, i :: 0 <= x < |calls| ==> (DefinesId(calls[x], i) <==> x == 0 && i == base + k)
  {
    hide AttCalls, AttsOf, DimPlace;
    if cs[D[k]].DefVar? {
      var atts := AttsOf(cs, D[k], e, id, cs[D[k]].varid);
      AttCallsOnly(nc, base + k, atts);
      var calls := DefCalls(cs, D, k, id, nc, base, e);
      assert calls[1..] == AttCalls(nc, base + k, atts);
      forall x, i | 0 <= x < |calls| ensures DefinesId(calls[x], i) <==> x == 0 && i == base + k {
        if x > 0 { assert calls[x] == calls[1..][x - 1]; }
      }
    }
  }

  // The first m definitions, with exactly one call for the k-th.
  ghost predicate Once(calls: seq<Event>, i: int, e: Event) {
    exists x :: 0 <= x < |calls| && calls[x] == e && DefinesId(e, i) && forall y :: 0 <= y < |calls| && y != x ==> !DefinesId(calls[y], i)
  }

  lemma {:induction false} NotYet(cs: seq<Call>, D: seq<nat>, m: nat, k: nat, id: int, nc: int, base: nat, e: nat)
    requires m <= k && m <= |D| && e <= |cs| && forall k :: 0 <= k < |D| ==> D[k] < |cs| && (cs[D[k]].DefDim? || cs[D[k]].DefVar?)
    ensures forall y :: 0 <= y < |AllDefCalls(cs, D, m, id, nc, base, e)| ==> !DefinesId(AllDefCalls(cs, D, m, id, nc, base, e)[y], base + k)
  {
    hide DefCalls;
    if m > 0 {
      NotYet(cs, D, m - 1, k, id, nc, base, e);
      DefCallsFirst(cs, D, m - 1, id, nc, base, e);
    }
  }

  lemma {:induction false} DefinedOnce(cs: seq<Call>, D: seq<nat>, m: nat, k: nat, id: int, nc: int, base: nat, e: nat)
    requires k < m <= |D| && e <= |cs| && forall k :: 0 <= k < |D| ==> D[k] < |cs| && (cs[D[k]].DefDim? || cs[D[k]].DefVar?)
    ensures DefCalls(cs, D, k, id, nc, base, e) != []
    ensures Once(AllDefCalls(cs, D, m, id, nc, base, e), base + k, DefCalls(cs, D, k, id, nc, base, e)[0])
  {
    hide DefCalls;
    var before, last := AllDefCalls(cs, D, m - 1, id, nc, base, e), DefCalls(cs, D, m - 1, id, nc, base, e);
    DefCallsFirst(cs, D, m - 1, id, nc, base, e);
    if k == m - 1 {
      NotYet(cs, D, m - 1, k, id, nc, base, e);
      assert (before + last)[|before|] == last[0];
    } else {
      DefinedOnce(cs, D, m - 1, k, id, nc, base, e);
      var x :| 0 <= x < |before| && before[x] == DefCalls(cs, D, k, id, nc, base, e)[0] && DefinesId(before[x], base + k)
               && forall y :: 0 <= y < |before| && y != x ==> !DefinesId(before[y], base + k);
      assert (before + last)[x] == before[x];
    }
  }

  lemma OnceMore(calls: seq<Event>, last: Event, i: int, e: Event)
    requires Once(calls, i, e) && !DefinesId(last, i)
    ensures Once(calls + [last], i, e)
  {
    var x :| 0 <= x < |calls| && calls[x] == e && DefinesId(e, i) && forall y :: 0 <= y < |calls| && y != x ==> !DefinesId(calls[y], i);
    assert (calls + [last])[x] == e;
  }

  // What the program's definition at round q becomes at the enddef at round e.
  ghost predicate Becomes(prog: seq<seq<Call>>, q: nat, e: nat, a: nat, k: nat)
    requires a < q < e < |prog| && forall r :: 0 <= r < |prog| ==> prog[r] != []
  {
    var cs := Firsts(prog);
    var c, id, made, nc, base := cs[q], cs[q].ncid, Calls(prog, e), NextId(cs, a), NextId(cs, e);
    var D := Trace.Defs(cs, a, e, id);
    && k < |D| && D[k] == q
    && if c.DefDim? then Once(made, base + k, DefineDim(nc, c.name, c.len, base + k))
       else c.DefVar? && DimsGiven(cs, D, made, nc, base, c)
            && Once(made, base + k, DefineVar(nc, c.name, c.xtype,
                      seq(|c.dimids|, t requires 0 <= t < |c.dimids| => base + DimPlace(cs, D, c.dimids[t])), base + k))
  }

  // Each dimension id of the variable is the one given to the dimension it names.
  ghost predicate DimsGiven(cs: seq<Call>, D: seq<nat>, made: seq<Event>, nc: int, base: nat, c: Call)
    requires c.DefVar? && forall k :: 0 <= k < |D| ==> D[k] < |cs|
  {
    forall t :: 0 <= t < |c.dimids| ==>
      var j := DimPlace(cs, D, c.dimids[t]);
      && j < |D| && cs[D[j]].DefDim? && cs[D[j]].dimid == c.dimids[t]
      && Once(made, base + j, DefineDim(nc, cs[D[j]].name, cs[D[j]].len, base + j))
  }

  lemma {:induction false} DimPlaceIs(cs: seq<Call>, D: seq<nat>, dim: int, j: nat)
    requires forall k :: 0 <= k < |D| ==> D[k] < |cs|
    requires j < |D| && cs[D[j]].DefDim? && cs[D[j]].dimid == dim
    ensures var p := DimPlace(cs, D, dim); p <= j && cs[D[p]].DefDim? && cs[D[p]].dimid == dim
  {
    if !(cs[D[0]].DefDim? && cs[D[0]].dimid == dim) { DimPlaceIs(cs, D[1..], dim, j - 1); }
  }

  lemma EndDefOnceEach(prog: seq<seq<Call>>, e: nat, a: nat, k: nat)
    requires a < e < |prog| && forall r :: 0 <= r < |prog| ==> prog[r] != []
    requires var cs := Firsts(prog); cs[e].EndDef? && OpenAt(cs, e, cs[e].ncid) == Some(a) && EndedAt(cs, a, e, cs[e].ncid).None?
    requires k < |Trace.Defs(Firsts(prog), a, e, Firsts(prog)[e].ncid)|
    ensures var cs := Firsts(prog); var D := Trace.Defs(cs, a, e, cs[e].ncid);
      var calls := DefCalls(cs, D, k, cs[e].ncid, NextId(cs, a), NextId(cs, e), e);
      calls != [] && Once(Calls(prog, e), NextId(cs, e) + k, calls[0])
  {
    hide DefCalls, Trace.Defs, NextId, EndedAt, Once, AllDefCalls;
    var cs := Firsts(prog);
    var id := cs[e].ncid;
    var D := Trace.Defs(cs, a, e, id);
    DefinedOnce(cs, D, |D|, k, id, NextId(cs, a), NextId(cs, e), e);
    OnceMore(AllDefCalls(cs, D, |D|, id, NextId(cs, a), NextId(cs, e), e), EndDefine(NextId(cs, a)), NextId(cs, e) + k,
             DefCalls(cs, D, k, id, NextId(cs, a), NextId(cs, e), e)[0]);
  }

  // The place of a dimension a variable names is that of a dimension with that id.
  lemma PlaceOfDim(cs: seq<Call>, a: nat, r: nat, id: int, k: nat, t: nat)
    requires a < r <= |cs|
    requires var D := Trace.Defs(cs, a, r, id); k < |D| && cs[D[k]].DefVar? && t < |cs[D[k]].dimids|
    ensures var D := Trace.Defs(cs, a, r, id); var j := DimPlace(cs, D, cs[D[k]].dimids[t]);
      j < k && cs[D[j]].DefDim? && cs[D[j]].dimid == cs[D[k]].dimids[t]
  {
    hide DimPlace;
    var D := Trace.Defs(cs, a, r, id);
    DimsBefore(cs, a, r, id, k, t);
    var j :| 0 <= j < k && cs[D[j]].DefDim? && cs[D[j]].dimid == cs[D[k]].dimids[t];
    DimPlaceIs(cs, D, cs[D[k]].dimids[t], j);
  }

  // Each dimension a defined variable names is among the definitions, and is made once.
  lemma DimsGivenAt(prog: seq<seq<Call>>, e: nat, a: nat, k: nat)
    requires a < e < |prog| && forall r :: 0 <= r < |prog| ==> prog[r] != []
    requires var cs := Firsts(prog); cs[e].EndDef? && OpenAt(cs, e, cs[e].ncid) == Some(a) && EndedAt(cs, a, e, cs[e].ncid).None?
    requires var cs := Firsts(prog); var D := Trace.Defs(cs, a, e, cs[e].ncid); k < |D| && cs[D[k]].DefVar?
    ensures var cs := Firsts(prog); var D := Trace.Defs(cs, a, e, cs[e].ncid);
      DimsGiven(cs, D, Calls(prog, e), NextId(cs, a), NextId(cs, e), cs[D[k]])
  {
    hide Calls, NextId, EndedAt, Once, OpenAt, Trace.Defs, DimPlace, AttCalls;
    var cs := Firsts(prog);
    var D := Trace.Defs(cs, a, e, cs[e].ncid);
    forall t | 0 <= t < |cs[D[k]].dimids|
      ensures var j := DimPlace(cs, D, cs[D[k]].dimids[t]);
        && j < |D| && cs[D[j]].DefDim? && cs[D[j]].dimid == cs[D[k]].dimids[t]
        && Once(Calls(prog, e), NextId(cs, e) + j, DefineDim(NextId(cs, a), cs[D[j]].name, cs[D[j]].len, NextId(cs, e) + j))
    {
      PlaceOfDim(cs, a, e, cs[e].ncid, k, t);
      EndDefOnceEach(prog, e, a, DimPlace(cs, D, cs[D[k]].dimids[t]));
    }
  }

  // A definition that counts stays where it is among the definitions.
  lemma PlaceKept(cs: seq<Call>, a: nat, q: nat, e: nat, id: int)
    requires a < q < e <= |cs| && Counts(cs, Trace.Defs(cs, a, q, id), cs[q], id)
    ensures var k := |Trace.Defs(cs, a, q, id)|; k < |Trace.Defs(cs, a, e, id)| && Trace.Defs(cs, a, e, id)[k] == q
  {
    DefsGrow(cs, a, q + 1, e, id);
    assert Trace.Defs(cs, a, q + 1, id) == Trace.Defs(cs, a, q, id) + [q];
  }

  lemma BecomesDefined(prog: seq<seq<Call>>, q: nat, e: nat, a: nat)
    requires a < q < e < |prog| && forall r :: 0 <= r < |prog| ==> prog[r] != []
    requires var cs := Firsts(prog); var id := cs[q].ncid;
      && OpenAt(cs, e, id) == Some(a) && EndedAt(cs, a, e, id).None? && cs[e] == EndDef(id)
      && Counts(cs, Trace.Defs(cs, a, q, id), cs[q], id)
    ensures Becomes(prog, q, e, a, |Trace.Defs(Firsts(prog), a, q, Firsts(prog)[q].ncid)|)
  {
    hide Calls, NextId, EndedAt, Once, OpenAt, Trace.Defs, DimsGiven, AttCalls, DimPlace;
    var cs := Firsts(prog);
    var k := |Trace.Defs(cs, a, q, cs[q].ncid)|;
    PlaceKept(cs, a, q, e, cs[q].ncid);
    EndDefOnceEach(prog, e, a, k);
    if cs[q].DefVar? { DimsGivenAt(prog, e, a, k); }
  }

  /** A definition that counts is made exactly once, at the enddef of its file, with
      the name, length or type of the call; a variable gets, dimension by dimension,
      the ids given to the dimensions its call names. */
  lemma DefinedAtEndDef(n: nat, prog: seq<seq<Call>>, q: nat, e: nat, a: nat)
    requires Sized(NoFiles(), n) && ProgramOk(NoFiles(), n, prog) && a < q < e < |prog|
    requires forall r :: 0 <= r < |prog| ==> prog[r] != []
    requires var cs := Firsts(prog); var id := cs[q].ncid;
      && OpenAt(cs, e, id) == Some(a) && EndedAt(cs, a, e, id).None? && cs[e] == EndDef(id)
      && Counts(cs, Trace.Defs(cs, a, q, id), cs[q], id)
    ensures Becomes(prog, q, e, a, |Trace.Defs(Firsts(prog), a, q, Firsts(prog)[q].ncid)|)
    ensures ProgramOk(NoFiles(), n, prog[..e]) && ProgramOk(NoFiles(), n, prog[..e + 1])
    ensures SpecRun(NoFiles(), n, prog[..e + 1]).events == SpecRun(NoFiles(), n, prog[..e]).events + Calls(prog, e)
  {
    hide Sized, ProgramOk, SpecRun, Calls, FilesTied, NextId, EndedAt, Once, NoFiles, OpenAt, Trace.Defs, Counts, Becomes;
    RunTied(n, prog, e);
    RunTied(n, prog, e + 1);
    BecomesDefined(prog, q, e, a);
  }

  // ---------- attributes, once each and in order ----------

  // The attribute calls among the events for one variable.
  function Puts(events: seq<Event>, v: int): seq<Event> {
    if events == [] then [] else PutOf(events[0], v) + Puts(events[1..], v)
  }

  function PutOf(e: Event, v: int): seq<Event> { if e.PutAttribute? && e.varId == v then [e] else [] }

  lemma PutsFirst(e: Event, rest: seq<Event>, v: int)
    ensures Puts([e] + rest, v) == PutOf(e, v) + Puts(rest, v)
  {
    assert ([e] + rest)[1..] == rest;
  }

  lemma {:induction false} PutsConcat(a: seq<Event>, b: seq<Event>, v: int)
    ensures Puts(a + b, v) == Puts(a, v) + Puts(b, v)
  {
    hide PutOf;
    if a == [] {
      assert a + b == b;
    } else {
      hide Puts;
      PutsConcat(a[1..], b, v);
      PutsFirst(a[0], a[1..], v);
      PutsFirst(a[0], a[1..] + b, v);
      assert a == [a[0]] + a[1..];
      assert a + b == [a[0]] + (a[1..] + b);
    }
  }

  lemma {:induction false} AttCallsConcat(nc: int, v: int, a: seq<Att>, b: seq<Att>)
    ensures AttCalls(nc, v, a + b) == AttCalls(nc, v, a) + AttCalls(nc, v, b)
  {
    if a == [] {
      assert a + b == b;
    } else {
      AttCallsConcat(nc, v, a[1..], b);
      assert (a + b)[1..] == a[1..] + b;
      var first := AttCalls(nc, v, [a[0]]);
      SameAttCall(nc, v, a[0]);
      assert AttCalls(nc, v, a + b) == first + AttCalls(nc, v, a[1..] + b);
      assert AttCalls(nc, v, a) == first + AttCalls(nc, v, a[1..]);
    }
  }

  lemma {:induction false} PutsOfAtts(nc: int, v: int, w: int, atts: seq<Att>)
    ensures Puts(AttCalls(nc, v, atts), w) == if v == w then AttCalls(nc, v, atts) else []
  {
    if atts != [] {
      PutsOfAtts(nc, v, w, atts[1..]);
      var rest := AttCalls(nc, v, atts[1..]);
      if AttCalls(nc, v, atts) != rest {
        assert AttCalls(nc, v, atts)[1..] == rest;
      }
    }
  }

  lemma PutsOfDef(cs: seq<Call>, D: seq<nat>, k: nat, id: int, nc: int, base: nat, e: nat, w: int)
    requires k < |D| && e <= |cs| && forall k :: 0 <= k < |D| ==> D[k] < |cs| && (cs[D[k]].DefDim? || cs[D[k]].DefVar?)
    ensures Puts(DefCalls(cs, D, k, id, nc, base, e), w) ==
      if cs[D[k]].DefVar? && w == base + k then AttCalls(nc, base + k, AttsOf(cs, D[k], e, id, cs[D[k]].varid)) else []
  {
    hide AttCalls, AttsOf, DimPlace;
    var calls := DefCalls(cs, D, k, id, nc, base, e);
    if cs[D[k]].DefVar? {
      var atts := AttsOf(cs, D[k], e, id, cs[D[k]].varid);
      assert calls[1..] == AttCalls(nc, base + k, atts);
      PutsOfAtts(nc, base + k, w, atts);
    }
  }

  lemma NoPuts(v: int)
    ensures Puts([], v) == []
  {
  }

  lemma AllDefCallsStep(cs: seq<Call>, D: seq<nat>, m: nat, id: int, nc: int, base: nat, e: nat)
    requires m <= |D| && e <= |cs| && forall k :: 0 <= k < |D| ==> D[k] < |cs| && (cs[D[k]].DefDim? || cs[D[k]].DefVar?)
    ensures AllDefCalls(cs, D, m, id, nc, base, e) ==
      if m == 0 then [] else AllDefCalls(cs, D, m - 1, id, nc, base, e) + DefCalls(cs, D, m - 1, id, nc, base, e)
  {
  }

  lemma {:induction false} PutsOfDefs(cs: seq<Call>, D: seq<nat>, m: nat, k: nat, id: int, nc: int, base: nat, e: nat)
    requires k < |D| && m <= |D| && e <= |cs|
    requires forall k :: 0 <= k < |D| ==> D[k] < |cs| && (cs[D[k]].DefDim? || cs[D[k]].DefVar?)
    ensures Puts(AllDefCalls(cs, D, m, id, nc, base, e), base + k) ==
      if cs[D[k]].DefVar? && k < m then AttCalls(nc, base + k, AttsOf(cs, D[k], e, id, cs[D[k]].varid)) else []
  {
    hide AttCalls, AttsOf, DefCalls, Puts, AllDefCalls;
    AllDefCallsStep(cs, D, m, id, nc, base, e);
    if m > 0 {
      PutsOfDefs(cs, D, m - 1, k, id, nc, base, e);
      PutsOfDef(cs, D, m - 1, id, nc, base, e, base + k);
      PutsConcat(AllDefCalls(cs, D, m - 1, id, nc, base, e), DefCalls(cs, D, m - 1, id, nc, base, e), base + k);
    } else {
      assert Puts([], base + k) == [] by { NoPuts(base + k); }
    }
  }

  // A put_att round stands between the attributes put before it and those put after it.
  lemma {:induction false} AttsSplit(cs: seq<Call>, i: nat, p: nat, r: nat, id: int, v: int)
    requires i < p < r <= |cs| && cs[p].PutAtt? && cs[p].ncid == id && cs[p].varid == v && v != NC_GLOBAL
    ensures AttsOf(cs, i, r, id, v) == AttsOf(cs, i, p, id, v) + [Att(cs[p].name, cs[p].xtype, cs[p].data)] + AttsOf(cs, p, r, id, v)
    decreases r
  {
    if r > p + 1 { AttsSplit(cs, i, p, r - 1, id, v); }
  }

  lemma EndDefPuts(prog: seq<seq<Call>>, e: nat, a: nat, k: nat)
    requires a < e < |prog| && forall r :: 0 <= r < |prog| ==> prog[r] != []
    requires var cs := Firsts(prog); cs[e].EndDef? && OpenAt(cs, e, cs[e].ncid) == Some(a) && EndedAt(cs, a, e, cs[e].ncid).None?
    requires var cs := Firsts(prog); var D := Trace.Defs(cs, a, e, cs[e].ncid); k < |D| && cs[D[k]].DefVar?
    ensures var cs := Firsts(prog); var D := Trace.Defs(cs, a, e, cs[e].ncid);
      Puts(Calls(prog, e), NextId(cs, e) + k) == AttCalls(NextId(cs, a), NextId(cs, e) + k, AttsOf(cs, D[k], e, cs[e].ncid, cs[D[k]].varid))
  {
    hide Trace.Defs, NextId, EndedAt, AllDefCalls, AttCalls, AttsOf, Puts;
    var cs := Firsts(prog);
    var id := cs[e].ncid;
    var D := Trace.Defs(cs, a, e, id);
    PutsOfDefs(cs, D, |D|, k, id, NextId(cs, a), NextId(cs, e), e);
    PutsConcat(AllDefCalls(cs, D, |D|, id, NextId(cs, a), NextId(cs, e), e), [EndDefine(NextId(cs, a))], NextId(cs, e) + k);
    NoPut(NextId(cs, a), NextId(cs, e) + k);
  }

  lemma NoPut(nc: int, v: int)
    ensures Puts([EndDefine(nc)], v) == []
  {
    assert [EndDefine(nc)][1..] == [];
  }

  /** An attribute put on a variable between its definition, at round q, and the
      file's enddef, at round e, is written there once, under the variable's id: after
      those put before it, before those put after it, if its type has a put function. */
  lemma AttributeAtEndDef(n: nat, prog: seq<seq<Call>>, q: nat, p: nat, e: nat, a: nat)
    requires Sized(NoFiles(), n) && ProgramOk(NoFiles(), n, prog) && a < q < p < e < |prog|
    requires forall r :: 0 <= r < |prog| ==> prog[r] != []
    requires var cs := Firsts(prog); var id := cs[q].ncid;
      && OpenAt(cs, e, id) == Some(a) && EndedAt(cs, a, e, id).None? && cs[e] == EndDef(id)
      && cs[q].DefVar? && Counts(cs, Trace.Defs(cs, a, q, id), cs[q], id)
      && cs[p].PutAtt? && cs[p].ncid == id && cs[p].varid == cs[q].varid != NC_GLOBAL
    ensures ProgramOk(NoFiles(), n, prog[..e]) && ProgramOk(NoFiles(), n, prog[..e + 1])
    ensures SpecRun(NoFiles(), n, prog[..e + 1]).events == SpecRun(NoFiles(), n, prog[..e]).events + Calls(prog, e)
    ensures var cs := Firsts(prog); var id := cs[q].ncid; var v := cs[q].varid; var nc := NextId(cs, a);
      var varId := NextId(cs, e) + |Trace.Defs(cs, a, q, id)|;
      Puts(Calls(prog, e), varId) ==
        AttCalls(nc, varId, AttsOf(cs, q, p, id, v))
        + (if cs[p].xtype in {CFIO_CHAR, CFIO_INT, CFIO_FLOAT, CFIO_DOUBLE}
           then [PutAttribute(nc, varId, Att(cs[p].name, cs[p].xtype, cs[p].data))] else [])
        + AttCalls(nc, varId, AttsOf(cs, p, e, id, v))
  {
    hide Sized, ProgramOk, SpecRun, Calls, FilesTied, NextId, EndedAt, Once, NoFiles, OpenAt, Trace.Defs, Counts, Becomes, AttsOf, Puts, AttCalls;
    RunTied(n, prog, e);
    RunTied(n, prog, e + 1);
    var cs := Firsts(prog);
    var id, v, nc := cs[q].ncid, cs[q].varid, NextId(cs, a);
    var k := |Trace.Defs(cs, a, q, id)|;
    PlaceKept(cs, a, q, e, id);
    EndDefPuts(prog, e, a, k);
    AttsSplit(cs, q, p, e, id, v);
    var att := Att(cs[p].name, cs[p].xtype, cs[p].data);
    AttCallsConcat(nc, NextId(cs, e) + k, AttsOf(cs, q, p, id, v) + [att], AttsOf(cs, p, e, id, v));
    AttCallsConcat(nc, NextId(cs, e) + k, AttsOf(cs, q, p, id, v), [att]);
    SameAttCall(nc, NextId(cs, e) + k, att);
  }
}
