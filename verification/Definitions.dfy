/** Deferred definitions: dimensions and variables are collected in order and
    defined at enddef, where client dimension ids become server ids. */
module Definitions {
  import opened Merge
  import opened Wire
  import opened Collective
  import opened Rounds

  // In a file still in define mode every dimension a variable names stands
  // before the variable in the list.
  ghost predicate Ordered(defs: seq<Def>) {
    forall j :: 0 <= j < |defs| ==> defs[j].Var? ==>
      forall t :: 0 <= t < |defs[j].dimIds| ==> FindDim(defs, defs[j].dimIds[t]) < j
  }

  ghost predicate FilesOrdered(io: Io) {
    forall id :: id in io.files && !io.files[id].dataMode ==> Ordered(io.files[id].defs)
  }

  // ---------- every message keeps the order ----------

  lemma {:induction false} FindDimAppend(defs: seq<Def>, d: Def, id: int)
    ensures FindDim(defs, id) < |defs| ==> FindDim(defs + [d], id) == FindDim(defs, id)
    ensures FindDim(defs, id) == |defs| ==> FindDim(defs + [d], id) >= |defs|
  {
    if defs != [] && !(defs[0].Dim? && defs[0].id == id) {
      FindDimAppend(defs[1..], d, id);
      assert (defs + [d])[1..] == defs[1..] + [d];
    }
  }

  lemma {:induction false} FindDimSame(defs: seq<Def>, defs': seq<Def>, id: int)
    requires |defs| == |defs'|
    requires forall j :: 0 <= j < |defs| ==> defs[j].Dim? == defs'[j].Dim? && defs[j].id == defs'[j].id
    ensures FindDim(defs', id) == FindDim(defs, id)
  {
    if defs != [] && !(defs[0].Dim? && defs[0].id == id) {
      FindDimSame(defs[1..], defs'[1..], id);
    }
  }

  lemma AppendOrdered(defs: seq<Def>, d: Def)
    requires Ordered(defs)
    requires d.Var? ==> forall t :: 0 <= t < |d.dimIds| ==> HasDim(defs, d.dimIds[t])
    ensures Ordered(defs + [d])
  {
    var all := defs + [d];
    forall j, t | 0 <= j < |all| && all[j].Var? && 0 <= t < |all[j].dimIds|
      ensures FindDim(all, all[j].dimIds[t]) < j
    {
      if j < |defs| { assert all[j] == defs[j]; }
      FindDimAppend(defs, d, all[j].dimIds[t]);
    }
  }

  // Attributes and slots do not affect the order.
  lemma SameOrdered(defs: seq<Def>, v: nat, d: Def)
    requires Ordered(defs) && v < |defs| && defs[v].Var? && d.Var? && d.id == defs[v].id && d.dimIds == defs[v].dimIds
    ensures Ordered(defs[v := d])
  {
    var all := defs[v := d];
    forall j, t | 0 <= j < |all| && all[j].Var? && 0 <= t < |all[j].dimIds|
      ensures FindDim(all, all[j].dimIds[t]) < j
    {
      FindDimSame(defs, all, all[j].dimIds[t]);
    }
  }

  lemma PutVaraOrdered(io: Io, n: nat, slot: nat, c: Call)
    requires Sized(io, n) && slot < n && c.PutVara? && FilesOrdered(io)
    ensures FilesOrdered(Handle(io, n, slot, c))
  {
    hide Ordered, Ready, WriteEvents;
    var key := Key(FUNC_NC_PUT_VARA, c.ncid, c.varid);
    var a := Arrive(io, n, key, slot);
    if c.ncid in io.files && HasVar(io.files[c.ncid].defs, c.varid) {
      var v := FindVar(io.files[c.ncid].defs, c.varid);
      var s := StoreSlot(a, c, v, slot);
      var d, d' := io.files[c.ncid].defs[v], s.files[c.ncid].defs[v];
      if !io.files[c.ncid].dataMode {
        SameOrdered(io.files[c.ncid].defs, v, d');
        SameOrdered(s.files[c.ncid].defs, v, d'.(slots := EmptySlots(|d'.slots|)));
      }
    }
  }

  lemma PutAttOrdered(io: Io, n: nat, slot: nat, c: Call)
    requires Sized(io, n) && slot < n && c.PutAtt? && FilesOrdered(io)
    ensures FilesOrdered(Handle(io, n, slot, c))
  {
    hide Ordered;
    if c.ncid in io.files && HasVar(io.files[c.ncid].defs, c.varid) && !io.files[c.ncid].dataMode {
      var defs := io.files[c.ncid].defs;
      var v := FindVar(defs, c.varid);
      SameOrdered(defs, v, defs[v].(atts := defs[v].atts + [Att(c.name, c.xtype, c.data)]));
    }
  }

  lemma DefOrdered(io: Io, n: nat, c: Call)
    requires Sized(io, n) && FilesOrdered(io)
    ensures c.DefDim? ==> FilesOrdered(IoDefDim(io, c))
    ensures c.DefVar? ==> FilesOrdered(IoDefVar(io, n, c))
  {
    hide Ordered;
    if c.DefDim? && c.ncid in io.files && !io.files[c.ncid].dataMode {
      AppendOrdered(io.files[c.ncid].defs, Dim(c.dimid, c.name, c.len, INVALID));
    }
    if c.DefVar? && c.ncid in io.files && !io.files[c.ncid].dataMode && HasDims(io.files[c.ncid].defs, c.dimids) {
      AppendOrdered(io.files[c.ncid].defs, Var(c.varid, c.name, c.xtype, c.dimids, INVALID, [], EmptySlots(n)));
    }
  }

  /** In every reachable state dimensions precede the variables that use them. */
  lemma HandleOrdered(io: Io, n: nat, slot: nat, c: Call)
    requires Sized(io, n) && slot < n && FilesOrdered(io)
    ensures FilesOrdered(Handle(io, n, slot, c))
  {
    if c.PutVara? { PutVaraOrdered(io, n, slot, c); }
    else if c.PutAtt? { PutAttOrdered(io, n, slot, c); }
    else if c.DefDim? || c.DefVar? { DefOrdered(io, n, c); }
    hide Ordered, HandleDefs, FirePutVara, FirePutAtt, FindVar;
    if c.Create? { EmptyOrdered(); }
  }

  lemma EmptyOrdered()
    ensures Ordered([])
  {
  }

  // ---------- enddef ----------

  // The server id of list entry k, when definition starts at `base`.
  function IdOf(base: nat, k: nat): nat { base + k }

  // The calls for entry k: dimension ids are those the named dimensions got.
  function DefEvents(defs: seq<Def>, nc: int, base: nat, k: nat): seq<Event>
    requires k < |defs|
  {
    match defs[k]
    case Dim(_, name, len, _) => [DefineDim(nc, name, len, IdOf(base, k))]
    case Var(_, name, xtype, dimIds, _, atts, _) =>
      [DefineVar(nc, name, xtype, seq(|dimIds|, t requires 0 <= t < |dimIds| => IdOf(base, FindDim(defs, dimIds[t]))), IdOf(base, k))]
      + AttEvents(nc, IdOf(base, k), atts)
  }

  function AllDefEvents(defs: seq<Def>, nc: int, base: nat, k: nat): seq<Event>
    requires k <= |defs|
  {
    if k == 0 then [] else AllDefEvents(defs, nc, base, k - 1) + DefEvents(defs, nc, base, k - 1)
  }

  // The first k entries carry their server ids, the rest is as it was.
  ghost predicate Progress(g0: Defining, g: Defining, nc: int, k: nat) {
    && k <= |g0.defs| == |g.defs|
    && g.nextId == g0.nextId + k
    && g.events == g0.events + AllDefEvents(g0.defs, nc, g0.nextId, k)
    && (forall j :: 0 <= j < k ==> g.defs[j].serverId == IdOf(g0.nextId, j))
    && (forall j :: 0 <= j < |g.defs| ==>
          g.defs[j].Dim? == g0.defs[j].Dim? && g.defs[j].id == g0.defs[j].id && g.defs[j].name == g0.defs[j].name)
    && (forall j :: 0 <= j < |g.defs| ==>
          if g.defs[j].Dim? then g.defs[j].len == g0.defs[j].len else g.defs[j].xtype == g0.defs[j].xtype)
    && (forall j :: k <= j < |g.defs| ==> g.defs[j] == g0.defs[j])
    && (forall j :: 0 <= j < k && g.defs[j].Var? ==> |g.defs[j].dimIds| == |g0.defs[j].dimIds|)
    && (forall j, t :: 0 <= j < k && g.defs[j].Var? && 0 <= t < |g.defs[j].dimIds| ==>
          g.defs[j].dimIds[t] == IdOf(g0.nextId, FindDim(g0.defs, g0.defs[j].dimIds[t])))
  }

  lemma HandleDefProgress(g0: Defining, g: Defining, nc: int, k: nat)
    requires Ordered(g0.defs) && Progress(g0, g, nc, k) && k < |g.defs|
    ensures Progress(g0, HandleDef(g, nc, k), nc, k + 1)
  {
    hide AttEvents, FindDim, DefEvents, Translate;
    if g.defs[k].Var? { TranslatesTo(g0, g, nc, k); }
    DefAppends(g0, g, nc, k);
    OneMoreDef(g0.defs, nc, g0.nextId, k);
    hide Ordered, AllDefEvents;
  }

  lemma OneMoreDef(defs: seq<Def>, nc: int, base: nat, k: nat)
    requires k < |defs|
    ensures AllDefEvents(defs, nc, base, k + 1) == AllDefEvents(defs, nc, base, k) + DefEvents(defs, nc, base, k)
  {
  }

  // Every dimension the entry names already has its server id.
  lemma TranslatesTo(g0: Defining, g: Defining, nc: int, k: nat)
    requires Ordered(g0.defs) && Progress(g0, g, nc, k) && k < |g.defs| && g.defs[k].Var?
    ensures forall t :: 0 <= t < |g.defs[k].dimIds| ==>
      Translate(g.defs, g.defs[k].dimIds)[t] == IdOf(g0.nextId, FindDim(g0.defs, g.defs[k].dimIds[t]))
  {
    hide AllDefEvents, AttEvents;
    var d := g.defs[k];
    forall t | 0 <= t < |d.dimIds| ensures Translate(g.defs, d.dimIds)[t] == IdOf(g0.nextId, FindDim(g0.defs, d.dimIds[t])) {
      FindDimSame(g0.defs, g.defs, d.dimIds[t]);
    }
  }

  lemma DefAppends(g0: Defining, g: Defining, nc: int, k: nat)
    requires Progress(g0, g, nc, k) && k < |g.defs| && g.nextId == IdOf(g0.nextId, k)
    requires g.defs[k].Var? ==> forall t :: 0 <= t < |g.defs[k].dimIds| ==>
      Translate(g.defs, g.defs[k].dimIds)[t] == IdOf(g0.nextId, FindDim(g0.defs, g.defs[k].dimIds[t]))
    ensures HandleDef(g, nc, k).events == g.events + DefEvents(g0.defs, nc, g0.nextId, k)
  {
    hide AttEvents, FindDim, AllDefEvents, Translate;
    var d := g.defs[k];
    if d.Var? {
      assert Translate(g.defs, d.dimIds)
          == seq(|d.dimIds|, t requires 0 <= t < |d.dimIds| => IdOf(g0.nextId, FindDim(g0.defs, d.dimIds[t])));
    }
  }

  /** enddef defines every entry once, in list order, under fresh ids, and hands
      each variable the ids its dimensions have just been given. */
  lemma {:induction false} EndDefDefines(g0: Defining, nc: int, k: nat)
    requires Ordered(g0.defs) && k <= |g0.defs|
    ensures Progress(g0, HandleDefs(g0, nc, k), nc, k)
  {
    if k > 0 {
      EndDefDefines(g0, nc, k - 1);
      HandleDefProgress(g0, HandleDefs(g0, nc, k - 1), nc, k - 1);
    }
  }

  /** A collective enddef emits all definitions of the file and then closes define
      mode; once it has, another enddef emits nothing. */
  lemma EndDefOnce(io: Io, c: Call)
    requires c.EndDef? && c.ncid in io.files && FilesOrdered(io)
    ensures var f := io.files[c.ncid];
      FireEndDef(io, c).events == io.events +
        (if f.dataMode then [] else AllDefEvents(f.defs, f.serverId, io.nextId, |f.defs|) + [EndDefine(f.serverId)])
    ensures c.ncid in FireEndDef(io, c).files && FireEndDef(io, c).files[c.ncid].dataMode
    ensures FireEndDef(FireEndDef(io, c), c).events == FireEndDef(io, c).events
  {
    var f := io.files[c.ncid];
    if !f.dataMode {
      EndDefDefines(Defining(f.defs, io.events, io.nextId), f.serverId, |f.defs|);
    }
  }

  // Any sequence of messages, from any slots, in any order.
  ghost function HandleAll(io: Io, n: nat, msgs: seq<(nat, Call)>): (io': Io)
    requires Sized(io, n) && forall i :: 0 <= i < |msgs| ==> msgs[i].0 < n
    ensures Sized(io', n)
  {
    hide Handle, Sized;
    if msgs == [] then io
    else
      var last := |msgs| - 1;
      var before := HandleAll(io, n, msgs[..last]);
      HandleSized(before, n, msgs[last].0, msgs[last].1);
      Handle(before, n, msgs[last].0, msgs[last].1)
  }

  lemma {:induction false} ReachableOrdered(io: Io, n: nat, msgs: seq<(nat, Call)>)
    requires Sized(io, n) && FilesOrdered(io) && forall i :: 0 <= i < |msgs| ==> msgs[i].0 < n
    ensures FilesOrdered(HandleAll(io, n, msgs))
  {
    hide Handle, Sized, FilesOrdered;
    if msgs != [] {
      var last := |msgs| - 1;
      ReachableOrdered(io, n, msgs[..last]);
      HandleOrdered(HandleAll(io, n, msgs[..last]), n, msgs[last].0, msgs[last].1);
    }
  }
}
