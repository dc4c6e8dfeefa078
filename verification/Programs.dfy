/** What a whole run delivers, in terms of the program the clients follow: each
    call performed once, each array written whole, nothing left at exit. */
module Programs {
  import opened Bytes
  import opened Boxes
  import opened Wire
  import opened Stream
  import opened StreamInvariant
  import opened StreamRuns
  import opened Collective
  import opened Rounds
  import opened EndToEnd
  import RecvQueue
  import Rings
  import Merge
  import Grid
  import Tiling

  // ---------- the start ----------

  // The clients' rings and their receive rings. A client's region is as large as
  // its receive ring; a larger one would do as well.
  ghost predicate Blocks(mems: seq<seq<Byte>>, recvMems: seq<seq<Byte>>, region: nat) {
    |mems| == |recvMems| && forall i :: 0 <= i < |mems| ==> |mems[i]| > 0 && 0 < |recvMems[i]| <= region
  }

  ghost function StartPairs(mems: seq<seq<Byte>>, recvMems: seq<seq<Byte>>, region: nat): (pairs: seq<Pair>)
    requires Blocks(mems, recvMems, region)
    ensures |pairs| == |mems|
  {
    seq(|mems|, i requires 0 <= i < |mems| => Start(mems[i], recvMems[i]))
  }

  ghost function StartWorld(mems: seq<seq<Byte>>, recvMems: seq<seq<Byte>>, io0: Io, region: nat): (w: World)
    requires Blocks(mems, recvMems, region) && Sized(io0, |mems|)
    ensures WorldInv(w, io0, region) && |w.pairs| == |mems|
  {
    hide Sized, WorldInv;
    StartWorldInv(mems, recvMems, io0, region);
    World(StartPairs(mems, recvMems, region), io0, 0)
  }

  lemma StartPairOk(mem: seq<Byte>, recvMem: seq<Byte>, region: nat)
    requires |mem| > 0 && 0 < |recvMem| <= region
    ensures PairOk(Start(mem, recvMem), 0, region) && Start(mem, recvMem).s.recv.q == []
  {
    hide Inv;
  }

  lemma StartWorldInv(mems: seq<seq<Byte>>, recvMems: seq<seq<Byte>>, io0: Io, region: nat)
    requires Blocks(mems, recvMems, region) && Sized(io0, |mems|)
    ensures WorldInv(World(StartPairs(mems, recvMems, region), io0, 0), io0, region)
    ensures !AllWaiting(StartPairs(mems, recvMems, region))
  {
    var pairs := StartPairs(mems, recvMems, region);
    hide PairOk, Sized, Start;
    forall i | 0 <= i < |pairs| ensures PairOk(pairs[i], 0, region) && pairs[i].s.recv.q == [] {
      StartPairOk(mems[i], recvMems[i], region);
    }
    SizedPositive(io0, |mems|);
    assert pairs[0].s.recv.q == [];
    PairsReach(pairs, 0, region);
  }

  lemma SizedPositive(io: Io, n: nat)
    requires Sized(io, n)
    ensures n > 0
  {
  }

  // ---------- following a program ----------

  // prog[r][i] is the r-th call of client i; the clients have issued a part of it.
  ghost predicate Follows(pairs: seq<Pair>, prog: seq<seq<Call>>) {
    && (forall r :: 0 <= r < |prog| ==> |prog[r]| == |pairs| && forall i :: 0 <= i < |pairs| ==> Sendable(prog[r][i]))
    && forall i :: 0 <= i < |pairs| ==> Issued(pairs[i].c.packed, prog, i)
  }

  ghost predicate Issued(packed: seq<seq<Byte>>, prog: seq<seq<Call>>, i: nat) {
    && |packed| <= |prog|
    && forall r :: 0 <= r < |packed| ==> i < |prog[r]| && Sendable(prog[r][i]) && packed[r] == Message(prog[r][i])
  }

  lemma ColumnFollows(pairs: seq<Pair>, prog: seq<seq<Call>>, r: nat)
    requires Reaches(pairs, r + 1) && Follows(pairs, prog) && |pairs| > 0
    ensures r < |prog| && Column(pairs, r) == prog[r]
  {
    hide Talks, Message, Sendable, Unpack;
    assert Issued(pairs[0].c.packed, prog, 0);
    forall i | 0 <= i < |pairs| ensures Column(pairs, r)[i] == prog[r][i] {
      assert Issued(pairs[i].c.packed, prog, i);
      CallOfMessage(prog[r][i]);
    }
  }

  lemma {:induction false} ColumnsFollow(pairs: seq<Pair>, prog: seq<seq<Call>>, k: nat)
    requires Reaches(pairs, k) && Follows(pairs, prog) && |pairs| > 0
    ensures k <= |prog| && Columns(pairs, k) == prog[..k]
  {
    hide Talks, Message, Sendable, Unpack, Follows, Column;
    if k > 0 {
      ColumnsFollow(pairs, prog, k - 1);
      ColumnFollows(pairs, prog, k - 1);
      assert prog[..k] == prog[..k - 1] + [prog[k - 1]];
    }
  }

  // ---------- prefixes of a program ----------

  lemma {:induction false} ProgramPrefix(io: Io, n: nat, prog: seq<seq<Call>>, k: nat)
    requires Sized(io, n) && ProgramOk(io, n, prog) && k <= |prog|
    ensures ProgramOk(io, n, prog[..k])
    decreases |prog|
  {
    if k > 0 {
      RoundCorrect(io, n, prog[0]);
      hide RoundSpec, Sized, RoundOk, Quiet, Round;
      ProgramPrefix(RoundSpec(io, n, prog[0]), n, prog[1..], k - 1);
      assert prog[..k][0] == prog[0] && prog[..k][1..] == prog[1..][..k - 1];
    }
  }

  /** The r-th round acts on the state its predecessors left. */
  lemma {:induction false} SpecRunStep(io: Io, n: nat, prog: seq<seq<Call>>, r: nat)
    requires Sized(io, n) && ProgramOk(io, n, prog) && r < |prog|
    ensures ProgramOk(io, n, prog[..r]) && ProgramOk(io, n, prog[..r + 1])
    ensures var before := SpecRun(io, n, prog[..r]);
      && Sized(before, n) && RoundOk(before, n, prog[r]) && Quiet(before, n)
      && SpecRun(io, n, prog[..r + 1]) == RoundSpec(before, n, prog[r])
    decreases |prog|
  {
    ProgramPrefix(io, n, prog, r);
    ProgramPrefix(io, n, prog, r + 1);
    RoundCorrect(io, n, prog[0]);
    hide RoundSpec, Sized, RoundOk, Quiet, Round;
    assert prog[..r + 1][0] == prog[0];
    if r == 0 {
      assert prog[..1][1..] == [];
      assert SpecRun(RoundSpec(io, n, prog[0]), n, []) == RoundSpec(io, n, prog[0]);
    } else {
      SpecRunStep(RoundSpec(io, n, prog[0]), n, prog[1..], r - 1);
      assert prog[..r][0] == prog[0] && prog[..r][1..] == prog[1..][..r - 1];
      assert prog[..r + 1][1..] == prog[1..][..r];
    }
  }

  lemma {:induction false} HandleDefsAppend(g: Defining, nc: int, k: nat)
    requires k <= |g.defs|
    ensures g.events <= HandleDefs(g, nc, k).events
  {
    if k > 0 { HandleDefsAppend(g, nc, k - 1); }
  }

  // Calls once made stay made.
  lemma RoundAppends(io: Io, n: nat, calls: seq<Call>)
    requires Sized(io, n) && RoundOk(io, n, calls) && Quiet(io, n)
    ensures io.events <= RoundSpec(io, n, calls).events
  {
    hide Quiet, WriteEvents, FindDim, FindVar, HandleDefs;
    var c := calls[0];
    if c.EndDef? && !io.files[c.ncid].dataMode {
      var f := io.files[c.ncid];
      HandleDefsAppend(Defining(f.defs, io.events, io.nextId), f.serverId, |f.defs|);
    }
  }

  lemma {:induction false} EventsGrow(io: Io, n: nat, prog: seq<seq<Call>>, j: nat, k: nat)
    requires Sized(io, n) && ProgramOk(io, n, prog) && j <= k <= |prog|
    ensures ProgramOk(io, n, prog[..j]) && ProgramOk(io, n, prog[..k])
    ensures SpecRun(io, n, prog[..j]).events <= SpecRun(io, n, prog[..k]).events
    decreases k
  {
    ProgramPrefix(io, n, prog, j);
    ProgramPrefix(io, n, prog, k);
    hide RoundSpec, Sized, RoundOk, Quiet, ProgramOk, SpecRun;
    if j < k {
      EventsGrow(io, n, prog, j, k - 1);
      SpecRunStep(io, n, prog, k - 1);
      RoundAppends(SpecRun(io, n, prog[..k - 1]), n, prog[k - 1]);
    }
  }

  // ---------- whole runs ----------

  // Every client is done and had flushed all of its N calls.
  ghost predicate Exited(w: World, calls: nat) {
    forall i :: 0 <= i < |w.pairs| ==>
      w.pairs[i].s.commDone && w.pairs[i].c.flushed == |w.pairs[i].c.packed| == calls
  }

  lemma ExitedDelivered(p: Pair, rounds: nat, region: nat)
    requires PairOk(p, rounds, region) && p.s.commDone && p.s.recv.q == []
    ensures rounds == p.c.flushed
  {
    DecodedBound(p, rounds, region);
    hide RecvQueue.Valid, RecvQueue.Queued, ReadInv, Flat, PcInv;
  }

  /** At exit every round has been decoded. */
  lemma NothingLeft(w: World, io0: Io, region: nat, calls: nat)
    requires WorldInv(w, io0, region) && !AllWaiting(w.pairs) && Exited(w, calls)
    ensures w.rounds == calls
  {
    hide PairOk, ServerRun, Sized, Reaches;
    var i :| 0 <= i < |w.pairs| && w.pairs[i].s.recv.q == [];
    ExitedDelivered(w.pairs[i], w.rounds, region);
  }

  // A state of the invariant in which the clients have followed the program.
  lemma FollowedState(w: World, io0: Io, region: nat, prog: seq<seq<Call>>)
    requires WorldInv(w, io0, region) && !AllWaiting(w.pairs) && Sized(io0, |w.pairs|)
    requires Quiet(io0, |w.pairs|) && ProgramOk(io0, |w.pairs|, prog) && Follows(w.pairs, prog)
    ensures w.rounds <= |prog| && ProgramOk(io0, |w.pairs|, prog[..w.rounds])
    ensures w.io == SpecRun(io0, |w.pairs|, prog[..w.rounds]) && Quiet(w.io, |w.pairs|)
    ensures Exited(w, |prog|) ==> w.rounds == |prog| && w.io == SpecRun(io0, |w.pairs|, prog)
  {
    hide PairOk, Sized, Quiet, ProgramOk, ServerRun, SpecRun, Follows, Talks, AllWaiting, Exited, Columns;
    var n := |w.pairs|;
    ColumnsFollow(w.pairs, prog, w.rounds);
    ProgramPrefix(io0, n, prog, w.rounds);
    RunCorrect(io0, n, prog[..w.rounds]);
    if Exited(w, |prog|) {
      NothingLeft(w, io0, region, |prog|);
      assert prog[..|prog|] == prog;
    }
  }

  lemma StartWaits(mems: seq<seq<Byte>>, recvMems: seq<seq<Byte>>, io0: Io, region: nat)
    requires Blocks(mems, recvMems, region) && Sized(io0, |mems|)
    ensures !AllWaiting(StartWorld(mems, recvMems, io0, region).pairs)
  {
    hide Sized, AllWaiting, StartPairs, WorldInv;
    StartWorldInv(mems, recvMems, io0, region);
  }

  /** End to end: whatever the interleaving of clients, network and server, the
      netCDF calls made so far are those of the first `rounds` rounds of the
      program, each performed once and in order; at exit, of all of them. */
  lemma EndToEndCorrect(mems: seq<seq<Byte>>, recvMems: seq<seq<Byte>>, io0: Io, region: nat, run: seq<Action>, prog: seq<seq<Call>>)
    requires Blocks(mems, recvMems, region) && Sized(io0, |mems|)
    requires Runs(StartWorld(mems, recvMems, io0, region), run, io0, region)
    requires Quiet(io0, |mems|) && ProgramOk(io0, |mems|, prog)
    requires Follows(Reached(StartWorld(mems, recvMems, io0, region), run, io0, region).pairs, prog)
    ensures var w := Reached(StartWorld(mems, recvMems, io0, region), run, io0, region);
      && w.rounds <= |prog| && ProgramOk(io0, |mems|, prog[..w.rounds])
      && w.io == SpecRun(io0, |mems|, prog[..w.rounds])
      && Quiet(w.io, |mems|) && !AllWaiting(w.pairs)
      && (Exited(w, |prog|) ==> w.rounds == |prog| && w.io == SpecRun(io0, |mems|, prog))
  {
    hide PairOk, Runs, Reached, WorldInv, Sized, Quiet, ProgramOk, SpecRun, Follows, AllWaiting, Exited, StartPairs;
    var w0 := StartWorld(mems, recvMems, io0, region);
    StartWaits(mems, recvMems, io0, region);
    AlwaysSomeEmpty(w0, run, io0, region);
    FollowedState(Reached(w0, run, io0, region), io0, region, prog);
  }

  // ---------- writes ----------

  ghost function BlocksOf(calls: seq<Call>): (boxes: seq<Box>)
    requires forall i :: 0 <= i < |calls| ==> calls[i].PutVara?
  {
    seq(|calls|, i requires 0 <= i < |calls| => Box(calls[i].start, calls[i].count))
  }

  ghost function PayloadsOf(calls: seq<Call>): (bufs: seq<seq<Byte>>)
    requires forall i :: 0 <= i < |calls| ==> calls[i].PutVara?
  {
    seq(|calls|, i requires 0 <= i < |calls| => calls[i].data)
  }

  // The blocks of the round are boxes of the variable's rank, with full payloads.
  lemma RoundBlocks(io: Io, n: nat, calls: seq<Call>)
    requires Sized(io, n) && RoundOk(io, n, calls) && Quiet(io, n) && calls[0].PutVara?
    ensures |calls| == n > 0 && forall i :: 0 <= i < n ==> calls[i].PutVara?
    ensures BlocksOf(calls) != [] && Merge.SameRank(BlocksOf(calls), |calls[0].start|) && KnownType(calls[0].fpType)
    ensures Merge.Payloads(BlocksOf(calls), PayloadsOf(calls), TypeSize(calls[0].fpType))
  {
    var c := calls[0];
    var v := FindVar(io.files[c.ncid].defs, c.varid);
    PutVaraReady(io, n, calls);
    SlotsOfReady(io, n, calls, v);
    assert BlocksOf(calls) == Merge.BoxesOf(SlotsOf(calls));
    assert PayloadsOf(calls) == Merge.BufsOf(SlotsOf(calls));
  }

  // The variable a write names.
  ghost function VarOf(io: Io, c: Call): (d: Def)
    requires c.PutVara? && Applicable(io, c)
    ensures d.Var?
  {
    io.files[c.ncid].defs[FindVar(io.files[c.ncid].defs, c.varid)]
  }

  // The write of round r, given the state before it.
  ghost function WriteOf(io: Io, n: nat, calls: seq<Call>): Event
    requires Sized(io, n) && RoundOk(io, n, calls) && Quiet(io, n) && calls[0].PutVara?
  {
    var c := calls[0];
    RoundBlocks(io, n, calls);
    var boxes, bufs := BlocksOf(calls), PayloadsOf(calls);
    var f := io.files[c.ncid];
    var hull := Merge.Hull(boxes, |c.start|);
    Write(f.serverId, VarOf(io, c).serverId, VarOf(io, c).xtype, hull, MergedCells(hull, boxes, bufs, TypeSize(c.fpType)))
  }

  /** A write round makes one write call, of the hull of its blocks and the overlay
      of its payloads, if the variable is short, int, float or double, and none if
      it is byte or char. */
  lemma RoundWrites(io: Io, n: nat, calls: seq<Call>)
    requires Sized(io, n) && RoundOk(io, n, calls) && Quiet(io, n) && calls[0].PutVara?
    ensures VarOf(io, calls[0]).xtype in {CFIO_SHORT, CFIO_INT, CFIO_FLOAT, CFIO_DOUBLE} ==>
      RoundSpec(io, n, calls).events == io.events + [WriteOf(io, n, calls)]
    ensures VarOf(io, calls[0]).xtype in {CFIO_BYTE, CFIO_CHAR} ==> RoundSpec(io, n, calls).events == io.events
    ensures CFIO_BYTE <= VarOf(io, calls[0]).xtype <= CFIO_DOUBLE
  {
    var c := calls[0];
    RoundBlocks(io, n, calls);
    PutVaraReady(io, n, calls);
    SlotsOfReady(io, n, calls, FindVar(io.files[c.ncid].defs, c.varid));
    assert BlocksOf(calls) == Merge.BoxesOf(SlotsOf(calls));
    assert PayloadsOf(calls) == Merge.BufsOf(SlotsOf(calls));
    hide Merge.Hull, MergedCells, Sized, Quiet, FindVar;
  }

  /** A put_vara that has been decoded is in the list of calls made, with the
      payloads of its own round and no other. */
  lemma PutVaraIsWritten(io: Io, n: nat, prog: seq<seq<Call>>, r: nat, k: nat)
    requires Sized(io, n) && ProgramOk(io, n, prog) && r < k <= |prog|
    requires |prog[r]| == n > 0 && prog[r][0].PutVara?
    ensures ProgramOk(io, n, prog[..r]) && ProgramOk(io, n, prog[..k])
    ensures var before, made := SpecRun(io, n, prog[..r]), SpecRun(io, n, prog[..k]).events;
      && Sized(before, n) && RoundOk(before, n, prog[r]) && Quiet(before, n)
      && (VarOf(before, prog[r][0]).xtype in {CFIO_SHORT, CFIO_INT, CFIO_FLOAT, CFIO_DOUBLE} ==>
            |before.events| < |made| && made[|before.events|] == WriteOf(before, n, prog[r]))
  {
    SpecRunStep(io, n, prog, r);
    EventsGrow(io, n, prog, r + 1, k);
    RoundWrites(SpecRun(io, n, prog[..r]), n, prog[r]);
    hide RoundSpec, Sized, RoundOk, Quiet, ProgramOk, SpecRun, WriteOf;
  }

  /** Every cell of the array is somebody's value exactly when the blocks cover
      their hull; the rest of the array is memory the server never wrote. */
  lemma WrittenWholeIff(io: Io, n: nat, calls: seq<Call>)
    requires Sized(io, n) && RoundOk(io, n, calls) && Quiet(io, n) && calls[0].PutVara?
    ensures forall i :: 0 <= i < n ==> calls[i].PutVara?
    ensures var w := WriteOf(io, n, calls);
      (forall o :: 0 <= o < |w.cells| ==> w.cells[o].Some?)
      <==> (forall g: seq<nat> :: Contains(w.box, g) ==> exists i :: 0 <= i < n && Contains(BlocksOf(calls)[i], g))
  {
    RoundBlocks(io, n, calls);
    CoveredIff(WriteOf(io, n, calls).box, BlocksOf(calls), PayloadsOf(calls), TypeSize(calls[0].fpType));
    hide RoundOk, Quiet, Sized, MergedCells, Contains;
  }

  lemma CoveredIff(hull: Box, boxes: seq<Box>, bufs: seq<seq<Byte>>, ele: nat)
    requires Merge.Payloads(boxes, bufs, ele) && hull.Valid()
    ensures var cells := MergedCells(hull, boxes, bufs, ele);
      (forall o :: 0 <= o < |cells| ==> cells[o].Some?)
      <==> (forall g: seq<nat> :: Contains(hull, g) ==> exists i :: 0 <= i < |boxes| && Contains(boxes[i], g))
  {
    var cells := MergedCells(hull, boxes, bufs, ele);
    if forall o :: 0 <= o < |cells| ==> cells[o].Some? {
      forall g: seq<nat> | Contains(hull, g) ensures exists i :: 0 <= i < |boxes| && Contains(boxes[i], g) {
        ContainedGlobal(hull, g);
        assert cells[Offset(hull, g)].Some?;
      }
    }
    forall o | 0 <= o < |cells| ensures cells[o].Some? <==> exists i :: 0 <= i < |boxes| && Contains(boxes[i], Global(hull, o)) {
    }
    forall o | 0 <= o < |cells| ensures Contains(hull, Global(hull, o)) {
      GlobalContained(hull, o);
    }
  }

  /** When every client writes the block of its grid position, the write covers
      the server's rectangle, and every cell is the value its only writer packed. */
  lemma TiledWrite(io: Io, n: nat, calls: seq<Call>, d: Grid.Decomposition, s: nat, wx: nat, wy: nat, o: nat)
    requires Sized(io, n) && RoundOk(io, n, calls) && Quiet(io, n) && calls[0].PutVara?
    requires Tiling.Served(d, s) && n == Grid.ClientNumOfServer(d)
    requires forall i :: 0 <= i < n ==>
      calls[i].PutVara? && Box(calls[i].start, calls[i].count) == Tiling.ClientBox(d, Grid.ClientAt(d, s, i), wx, wy)
    requires o < Tiling.ServerBox(d, s, wx, wy).Cells()
    ensures WriteOf(io, n, calls).box == Tiling.ServerBox(d, s, wx, wy) && |WriteOf(io, n, calls).cells| == Tiling.ServerBox(d, s, wx, wy).Cells()
    ensures Contains(Tiling.ServerBox(d, s, wx, wy), Global(Tiling.ServerBox(d, s, wx, wy), o))
    ensures var g := Global(Tiling.ServerBox(d, s, wx, wy), o); var i := Tiling.Owner(d, s, wx, wy, g);
      var b, ele := Tiling.ClientBox(d, Grid.ClientAt(d, s, i), wx, wy), TypeSize(calls[0].fpType);
      && i < n && Contains(b, g) && (Offset(b, g) + 1) * ele <= |calls[i].data|
      && WriteOf(io, n, calls).cells[o] == Some(Boxes.Cell(calls[i].data, Offset(b, g), ele))
  {
    hide Sized, RoundOk, Quiet, Tiling.ServerBox, Tiling.Owner, FindVar, Tiling.ClientBox, MergedCells, Offset, Global, Contains;
    RoundBlocks(io, n, calls);
    assert BlocksOf(calls) == Tiling.ServerBoxes(d, s, wx, wy);
    Tiling.HullIsServerBox(d, s, wx, wy);
    TiledCell(d, s, wx, wy, PayloadsOf(calls), TypeSize(calls[0].fpType), o);
  }

  // One cell of the overlay of blocks that tile the server's rectangle.
  lemma TiledCell(d: Grid.Decomposition, s: nat, wx: nat, wy: nat, bufs: seq<seq<Byte>>, ele: nat, o: nat)
    requires Tiling.Served(d, s) && Merge.Payloads(Tiling.ServerBoxes(d, s, wx, wy), bufs, ele)
    requires o < Tiling.ServerBox(d, s, wx, wy).Cells()
    ensures Contains(Tiling.ServerBox(d, s, wx, wy), Global(Tiling.ServerBox(d, s, wx, wy), o))
    ensures var whole := Tiling.ServerBox(d, s, wx, wy); var g := Global(whole, o); var i := Tiling.Owner(d, s, wx, wy, g);
      && i < |bufs| == Grid.ClientNumOfServer(d)
      && var b := Tiling.ClientBox(d, Grid.ClientAt(d, s, i), wx, wy);
      && Contains(b, g) && (Offset(b, g) + 1) * ele <= |bufs[i]|
      && |MergedCells(whole, Tiling.ServerBoxes(d, s, wx, wy), bufs, ele)| == whole.Cells()
      && MergedCells(whole, Tiling.ServerBoxes(d, s, wx, wy), bufs, ele)[o] == Some(Boxes.Cell(bufs[i], Offset(b, g), ele))
  {
    hide Tiling.ServerBox, Tiling.Owner, Tiling.ClientBox;
    var whole, boxes := Tiling.ServerBox(d, s, wx, wy), Tiling.ServerBoxes(d, s, wx, wy);
    GlobalContained(whole, o);
    var g := Global(whole, o);
    Tiling.TilesOnce(d, s, wx, wy, g);
    var i := Tiling.Owner(d, s, wx, wy, g);
    assert boxes[i] == Tiling.ClientBox(d, Grid.ClientAt(d, s, i), wx, wy);
    ContainedGlobal(boxes[i], g);
    CellFits(Offset(boxes[i], g), boxes[i].Cells(), ele);
    assert Merge.LastCover(boxes, g, |boxes|) == Some(i);
  }
}
