/** A complete program of n clients, and the netCDF calls it leads to: the
    hypotheses of the end-to-end theorem are met by the ordinary use of the library. */
module ProgramExample {
  import opened Bytes
  import opened Wire
  import opened Collective
  import opened Rounds
  import opened Programs

  const DIM: seq<Byte> := [120]
  const VAR: seq<Byte> := [118]

  function Same(c: Call, n: nat): (calls: seq<Call>)
    ensures |calls| == n
  {
    seq(n, _ => c)
  }

  // The write round: blocks of a one-dimensional variable of ints.
  ghost predicate IntBlocks(puts: seq<Call>, n: nat) {
    && |puts| == n > 0
    && forall i :: 0 <= i < n ==> puts[i].PutVara? && Packable(puts[i]) && puts[i].ncid == 1 && puts[i].varid == 1
                                  && |puts[i].start| == 1 && puts[i].fpType == CFIO_INT
  }

  function Program(n: nat, len: SizeT, puts: seq<Call>): seq<seq<Call>> {
    [Same(Create([102], 0, 1), n), Same(DefDim(1, DIM, len, 1), n), Same(DefVar(1, VAR, CFIO_INT, [1], 1), n),
     Same(EndDef(1), n), puts, Same(Close(1), n)]
  }

  // ---------- the states in between ----------

  function Created(): Io { Io(map[1 := File(0, false, [])], map[], [CreateFile([102], 0, 0)], 1, false) }

  function WithDefs(defs: seq<Def>): Io { Created().(files := map[1 := File(0, false, defs)]) }

  function DimDef(len: SizeT, serverId: int): Def { Dim(1, DIM, len, serverId) }

  function VarDef(n: nat, dimId: int, serverId: int): Def { Var(1, VAR, CFIO_INT, [dimId], serverId, [], EmptySlots(n)) }

  function DefinitionCalls(len: SizeT): seq<Event> {
    [CreateFile([102], 0, 0), DefineDim(0, DIM, len, 1), DefineVar(0, VAR, CFIO_INT, [1], 2), EndDefine(0)]
  }

  function Defined(n: nat, len: SizeT): Io {
    Io(map[1 := File(0, true, [DimDef(len, 1), VarDef(n, 1, 2)])], map[], DefinitionCalls(len), 3, false)
  }

  // ---------- the rounds ----------

  lemma CreateRound(n: nat)
    requires n > 0
    ensures var calls := Same(Create([102], 0, 1), n);
      Sized(NoFiles(), n) && Quiet(NoFiles(), n) && RoundOk(NoFiles(), n, calls) && RoundSpec(NoFiles(), n, calls) == Created()
  {
  }

  lemma DimRound(n: nat, len: SizeT)
    requires n > 0
    ensures var calls := Same(DefDim(1, DIM, len, 1), n);
      Sized(Created(), n) && Quiet(Created(), n) && RoundOk(Created(), n, calls)
      && RoundSpec(Created(), n, calls) == WithDefs([DimDef(len, INVALID)])
  {
    assert [] + [DimDef(len, INVALID)] == [DimDef(len, INVALID)];
    assert Created().files[1 := File(0, false, [DimDef(len, INVALID)])] == WithDefs([DimDef(len, INVALID)]).files;
  }

  lemma VarRound(n: nat, len: SizeT)
    requires n > 0
    ensures var io, calls := WithDefs([DimDef(len, INVALID)]), Same(DefVar(1, VAR, CFIO_INT, [1], 1), n);
      Sized(io, n) && Quiet(io, n) && RoundOk(io, n, calls)
      && RoundSpec(io, n, calls) == WithDefs([DimDef(len, INVALID), VarDef(n, 1, INVALID)])
  {
    var d, v := DimDef(len, INVALID), VarDef(n, 1, INVALID);
    assert [d][1..] == [];
    assert HasDim([d], 1) && !HasVar([d], 1);
    assert [d] + [v] == [d, v];
    assert WithDefs([d]).files[1 := File(0, false, [d, v])] == WithDefs([d, v]).files;
  }

  lemma EndDefRound(n: nat, len: SizeT)
    requires n > 0
    ensures var io, calls := WithDefs([DimDef(len, INVALID), VarDef(n, 1, INVALID)]), Same(EndDef(1), n);
      Sized(io, n) && Quiet(io, n) && RoundOk(io, n, calls) && RoundSpec(io, n, calls) == Defined(n, len)
  {
    var d, v, io := DimDef(len, INVALID), VarDef(n, 1, INVALID), WithDefs([DimDef(len, INVALID), VarDef(n, 1, INVALID)]);
    var g0 := Defining([d, v], io.events, io.nextId);
    var g1 := Defining([DimDef(len, 1), v], io.events + [DefineDim(0, DIM, len, 1)], 2);
    assert HandleDefs(g0, 0, 0) == g0;
    assert HandleDef(g0, 0, 0) == g1;
    assert HandleDefs(g0, 0, 1) == g1;
    assert Translate(g1.defs, [1]) == [1];
    var g2 := HandleDef(g1, 0, 1);
    assert g2.defs == [DimDef(len, 1), VarDef(n, 1, 2)];
    assert g2.events + [EndDefine(0)] == DefinitionCalls(len);
    assert HandleDefs(g0, 0, 2) == g2;
    assert io.files[1 := File(0, true, g2.defs)] == Defined(n, len).files;
    assert io.table - {Key(FUNC_NC_ENDDEF, 1, 0)} == map[];
  }

  // The one write, as the program theorems describe it.
  lemma PutRound(n: nat, len: SizeT, puts: seq<Call>)
    requires IntBlocks(puts, n)
    ensures Sized(Defined(n, len), n) && Quiet(Defined(n, len), n) && RoundOk(Defined(n, len), n, puts)
    ensures RoundSpec(Defined(n, len), n, puts) ==
      Defined(n, len).(events := DefinitionCalls(len) + [WriteOf(Defined(n, len), n, puts)])
    ensures WriteOf(Defined(n, len), n, puts).Write? && WriteOf(Defined(n, len), n, puts).nc == 0
         && WriteOf(Defined(n, len), n, puts).varId == 2 && WriteOf(Defined(n, len), n, puts).xtype == CFIO_INT
  {
    var io := Defined(n, len);
    assert FindVar(io.files[1].defs, 1) == 1 by {
      assert io.files[1].defs[1..] == [VarDef(n, 1, 2)];
    }
    hide WriteOf, MergedCells, FindVar;
    RoundWrites(io, n, puts);
  }

  lemma CloseRound(n: nat, len: SizeT, events: seq<Event>)
    requires n > 0
    ensures var io, calls := Defined(n, len).(events := events), Same(Close(1), n);
      Sized(io, n) && Quiet(io, n) && RoundOk(io, n, calls)
      && RoundSpec(io, n, calls) == Io(map[], map[], events + [CloseFile(0)], 3, false)
  {
    var io := Defined(n, len).(events := events);
    assert io.table - {Key(FUNC_NC_CLOSE, 1, 0)} == map[];
    assert io.files - {1} == map[];
  }

  // ---------- the program ----------

  lemma Step(io: Io, n: nat, calls: seq<Call>, rest: seq<seq<Call>>, io': Io)
    requires Sized(io, n) && Quiet(io, n) && RoundOk(io, n, calls) && RoundSpec(io, n, calls) == io'
    requires Sized(io', n) && ProgramOk(io', n, rest)
    ensures ProgramOk(io, n, [calls] + rest) && SpecRun(io, n, [calls] + rest) == SpecRun(io', n, rest)
  {
    hide Sized, Quiet, RoundOk, RoundSpec;
    assert ([calls] + rest)[0] == calls && ([calls] + rest)[1..] == rest;
    RoundCorrect(io, n, calls);
  }

  lemma ClosedSized(n: nat, events: seq<Event>)
    requires n > 0
    ensures var io := Io(map[], map[], events, 3, false);
      Sized(io, n) && ProgramOk(io, n, []) && SpecRun(io, n, []) == io
  {
  }

  /** Create, define a dimension and a variable of ints, enddef, one write by all
      clients, close: the server creates, defines, writes the merged array once
      and closes, with the ids netCDF gave out. */
  lemma OrdinaryUse(n: nat, len: SizeT, puts: seq<Call>)
    requires IntBlocks(puts, n)
    ensures Sized(NoFiles(), n) && Quiet(NoFiles(), n) && ProgramOk(NoFiles(), n, Program(n, len, puts))
    ensures Sized(Defined(n, len), n) && RoundOk(Defined(n, len), n, puts) && Quiet(Defined(n, len), n)
    ensures SpecRun(NoFiles(), n, Program(n, len, puts)).events
         == DefinitionCalls(len) + [WriteOf(Defined(n, len), n, puts), CloseFile(0)]
  {
    hide Sized, Quiet, RoundOk, RoundSpec, ProgramOk, SpecRun, WriteOf;
    PutRound(n, len, puts);
    var w := WriteOf(Defined(n, len), n, puts);
    var written := Defined(n, len).(events := DefinitionCalls(len) + [w]);
    CloseRound(n, len, written.events);
    ClosedSized(n, written.events + [CloseFile(0)]);
    var c5 := Same(Close(1), n);
    Step(written, n, c5, [], Io(map[], map[], written.events + [CloseFile(0)], 3, false));
    assert [c5] + [] == [c5];
    Step(Defined(n, len), n, puts, [c5], written);
    assert [puts] + [c5] == [puts, c5];
    DefinitionSteps(n, len, [puts, c5]);
    assert Program(n, len, puts) == Definitions(n, len) + [puts, c5];
    assert written.events + [CloseFile(0)] == DefinitionCalls(len) + [w, CloseFile(0)];
  }

  /** A variable defined over dimension id 0, which no def_dim ever returned, ends
      the server process instead of being refused. */
  lemma DimensionZeroEndsTheServer(n: nat)
    requires n > 0
    ensures var calls := Same(DefVar(1, VAR, CFIO_INT, [0], 1), n);
      Sized(Created(), n) && Quiet(Created(), n) && Matching(n, calls) && Round(Created(), n, calls, n).failed
  {
    var calls := Same(DefVar(1, VAR, CFIO_INT, [0], 1), n);
    assert [0][0] == OWN && NamesOwn(Created(), calls[0]);
    RoundFailsIff(Created(), n, calls);
  }

  function Definitions(n: nat, len: SizeT): seq<seq<Call>> {
    [Same(Create([102], 0, 1), n), Same(DefDim(1, DIM, len, 1), n), Same(DefVar(1, VAR, CFIO_INT, [1], 1), n), Same(EndDef(1), n)]
  }

  lemma DefinitionSteps(n: nat, len: SizeT, rest: seq<seq<Call>>)
    requires n > 0 && Sized(Defined(n, len), n) && ProgramOk(Defined(n, len), n, rest)
    ensures Sized(NoFiles(), n) && Quiet(NoFiles(), n) && ProgramOk(NoFiles(), n, Definitions(n, len) + rest)
    ensures SpecRun(NoFiles(), n, Definitions(n, len) + rest) == SpecRun(Defined(n, len), n, rest)
  {
    hide Sized, Quiet, RoundOk, RoundSpec, ProgramOk, SpecRun;
    CreateRound(n);
    DimRound(n, len);
    VarRound(n, len);
    EndDefRound(n, len);
    var all := Definitions(n, len);
    var io2 := WithDefs([DimDef(len, INVALID), VarDef(n, 1, INVALID)]);
    Step(io2, n, all[3], rest, Defined(n, len));
    Step(WithDefs([DimDef(len, INVALID)]), n, all[2], [all[3]] + rest, io2);
    Step(Created(), n, all[1], [all[2]] + ([all[3]] + rest), WithDefs([DimDef(len, INVALID)]));
    Step(NoFiles(), n, all[0], [all[1]] + ([all[2]] + ([all[3]] + rest)), Created());
    assert all + rest == [all[0]] + ([all[1]] + ([all[2]] + ([all[3]] + rest)));
  }
}
