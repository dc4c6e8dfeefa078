/** The end of a run: once its clients are done the server finishes every one of
    them, and leaves its loop with the program performed. */
module Exit {
  import opened Stream
  import opened StreamInvariant
  import opened Wire
  import opened Collective
  import opened Rounds
  import opened EndToEnd
  import opened Programs
  import opened Bytes
  import Trace
  import TraceProof

  predicate AllDone(pairs: seq<Pair>) { forall i :: 0 <= i < |pairs| ==> pairs[i].c.pc.Done? }

  predicate AllFinished(pairs: seq<Pair>) { forall i :: 0 <= i < |pairs| ==> pairs[i].s.commDone }

  // How many of the clients the server has not marked as finished.
  function Unfinished(pairs: seq<Pair>): (k: nat)
    ensures k <= |pairs|
  {
    if pairs == [] then 0 else (if pairs[0].s.commDone then 0 else 1) + Unfinished(pairs[1..])
  }

  lemma {:induction false} UnfinishedUpdate(pairs: seq<Pair>, i: nat, p: Pair)
    requires i < |pairs| && !pairs[i].s.commDone && p.s.commDone
    ensures Unfinished(pairs[i := p]) == Unfinished(pairs) - 1
  {
    if i == 0 {
      assert pairs[0 := p][1..] == pairs[1..];
    } else {
      assert pairs[i := p][1..] == pairs[1..][i - 1 := p];
      UnfinishedUpdate(pairs[1..], i - 1, p);
    }
  }

  lemma {:induction false} UnfinishedAll(pairs: seq<Pair>)
    ensures Unfinished(pairs) == 0 <==> AllFinished(pairs)
  {
    if pairs != [] {
      UnfinishedAll(pairs[1..]);
      assert forall i :: 1 <= i < |pairs| ==> pairs[i] == pairs[1..][i - 1];
    }
  }

  // A client that is done takes no step, and nothing is on its way to its server.
  lemma DoneIdle(p: Pair, st: Step, region: nat)
    requires Inv(p, region) && p.c.pc.Done? && Enabled(p, st)
    ensures st.Visit? || st.Decode?
  {
    hide RecvQueue.Valid, RecvQueue.Queued, Flat, ReadInv, Unflushed, Order;
  }

  /** When all clients are done the next thing to happen is a turn of the server
      on an unfinished client, and it does one thing: it marks that client finished. */
  lemma DoneStep(w: World, a: Action, io0: Io, region: nat)
    requires WorldInv(w, io0, region) && CanDo(w, a, region) && AllDone(w.pairs)
    ensures a.ServerTurn? && !w.pairs[a.i].s.commDone
    ensures Do(w, a, io0, region) == w.(pairs := w.pairs[a.i := w.pairs[a.i].(s := w.pairs[a.i].s.(commDone := true))])
    ensures AllDone(Do(w, a, io0, region).pairs) && Unfinished(Do(w, a, io0, region).pairs) == Unfinished(w.pairs) - 1
  {
    hide Inv, Talks, Sized, ServerRun, Reaches, Columns, ServerVisit, Pickup, Unfinished, Safe, Drain;
    var p := w.pairs[a.i];
    assert PairOk(p, w.rounds, region);
    match a
    case Act(_, st) => DoneIdle(p, st, region);
    case ServerTurn(i, polled) =>
      VisitFinishes(p, region, polled);
      UnfinishedUpdate(w.pairs, i, p.(s := p.s.(commDone := true)));
  }

  // While a client is unfinished, and the process has not failed, the server can go on.
  lemma CanTurn(w: World, i: nat, polled: bool, io0: Io, region: nat)
    requires WorldInv(w, io0, region) && !w.io.failed && i < |w.pairs|
    ensures CanDo(w, ServerTurn(i, polled), region) <==> !w.pairs[i].s.commDone
  {
    hide Inv, Talks, Sized, ServerRun, Reaches, Columns;
  }

  // What stays as it is while the server only finishes clients.
  ghost predicate OnlyFinished(w: World, w': World) {
    && w'.io == w.io && w'.rounds == w.rounds && |w'.pairs| == |w.pairs|
    && forall i :: 0 <= i < |w.pairs| ==>
         w'.pairs[i].c == w.pairs[i].c && w'.pairs[i].s.(commDone := true) == w.pairs[i].s.(commDone := true)
  }

  /** From a state in which all clients are done, every run finishes one client a step
      and changes nothing else: it has at most as many steps as there are clients. */
  lemma {:induction false} DoneRun(w: World, run: seq<Action>, io0: Io, region: nat)
    requires WorldInv(w, io0, region) && Runs(w, run, io0, region) && AllDone(w.pairs)
    ensures var w' := Reached(w, run, io0, region);
      && AllDone(w'.pairs) && OnlyFinished(w, w')
      && |run| + Unfinished(w'.pairs) == Unfinished(w.pairs)
    decreases |run|
  {
    hide WorldInv, Do, CanDo, AllDone, Unfinished;
    if run != [] {
      DoneStep(w, run[0], io0, region);
      DoneRun(Do(w, run[0], io0, region), run[1..], io0, region);
    }
  }

  /** And there is such a run that finishes them all. */
  lemma {:induction false} ServerExits(w: World, polled: bool, io0: Io, region: nat) returns (run: seq<Action>)
    requires WorldInv(w, io0, region) && AllDone(w.pairs) && !w.io.failed
    ensures Runs(w, run, io0, region) && |run| == Unfinished(w.pairs) <= |w.pairs|
    ensures AllFinished(Reached(w, run, io0, region).pairs)
    decreases Unfinished(w.pairs)
  {
    hide WorldInv, Do, CanDo, AllDone, Unfinished;
    run := [];
    UnfinishedAll(w.pairs);
    if !AllFinished(w.pairs) {
      var i :| 0 <= i < |w.pairs| && !w.pairs[i].s.commDone;
      var a := ServerTurn(i, polled);
      CanTurn(w, i, polled, io0, region);
      DoneStep(w, a, io0, region);
      var rest := ServerExits(Do(w, a, io0, region), polled, io0, region);
      run := [a] + rest;
      assert run[0] == a && run[1..] == rest;
    }
  }

  // Every client has issued the whole program, flushed it, and is done.
  ghost predicate Completed(pairs: seq<Pair>, calls: nat) {
    AllDone(pairs) && forall i :: 0 <= i < |pairs| ==> pairs[i].c.flushed == |pairs[i].c.packed| == calls
  }

  lemma {:induction false} RunsAppend(w: World, run: seq<Action>, more: seq<Action>, io0: Io, region: nat)
    requires WorldInv(w, io0, region) && Runs(w, run, io0, region) && Runs(Reached(w, run, io0, region), more, io0, region)
    ensures Runs(w, run + more, io0, region)
    ensures Reached(w, run + more, io0, region) == Reached(Reached(w, run, io0, region), more, io0, region)
    decreases |run|
  {
    hide WorldInv, Do, CanDo;
    if run == [] {
      assert run + more == more;
    } else {
      assert (run + more)[0] == run[0] && (run + more)[1..] == run[1..] + more;
      RunsAppend(Do(w, run[0], io0, region), run[1..], more, io0, region);
    }
  }

  lemma CompletedExits(w: World, w': World, calls: nat)
    requires Completed(w.pairs, calls) && OnlyFinished(w, w') && AllFinished(w'.pairs)
    ensures Exited(w', calls)
  {
  }

  lemma SameClients(w: World, w': World, prog: seq<seq<Call>>)
    requires OnlyFinished(w, w') && Follows(w.pairs, prog)
    ensures Follows(w'.pairs, prog)
  {
    hide Issued, Sendable;
  }

  /** Once every client has issued and flushed the program and is done, the server
      leaves its loop, after at most one turn a client, and by then it has made the
      netCDF calls of the whole program. */
  lemma ProgramIsPerformed(mems: seq<seq<Byte>>, recvMems: seq<seq<Byte>>, region: nat, run: seq<Action>, prog: seq<seq<Call>>)
      returns (more: seq<Action>)
    requires Blocks(mems, recvMems, region) && Sized(NoFiles(), |mems|)
    requires Runs(StartWorld(mems, recvMems, NoFiles(), region), run, NoFiles(), region)
    requires Quiet(NoFiles(), |mems|) && ProgramOk(NoFiles(), |mems|, prog)
    requires Follows(Reached(StartWorld(mems, recvMems, NoFiles(), region), run, NoFiles(), region).pairs, prog)
    requires Completed(Reached(StartWorld(mems, recvMems, NoFiles(), region), run, NoFiles(), region).pairs, |prog|)
    ensures |more| <= |mems| && Runs(StartWorld(mems, recvMems, NoFiles(), region), run + more, NoFiles(), region)
    ensures forall r :: 0 <= r < |prog| ==> prog[r] != []
    ensures var w := Reached(StartWorld(mems, recvMems, NoFiles(), region), run + more, NoFiles(), region);
      && AllFinished(w.pairs) && w.rounds == |prog|
      && w.io == SpecRun(NoFiles(), |mems|, prog) && w.io.events == Trace.Made(prog, |prog|)
  {
    hide WorldInv, Runs, Reached, Sized, Quiet, ProgramOk, SpecRun, Follows, Exited, StartPairs, Trace.Made, NoFiles, Completed, AllFinished, OnlyFinished;
    var w0 := StartWorld(mems, recvMems, NoFiles(), region);
    var w := Reached(w0, run, NoFiles(), region);
    EndToEndCorrect(mems, recvMems, NoFiles(), region, run, prog);
    QuietGoesOn(w.io, |mems|);
    CompletedDone(w.pairs, |prog|);
    more := ServerExits(w, true, NoFiles(), region);
    DoneRun(w, more, NoFiles(), region);
    RunsAppend(w0, run, more, NoFiles(), region);
    var w' := Reached(w, more, NoFiles(), region);
    CompletedExits(w, w', |prog|);
    SameClients(w, w', prog);
    EndToEndCorrect(mems, recvMems, NoFiles(), region, run + more, prog);
    TraceProof.EndToEndTrace(mems, recvMems, region, run + more, prog);
  }

  lemma QuietGoesOn(io: Io, n: nat)
    requires Quiet(io, n)
    ensures !io.failed
  {
  }

  lemma CompletedDone(pairs: seq<Pair>, calls: nat)
    requires Completed(pairs, calls)
    ensures AllDone(pairs)
  {
  }
}
