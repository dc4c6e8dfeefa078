/** All clients of one server, the flush protocol of each, and the server's round
    loop: the netCDF calls made are those of the clients' program, once each. */
module EndToEnd {
  import opened Bytes
  import opened Wire
  import opened Stream
  import opened StreamInvariant
  import opened Sender
  import opened Collective
  import opened Rounds
  import RecvQueue

  // ---------- calls as messages ----------

  ghost predicate IsCall(b: seq<Byte>) { exists c: Call :: Sendable(c) && b == Message(c) }

  lemma CallUnpacks(b: seq<Byte>)
    requires IsCall(b)
    ensures Unpack(b).Some? && Unpack(b).value.1 == []
    ensures Sendable(Unpack(b).value.0) && Message(Unpack(b).value.0) == b
  {
    var c: Call :| Sendable(c) && b == Message(c);
    MessageRoundTrip(c, []);
    assert b + [] == b;
    hide Message, Unpack, Sendable;
  }

  // The call the server unpacks.
  ghost function CallOf(b: seq<Byte>): (c: Call)
    requires IsCall(b)
  {
    CallUnpacks(b);
    Unpack(b).value.0
  }

  lemma CallOfMessage(c: Call)
    requires Sendable(c)
    ensures IsCall(Message(c)) && CallOf(Message(c)) == c
  {
    MessageRoundTrip(c, []);
    assert Message(c) + [] == Message(c);
    hide Message, Unpack, Sendable;
  }

  ghost predicate IsCallMsg(m: Msg) { exists c: Call :: Sendable(c) && m == CallMsg(c) }

  // Everything this client has packed or is packing is a call.
  ghost predicate Talks(c: Client) {
    && (forall j :: 0 <= j < |c.packed| ==> IsCall(c.packed[j]))
    && (Packing(c) ==> IsCall(c.pc.m.bytes))
  }

  // ---------- state ----------

  // One pair per slot; `rounds` counts the rounds decoded. Once `io` has failed
  // the server takes no further turn.
  datatype World = World(pairs: seq<Pair>, io: Io, rounds: nat)

  ghost predicate PairOk(p: Pair, rounds: nat, region: nat) {
    Inv(p, region) && Talks(p.c) && p.s.decoded == rounds
  }

  ghost predicate PairsOk(pairs: seq<Pair>, rounds: nat, region: nat) {
    |pairs| > 0 && forall i :: 0 <= i < |pairs| ==> PairOk(pairs[i], rounds, region)
  }

  lemma DecodedBound(p: Pair, rounds: nat, region: nat)
    requires PairOk(p, rounds, region)
    ensures rounds <= |p.s.delivered| <= |p.c.packed| && |p.s.recv.q| == |p.s.delivered| - rounds
  {
    hide ReadInv, Flat, PcInv;
    assert |RecvQueue.Queued(p.s.recv)| == |p.s.recv.q|;
  }

  // Enough calls were packed for r to be a round.
  ghost predicate Reaches(pairs: seq<Pair>, r: nat) {
    forall i :: 0 <= i < |pairs| ==> r <= |pairs[i].c.packed| && Talks(pairs[i].c)
  }

  // The r-th call of every client, in slot order.
  ghost function Column(pairs: seq<Pair>, r: nat): (calls: seq<Call>)
    requires Reaches(pairs, r + 1)
    ensures |calls| == |pairs|
  {
    seq(|pairs|, i requires 0 <= i < |pairs| => CallOf(pairs[i].c.packed[r]))
  }

  ghost function Columns(pairs: seq<Pair>, k: nat): (rounds: seq<seq<Call>>)
    requires Reaches(pairs, k)
    ensures |rounds| == k && forall r :: 0 <= r < k ==> |rounds[r]| == |pairs|
  {
    if k == 0 then [] else Columns(pairs, k - 1) + [Column(pairs, k - 1)]
  }

  lemma PairsReach(pairs: seq<Pair>, rounds: nat, region: nat)
    requires PairsOk(pairs, rounds, region)
    ensures Reaches(pairs, rounds)
  {
    hide Inv, Talks;
    forall i | 0 <= i < |pairs| ensures rounds <= |pairs[i].c.packed| && Talks(pairs[i].c) {
      DecodedBound(pairs[i], rounds, region);
    }
  }

  ghost predicate WorldInv(w: World, io0: Io, region: nat) {
    && PairsOk(w.pairs, w.rounds, region) && Reaches(w.pairs, w.rounds) && Sized(io0, |w.pairs|)
    && w.io == ServerRun(io0, |w.pairs|, Columns(w.pairs, w.rounds))
  }

  // ---------- the round loop ----------

  ghost predicate AllWaiting(pairs: seq<Pair>) { forall i :: 0 <= i < |pairs| ==> pairs[i].s.recv.q != [] }

  // The first queued message is the next undecoded call of the client.
  lemma HeadIsNext(p: Pair, rounds: nat, region: nat)
    requires PairOk(p, rounds, region) && p.s.recv.q != []
    ensures RecvQueue.InBlock(p.s.recv) && rounds < |p.c.packed| && RecvQueue.Slice(p.s.recv, 0) == p.c.packed[rounds]
  {
    hide ReadInv, Flat, PcInv;
    DecodedBound(p, rounds, region);
    assert RecvQueue.Queued(p.s.recv)[0] == p.s.delivered[rounds..][0];
  }

  lemma HeadsReach(pairs: seq<Pair>, rounds: nat, region: nat)
    requires PairsOk(pairs, rounds, region) && AllWaiting(pairs)
    ensures Reaches(pairs, rounds + 1)
  {
    hide Inv, Talks;
    forall i | 0 <= i < |pairs| ensures rounds + 1 <= |pairs[i].c.packed| && Talks(pairs[i].c) {
      assert PairOk(pairs[i], rounds, region);
      HeadIsNext(pairs[i], rounds, region);
    }
  }

  // What get_first and the unpackers return for slot 0, 1, ... in turn.
  ghost function Heads(pairs: seq<Pair>, rounds: nat, region: nat): (calls: seq<Call>)
    requires PairsOk(pairs, rounds, region) && AllWaiting(pairs)
    ensures Reaches(pairs, rounds + 1) && calls == Column(pairs, rounds)
  {
    HeadsReach(pairs, rounds, region);
    hide Inv, Talks;
    seq(|pairs|, i requires 0 <= i < |pairs| => Unpacked(pairs[i], rounds, region))
  }

  ghost function Unpacked(p: Pair, rounds: nat, region: nat): (c: Call)
    requires PairOk(p, rounds, region) && p.s.recv.q != []
    ensures rounds < |p.c.packed| && c == CallOf(p.c.packed[rounds])
  {
    HeadIsNext(p, rounds, region);
    hide Inv, Message, Unpack, RecvQueue.InBlock, RecvQueue.Slice;
    CallUnpacks(p.c.packed[rounds]);
    Unpack(RecvQueue.Slice(p.s.recv, 0)).value.0
  }

  ghost function Decoded(p: Pair, rounds: nat, region: nat): (p': Pair)
    requires PairOk(p, rounds, region) && p.s.recv.q != []
    ensures PairOk(p', rounds + 1, region) && p'.c == p.c && |p'.s.recv.q| == |p.s.recv.q| - 1
  {
    StepInv(p, Decode, region);
    RecvQueue.PopCorrect(p.s.recv);
    hide Inv, Talks, RecvQueue.Valid;
    Next(p, Decode, region)
  }

  ghost function DecodeRound(w: World, io0: Io, region: nat): (w': World)
    requires WorldInv(w, io0, region) && AllWaiting(w.pairs)
    ensures |w'.pairs| == |w.pairs| && w'.rounds == w.rounds + 1
    ensures forall i :: 0 <= i < |w.pairs| ==> w'.pairs[i] == Decoded(w.pairs[i], w.rounds, region)
  {
    hide PairOk, Reaches;
    World(seq(|w.pairs|, i requires 0 <= i < |w.pairs| => Decoded(w.pairs[i], w.rounds, region)),
          Round(w.io, |w.pairs|, Heads(w.pairs, w.rounds, region), |w.pairs|), w.rounds + 1)
  }

  lemma {:induction false} ServerRunAppend(io: Io, n: nat, rounds: seq<seq<Call>>, calls: seq<Call>)
    requires Sized(io, n) && |calls| == n && forall r :: 0 <= r < |rounds| ==> |rounds[r]| == n
    ensures ServerRun(io, n, rounds + [calls]) == Round(ServerRun(io, n, rounds), n, calls, n)
    decreases |rounds|
  {
    hide Sized, Round;
    if rounds == [] {
      assert ([calls])[1..] == [];
    } else {
      assert (rounds + [calls])[0] == rounds[0] && (rounds + [calls])[1..] == rounds[1..] + [calls];
      ServerRunAppend(Round(io, n, rounds[0], n), n, rounds[1..], calls);
    }
  }

  // Calls already packed stay where they are.
  lemma {:induction false} ColumnsKept(pairs: seq<Pair>, pairs': seq<Pair>, k: nat)
    requires Reaches(pairs, k) && Reaches(pairs', k) && |pairs| == |pairs'|
    requires forall i :: 0 <= i < |pairs| ==> pairs[i].c.packed <= pairs'[i].c.packed
    ensures Columns(pairs', k) == Columns(pairs, k)
  {
    if k > 0 {
      ColumnsKept(pairs, pairs', k - 1);
      hide Talks, Columns, Message, Unpack;
      assert forall i :: 0 <= i < |pairs| ==> pairs'[i].c.packed[k - 1] == pairs[i].c.packed[k - 1];
      assert Column(pairs', k - 1) == Column(pairs, k - 1);
      ColumnsStep(pairs, k);
      ColumnsStep(pairs', k);
    }
  }

  lemma ColumnsStep(pairs: seq<Pair>, k: nat)
    requires k > 0 && Reaches(pairs, k)
    ensures Reaches(pairs, k - 1) && Columns(pairs, k) == Columns(pairs, k - 1) + [Column(pairs, k - 1)]
  {
  }

  // What a round does to the pairs.
  lemma RoundPairs(w: World, io0: Io, region: nat)
    requires WorldInv(w, io0, region) && AllWaiting(w.pairs)
    ensures var w' := DecodeRound(w, io0, region);
      && PairsOk(w'.pairs, w.rounds + 1, region) && Reaches(w'.pairs, w.rounds + 1) && Reaches(w.pairs, w.rounds + 1)
      && forall i :: 0 <= i < |w.pairs| ==> w'.pairs[i].c == w.pairs[i].c
  {
    hide Sized, Round, ServerRun, PairOk, Talks, Columns, Column;
    HeadsReach(w.pairs, w.rounds, region);
    PairsReach(DecodeRound(w, io0, region).pairs, w.rounds + 1, region);
  }

  /** The k-th round decodes the k-th message of every client, in slot order. */
  lemma RoundInv(w: World, io0: Io, region: nat)
    requires WorldInv(w, io0, region) && AllWaiting(w.pairs)
    ensures WorldInv(DecodeRound(w, io0, region), io0, region)
  {
    hide Sized, Round, ServerRun, PairOk, Talks, Columns, Column, PairsOk, Reaches, AllWaiting;
    var n, w' := |w.pairs|, DecodeRound(w, io0, region);
    RoundPairs(w, io0, region);
    ColumnsKept(w.pairs, w'.pairs, w.rounds + 1);
    ColumnsStep(w.pairs, w.rounds + 1);
    ServerRunAppend(io0, n, Columns(w.pairs, w.rounds), Column(w.pairs, w.rounds));
  }

  function FirstQueue(w: World): nat { if w.pairs == [] then 0 else |w.pairs[0].s.recv.q| }

  lemma DrainRound(w: World, io0: Io, region: nat)
    requires WorldInv(w, io0, region) && AllWaiting(w.pairs)
    ensures WorldInv(DecodeRound(w, io0, region), io0, region) && FirstQueue(DecodeRound(w, io0, region)) < FirstQueue(w)
    ensures forall i :: 0 <= i < |w.pairs| ==> DecodeRound(w, io0, region).pairs[i].c == w.pairs[i].c
  {
    hide PairOk, Reaches, ServerRun, Sized;
    RoundInv(w, io0, region);
  }

  // Rounds are decoded while every client has a message queued.
  ghost function Drain(w: World, io0: Io, region: nat): (w': World)
    requires WorldInv(w, io0, region)
    ensures WorldInv(w', io0, region) && |w'.pairs| == |w.pairs| && !AllWaiting(w'.pairs)
    ensures forall i :: 0 <= i < |w.pairs| ==> w'.pairs[i].c == w.pairs[i].c
    decreases FirstQueue(w)
  {
    hide WorldInv, AllWaiting, FirstQueue;
    if AllWaiting(w.pairs) then
      DrainRound(w, io0, region);
      Drain(DecodeRound(w, io0, region), io0, region)
    else w
  }

  // ---------- runs ----------

  datatype Action =
    | Act(i: nat, st: Step)             // a step of client i, or something of its arrives
    | ServerTurn(i: nat, polled: bool)  // one iteration of the server loop

  ghost predicate CanDo(w: World, a: Action, region: nat)
    requires PairsOk(w.pairs, w.rounds, region)
  {
    a.i < |w.pairs| && var p := w.pairs[a.i];
    match a
    case Act(_, st) =>
      && !st.Visit? && !st.Decode? && Enabled(p, st) && Safe(p, st) && (st.Begin? ==> IsCallMsg(st.m))
    case ServerTurn(_, polled) => !w.io.failed && Enabled(p, Visit(polled))
  }

  // A step other than a decode only appends calls.
  lemma PackedHistory(p: Pair, st: Step, region: nat)
    requires Inv(p, region) && Enabled(p, st) && Safe(p, st) && !st.Decode?
    ensures var c, c' := p.c, Next(p, st, region).c;
      && (c'.packed == c.packed || (Packing(c) && c'.packed == c.packed + [c.pc.m.bytes]))
      && (Packing(c') ==> if st.Begin? then c'.pc.m == st.m else Packing(c) && c'.pc.m == c.pc.m)
    ensures Next(p, st, region).s.decoded == p.s.decoded
    ensures !st.Visit? ==> Next(p, st, region).s.recv == p.s.recv
  {
    hide RecvQueue.Valid, RecvQueue.Queued, ReadInv, PcInv, Flat, CopyLoop, Unflushed, Order;
  }

  lemma StepHistory(p: Pair, st: Step, rounds: nat, region: nat)
    requires PairOk(p, rounds, region) && Enabled(p, st) && Safe(p, st) && !st.Decode?
    requires st.Begin? ==> IsCallMsg(st.m)
    ensures PairOk(Next(p, st, region), rounds, region) && p.c.packed <= Next(p, st, region).c.packed
    ensures !st.Visit? ==> Next(p, st, region).s.recv == p.s.recv
  {
    StepInv(p, st, region);
    PackedHistory(p, st, region);
    hide Inv, IsCall, Next, Enabled, Safe, Message, Unpack;
    if st.Begin? {
      var c: Call :| Sendable(c) && st.m == CallMsg(c);
      CallOfMessage(c);
    }
  }

  lemma SteppedPairs(pairs: seq<Pair>, i: nat, st: Step, rounds: nat, region: nat)
    requires PairsOk(pairs, rounds, region) && i < |pairs| && !st.Decode?
    requires Enabled(pairs[i], st) && Safe(pairs[i], st) && (st.Begin? ==> IsCallMsg(st.m))
    ensures Inv(pairs[i], region)
    ensures var pairs' := pairs[i := Next(pairs[i], st, region)];
      PairsOk(pairs', rounds, region) && Reaches(pairs', rounds) && pairs[i].c.packed <= pairs'[i].c.packed
  {
    assert PairOk(pairs[i], rounds, region);
    hide Inv, Talks, Next, Enabled, Safe;
    StepHistory(pairs[i], st, rounds, region);
    hide PairOk;
    PairsReach(pairs[i := Next(pairs[i], st, region)], rounds, region);
  }

  ghost function StepPair(w: World, i: nat, st: Step, io0: Io, region: nat): (w': World)
    requires WorldInv(w, io0, region) && i < |w.pairs| && !st.Decode?
    requires Enabled(w.pairs[i], st) && Safe(w.pairs[i], st) && (st.Begin? ==> IsCallMsg(st.m))
    ensures WorldInv(w', io0, region) && w' == w.(pairs := w.pairs[i := Next(w.pairs[i], st, region)])
  {
    hide PairOk, Talks, Next, Columns, Sized, ServerRun;
    var w' := w.(pairs := w.pairs[i := Next(w.pairs[i], st, region)]);
    SteppedPairs(w.pairs, i, st, w.rounds, region);
    ColumnsKept(w.pairs, w'.pairs, w.rounds);
    w'
  }

  ghost function Do(w: World, a: Action, io0: Io, region: nat): (w': World)
    requires WorldInv(w, io0, region) && CanDo(w, a, region)
    ensures WorldInv(w', io0, region) && |w'.pairs| == |w.pairs|
  {
    hide PairOk, Reaches, ServerRun, Sized, Next;
    match a
    case Act(i, st) => StepPair(w, i, st, io0, region)
    case ServerTurn(i, polled) =>
      var finished := Pickup(w.pairs[i].s).0;
      var w1 := StepPair(w, i, Visit(polled), io0, region);
      if finished then w1 else Drain(w1, io0, region)
  }

  // At the head of the server loop some client has no message queued.
  lemma SomeQueueEmpty(w: World, a: Action, io0: Io, region: nat)
    requires WorldInv(w, io0, region) && CanDo(w, a, region) && !AllWaiting(w.pairs)
    ensures !AllWaiting(Do(w, a, io0, region).pairs)
  {
    hide PairOk, Reaches, ServerRun, Sized;
    var i :| 0 <= i < |w.pairs| && w.pairs[i].s.recv.q == [];
    match a
    case Act(j, st) =>
      StepHistory(w.pairs[j], st, w.rounds, region);
      assert Do(w, a, io0, region).pairs[i].s.recv == w.pairs[i].s.recv by { hide Next; }
    case ServerTurn(j, polled) =>
      if Pickup(w.pairs[j].s).0 {
        assert Do(w, a, io0, region).pairs[i].s.recv == w.pairs[i].s.recv;
      }
  }

  ghost predicate Runs(w: World, run: seq<Action>, io0: Io, region: nat)
    requires WorldInv(w, io0, region)
    decreases |run|
  {
    run == [] || (CanDo(w, run[0], region) && Runs(Do(w, run[0], io0, region), run[1..], io0, region))
  }

  ghost function Reached(w: World, run: seq<Action>, io0: Io, region: nat): (w': World)
    requires WorldInv(w, io0, region) && Runs(w, run, io0, region)
    ensures WorldInv(w', io0, region) && |w'.pairs| == |w.pairs|
    decreases |run|
  {
    hide PairOk, Reaches, ServerRun, Sized, CanDo, Do;
    if run == [] then w else Reached(Do(w, run[0], io0, region), run[1..], io0, region)
  }

  lemma {:induction false} AlwaysSomeEmpty(w: World, run: seq<Action>, io0: Io, region: nat)
    requires WorldInv(w, io0, region) && Runs(w, run, io0, region) && !AllWaiting(w.pairs)
    ensures !AllWaiting(Reached(w, run, io0, region).pairs)
    decreases |run|
  {
    hide PairOk, Reaches, ServerRun, Sized, CanDo, Do, AllWaiting;
    if run != [] {
      SomeQueueEmpty(w, run[0], io0, region);
      AlwaysSomeEmpty(Do(w, run[0], io0, region), run[1..], io0, region);
    }
  }
}
