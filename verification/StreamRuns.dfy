/** What holds in every run of the flush protocol, and exactly when it fails. */
module StreamRuns {
  import opened Bytes
  import opened Rings
  import opened Stream
  import opened StreamInvariant
  import RecvQueue

  // ---------- whole runs ----------

  ghost function Start(mem: seq<Byte>, recvMem: seq<Byte>): (p: Pair)
    requires |mem| > 0 && |recvMem| > 0
    ensures forall region: nat :: region >= |recvMem| ==> Inv(p, region)
  {
    Pair(Client(Ring(mem, 0, 0, 0), Addr(0, 0, 0), SIGNAL_CLEAR, Idle, [], 0),
         Server(Addr(0, 0, 0), SIGNAL_CLEAR, 0, true, [], false, RecvQueue.Recv(Ring(recvMem, 0, 0, 0), []), [], 0, false))
  }

  // A run of enabled steps, none of which packs up to the ring's end.
  ghost predicate SafeRun(p: Pair, steps: seq<Step>, region: nat)
    requires Inv(p, region)
    decreases |steps|
  {
    steps == [] ||
    (Enabled(p, steps[0]) && Safe(p, steps[0])
     && (StepInv(p, steps[0], region); SafeRun(Next(p, steps[0], region), steps[1..], region)))
  }

  ghost function After(p: Pair, steps: seq<Step>, region: nat): (p': Pair)
    requires Inv(p, region) && SafeRun(p, steps, region)
    ensures Inv(p', region)
    decreases |steps|
  {
    if steps == [] then p
    else StepInv(p, steps[0], region); After(Next(p, steps[0], region), steps[1..], region)
  }

  // The stream equation: in the region, unread, unflushed, in this order.
  ghost predicate Conserved(p: Pair) {
    && p.c.ring.Valid() && AddrIn(p.c.addr, p.c.ring.Size())
    && p.s.readAddr <= p.c.ring.Size() && (p.s.signal == SIGNAL_DATA ==> AddrIn(p.s.addr, p.c.ring.Size()))
    && p.s.delivered <= p.c.packed
    && Resolve(p.s.region, p.c.ring.mem) + InFlight(p.s, p.c.ring.mem) + Unflushed(p.c) == Flat(p.c.packed[|p.s.delivered|..])
  }

  ghost function InFlight(s: Server, mem: seq<Byte>): seq<Byte>
    requires s.readAddr <= |mem| && (s.signal == SIGNAL_DATA ==> AddrIn(s.addr, |mem|))
  {
    if s.signal == SIGNAL_DATA then Unread(s, mem) else []
  }

  lemma InvConserved(p: Pair, region: nat)
    requires Inv(p, region)
    ensures Conserved(p)
  {
    hide RecvQueue.Valid, RecvQueue.Queued, PcInv;
    var d, f := |p.s.delivered|, p.c.flushed;
    assert p.c.packed[d..] == p.c.packed[d..f] + p.c.packed[f..];
    FlatAppend(p.c.packed[d..f], p.c.packed[f..]);
    assert Resolve([], p.c.ring.mem) == [];
  }

  /** Stream conservation: whatever the interleaving, what the server queued is a
      prefix of what the client packed, message for message, and the bytes still
      on the way are exactly the rest; undecoded messages wait intact. */
  lemma StreamConserved(mem: seq<Byte>, recvMem: seq<Byte>, region: nat, steps: seq<Step>)
    requires |mem| > 0 && 0 < |recvMem| <= region
    requires SafeRun(Start(mem, recvMem), steps, region)
    ensures var p := After(Start(mem, recvMem), steps, region);
      && Conserved(p) && p.s.recv.ring.Valid() && RecvQueue.Valid(p.s.recv)
      && p.s.decoded <= |p.s.delivered| && RecvQueue.Queued(p.s.recv) == p.s.delivered[p.s.decoded..]
      && (p.c.pc.Ensure? || p.c.pc.Wait? || p.c.pc.WaitAck? ==> p.c.pc.calls <= 2)
  {
    InvConserved(After(Start(mem, recvMem), steps, region), region);
  }

  // ---------- reclaiming ----------

  /** A packer that waits for space never publishes a range without a message. */
  lemma ReclaimCarriesMessage(p: Pair, region: nat)
    requires Inv(p, region) && p.c.pc.Wait? && p.c.ring.used == p.c.addr.free
    ensures p.c.flushed < |p.c.packed|
  {
    hide RecvQueue.Valid, RecvQueue.Queued, ReadInv;
    assert p.c.packed[|p.c.packed|..] == [];
  }

  // ---------- published data does not move ----------

  // The snapshot of p stays published through the whole run.
  ghost predicate StaysPublished(p: Pair, steps: seq<Step>, region: nat)
    requires Inv(p, region) && SafeRun(p, steps, region)
    decreases |steps|
  {
    p.s.signal == SIGNAL_DATA
    && (steps == [] || (StepInv(p, steps[0], region); StaysPublished(Next(p, steps[0], region), steps[1..], region)))
  }

  lemma StepKeepsSnapshot(p: Pair, st: Step, region: nat)
    requires Inv(p, region) && Enabled(p, st) && Safe(p, st) && p.s.signal == SIGNAL_DATA
    ensures Next(p, st, region).s.addr == p.s.addr
    ensures SnapshotKept(p.s.addr, p.c.ring.mem, Next(p, st, region).c.ring.mem)
  {
    hide RecvQueue.Valid, RecvQueue.Queued, ReadInv, Flat, CopyLoop;
    if st.Go? && p.c.pc.Ensure? && p.c.pc.second && FreeSize(p.c.ring) >= |p.c.pc.m.bytes| {
      PackKeepsSnapshot(p, p.c.pc.m, region);
    }
  }

  /** In-flight stability: from publication until the acknowledgement no byte of
      the snapshot changes, so it does not matter when the server's reads happen. */
  lemma {:induction false} PublishedIsStable(p: Pair, steps: seq<Step>, region: nat)
    requires Inv(p, region) && SafeRun(p, steps, region) && StaysPublished(p, steps, region)
    ensures After(p, steps, region).s.addr == p.s.addr
    ensures SnapshotKept(p.s.addr, p.c.ring.mem, After(p, steps, region).c.ring.mem)
    decreases |steps|
  {
    if steps != [] {
      StepInv(p, steps[0], region);
      StepKeepsSnapshot(p, steps[0], region);
      PublishedIsStable(Next(p, steps[0], region), steps[1..], region);
    }
  }

  // ---------- exactly when packing loses bytes ----------

  /** After the client packs a message the stream equation holds exactly when the
      message does not end at the last byte of the ring: in that case use_buf has
      recorded an end before the message's last field, which is never read. */
  lemma PackKeepsStreamIff(p: Pair, region: nat)
    requires Inv(p, region) && p.c.pc.Ensure? && p.c.pc.second && FreeSize(p.c.ring) >= |p.c.pc.m.bytes|
    ensures Conserved(ClientGo(p)) <==> !EndsAtRingEnd(p.c)
  {
    hide RecvQueue.Valid, RecvQueue.Queued;
    if EndsAtRingEnd(p.c) {
      ExactEndLoses(p, region);
    } else {
      PackStep(p, region);
      InvConserved(ClientGo(p), region);
    }
  }

  lemma ExactEndLoses(p: Pair, region: nat)
    requires Inv(p, region) && p.c.pc.Ensure? && p.c.pc.second && FreeSize(p.c.ring) >= |p.c.pc.m.bytes|
    requires EndsAtRingEnd(p.c)
    ensures !Conserved(ClientGo(p))
  {
    hide RecvQueue.Valid, RecvQueue.Queued, ReadInv;
    var c, c', m, d := p.c, ClientGo(p).c, p.c.pc.m, |p.s.delivered|;
    InvConserved(p, region);
    FlatSnoc(c.packed[d..], m.bytes);
    assert c'.packed[d..] == c.packed[d..] + [m.bytes];
    PackedShort(c, m, p.s.recv.ring.Size());
    assert InFlightLength(p.s, c.ring.mem) == InFlightLength(p.s, c'.ring.mem);
  }

  lemma PackedShort(c: Client, m: Msg, recvSize: nat)
    requires ClientInv(c, c.ring.Size(), recvSize) && c.pc.Ensure? && c.pc.second && c.pc.m == m
    requires FreeSize(c.ring) >= |m.bytes| && EndsAtRingEnd(c)
    ensures |Unflushed(Pack(c, m))| < |Unflushed(c)| + |m.bytes|
  {
    hide Flat;
  }

  // The number of bytes in flight does not depend on what they are.
  ghost function InFlightLength(s: Server, mem: seq<Byte>): (n: nat)
    requires s.readAddr <= |mem| && (s.signal == SIGNAL_DATA ==> AddrIn(s.addr, |mem|))
    ensures n == |InFlight(s, mem)|
  {
    if s.signal != SIGNAL_DATA then 0
    else if s.unseen then SpanLength(s.addr.used, s.addr.free, s.addr.end)
    else if !s.readDone then SpanLength(s.readAddr, s.addr.free, s.addr.end)
    else 0
  }

  lemma SpanLengthIs(mem: seq<Byte>, from: nat, to: nat, end: nat)
    requires from <= |mem| && to <= |mem| && end <= |mem|
    ensures |Span(mem, from, to, end)| == SpanLength(from, to, end)
  {
  }

  function SpanLength(from: nat, to: nat, end: nat): nat {
    if from <= to then to - from else if from <= end then end - from + to else to
  }

  // ---------- turns of the server ----------

  function LandAll(p: Pair): (p': Pair) {
    p.(s := p.s.(region := Cells(Resolve(p.s.region, p.c.ring.mem))))
  }

  ghost function Turn(p: Pair, region: nat, polled: bool): (p': Pair)
    requires p.s.recv.ring.Valid()
    ensures p'.s.recv.ring.Valid()
  {
    p.(s := ServerVisit(p.s, region, polled))
  }

  // ---------- acknowledgement ----------

  // A published snapshot without a message, all of it already "read". The client
  // may go on packing, to the last byte of the ring or not.
  ghost predicate Stuck(p: Pair) {
    && p.c.ring.Valid() && AddrIn(p.s.addr, p.c.ring.Size()) && p.c.addr.free < p.c.ring.Size()
    && p.s.signal == SIGNAL_DATA && p.c.signal == SIGNAL_DATA
    && p.s.region == [] && Snapshot(p.s.addr, p.c.ring.mem) == []
    && (p.s.addr.used > p.s.addr.free ==> p.s.addr.used <= p.s.addr.end)
    && (!p.s.readDone ==> p.s.readAddr == p.s.addr.used || p.s.readAddr == p.s.addr.free)
    && RecvQueue.Valid(p.s.recv) && StuckPc(p.c)
  }

  ghost predicate StuckPc(c: Client)
    requires c.ring.Valid()
  {
    match c.pc
    case Ensure(m, second, _) => m.last <= |m.bytes| && 2 * |m.bytes| < c.ring.Size() && (second ==> |m.bytes| <= LeftSpace(c.ring))
    case Wait(m, _, _) => m.last <= |m.bytes|
    case WaitAck(m, _, _) => m.last <= |m.bytes|
    case _ => true
  }

  lemma StuckRunnable(p: Pair)
    requires Stuck(p)
    ensures Runnable(p)
  {
    if p.s.recv.q != [] { RecvQueue.PopCorrect(p.s.recv); }
  }

  lemma StuckVisit(p: Pair, region: nat, polled: bool)
    requires Stuck(p)
    ensures Stuck(p.(s := ServerVisit(p.s, region, polled)))
  {
    hide RecvQueue.Valid, CopyAndAck, Span, StuckPc;
    QueueRing(p.s.recv);
    StuckRead(p, region);
    var s1 := Pickup(p.s).1;
    hide ReadData, Pickup;
    assert ServerVisit(p.s, region, polled) == if !s1.readDone && |s1.region| < region then ReadData(s1, region) else s1;
  }

  lemma QueueRing(r: RecvQueue.Recv)
    requires RecvQueue.Valid(r)
    ensures r.ring.Valid()
  {
  }

  // The turn finds nothing to read and nothing to copy.
  lemma StuckRead(p: Pair, region: nat)
    requires Stuck(p)
    ensures !Pickup(p.s).0 && Pickup(p.s).1.region == [] && Stuck(p.(s := Pickup(p.s).1))
    ensures !Pickup(p.s).1.readDone && 0 < region ==>
      ReadData(Pickup(p.s).1, region).region == [] && Stuck(p.(s := ReadData(Pickup(p.s).1, region)))
  {
    hide RecvQueue.Valid, StuckPc;
    var s1 := Pickup(p.s).1;
    assert p.s.addr.used == p.s.addr.free || (p.s.addr.free == 0 && p.s.addr.used == p.s.addr.end) by { StuckAddr(p); }
    if !s1.readDone {
      hide Span;
      assert ReadLength(s1, region) == 0;
      assert s1.region + Post(s1.readAddr, 0) == [];
    }
  }

  lemma StuckAddr(p: Pair)
    requires Stuck(p)
    ensures p.s.addr.used == p.s.addr.free || (p.s.addr.free == 0 && p.s.addr.used == p.s.addr.end)
  {
    hide RecvQueue.Valid, StuckPc;
    SpanLengthIs(p.c.ring.mem, p.s.addr.used, p.s.addr.free, p.s.addr.end);
  }

  lemma StuckGo(p: Pair)
    requires Stuck(p) && CanGo(p.c) && Runnable(p)
    ensures Stuck(ClientGo(p))
  {
    hide RecvQueue.Valid;
  }

  // Any enabled step, the two excluded situations among them.
  lemma StuckStep(p: Pair, st: Step, region: nat)
    requires Stuck(p) && Enabled(p, st)
    ensures Runnable(p) && Stuck(Next(p, st, region))
  {
    StuckRunnable(p);
    match st
    case Visit(polled) => StuckVisit(p, region, polled);
    case Go => StuckGo(p);
    case Decode => RecvQueue.PopCorrect(p.s.recv);
    case _ => hide RecvQueue.Valid;
  }

  // Any sequence of enabled steps from such a state, and where it leads.
  ghost predicate StuckRun(p: Pair, steps: seq<Step>, region: nat)
    requires Stuck(p)
    decreases |steps|
  {
    steps == [] ||
    (Enabled(p, steps[0]) && (StuckStep(p, steps[0], region); StuckRun(Next(p, steps[0], region), steps[1..], region)))
  }

  /** Once an empty snapshot is published, no run whatsoever acknowledges it. */
  ghost function StuckAfter(p: Pair, steps: seq<Step>, region: nat): (q: Pair)
    requires Stuck(p) && StuckRun(p, steps, region)
    ensures Stuck(q)
    decreases |steps|
  {
    if steps == [] then p
    else StuckStep(p, steps[0], region); StuckAfter(Next(p, steps[0], region), steps[1..], region)
  }

  lemma FlushSnapshot(p: Pair, region: nat)
    requires Inv(p, region) && Enabled(p, IoEnd)
    ensures Inv(Next(p, IoEnd, region), region) && Next(p, IoEnd, region).s.unseen
    ensures Snapshot(Next(p, IoEnd, region).s.addr, p.c.ring.mem) == Unflushed(p.c)
    ensures Unflushed(p.c) == [] <==> p.c.flushed == |p.c.packed|
    ensures p.s.region == [] && |p.s.delivered| == p.c.flushed
  {
    hide RecvQueue.Valid, RecvQueue.Queued, ReadInv;
    IoEndStep(p, region);
    NoBytesIffNoMessages(p.c.packed[p.c.flushed..]);
  }

  /** An io_end with nothing packed since the last flush hangs the client: after
      no run of enabled steps is another io_end or io_done enabled. */
  lemma EmptyFlushHangs(p: Pair, steps: seq<Step>, region: nat)
    requires Inv(p, region) && Enabled(p, IoEnd) && p.c.flushed == |p.c.packed|
    ensures Stuck(Next(p, IoEnd, region))
    ensures StuckRun(Next(p, IoEnd, region), steps, region) ==>
      var q := StuckAfter(Next(p, IoEnd, region), steps, region); !Enabled(q, IoEnd) && !Enabled(q, IoDone)
  {
    FlushSnapshot(p, region);
    hide ReadInv, Flat, RecvQueue.Queued;
  }

  // ---------- progress of reading ----------

  // Parts of the snapshot still to visit, bytes not yet posted, not-done flag.
  ghost function Segments(s: Server): nat { if LowerPart(s) then 1 else 2 }

  /** Every read with room left makes progress in (parts, bytes, not done), and
      never exceeds the region. */
  lemma ReadProgress(s: Server, mem: seq<Byte>, region: nat)
    requires AddrIn(s.addr, |mem|) && s.readAddr <= |mem| && ReadInv(s, mem, region)
    requires s.signal == SIGNAL_DATA && !s.unseen && !s.readDone && |s.region| < region
    ensures var s' := ReadData(s, region);
      && |s'.region| <= region && s'.readAddr <= |mem|
      && (Segments(s') < Segments(s)
          || (Segments(s') == Segments(s) && |Unread(s', mem)| < |Unread(s, mem)|)
          || (Segments(s') == Segments(s) && |Unread(s', mem)| == |Unread(s, mem)| && s'.readDone))
  {
    ReadContent(s, mem, region);
    var s' := ReadData(s, region);
    assert |s'.region| + |Unread(s', mem)| == |Resolve(s'.region, mem) + Unread(s', mem)|;
    assert |s.region| + |Unread(s, mem)| == |Resolve(s.region, mem) + Unread(s, mem)|;
  }

  // ---------- a flush that carries a message ----------

  lemma LandAllInv(p: Pair, region: nat)
    requires Inv(p, region)
    ensures Inv(LandAll(p), region) && AllLanded(LandAll(p).s.region)
  {
    hide RecvQueue.Valid, RecvQueue.Queued, Flat, PcInv, Unflushed;
    assert Resolve(LandAll(p).s.region, p.c.ring.mem) == Resolve(p.s.region, p.c.ring.mem);
  }

  // The rounds have taken everything the client had queued.
  ghost function Emptied(p: Pair, region: nat): (q: Pair)
    requires Inv(p, region)
    ensures Inv(q, region) && q.s.recv.q == [] && q.c == p.c
    ensures q.s == p.s.(recv := q.s.recv, decoded := q.s.decoded)
    decreases |p.s.recv.q|
  {
    if p.s.recv.q == [] then p else DecodeStep(p, region); Emptied(Next(p, Decode, region), region)
  }

  // A fair turn: the queue has been emptied, the posted bytes have landed, and the
  // server comes to this client.
  ghost function Serve(p: Pair, region: nat): (q: Pair)
    requires Inv(p, region)
    ensures Inv(q, region)
  {
    var r := LandAll(Emptied(p, region));
    LandAllInv(Emptied(p, region), region);
    VisitInv(r, region, true);
    Turn(r, region, true)
  }

  ghost function ServeTimes(p: Pair, n: nat, region: nat): (q: Pair)
    requires Inv(p, region)
    ensures Inv(q, region)
    decreases n
  {
    if n == 0 then p else ServeTimes(Serve(p, region), n - 1, region)
  }

  // Not yet picked up; parts and bytes still to read; not marked as read;
  // messages still to queue.
  ghost function Left(p: Pair, i: nat): nat
    requires p.c.ring.Valid() && AddrIn(p.s.addr, p.c.ring.Size()) && p.s.readAddr <= p.c.ring.Size()
  {
    match i
    case 0 => if p.s.unseen then 1 else 0
    case 1 => Segments(p.s)
    case 2 => |Unread(p.s, p.c.ring.mem)|
    case 3 => if p.s.readDone then 0 else 1
    case _ => if |p.s.delivered| <= p.c.flushed then p.c.flushed - |p.s.delivered| else 0
  }

  // Still unacknowledged, with a message in the snapshot.
  ghost predicate Carrying(p: Pair, region: nat) {
    && Inv(p, region) && p.s.signal == SIGNAL_DATA
    && AddrIn(p.s.addr, p.c.ring.Size()) && p.s.readAddr <= p.c.ring.Size() && Snapshot(p.s.addr, p.c.ring.mem) != []
  }

  ghost predicate Less(q: Pair, p: Pair, region: nat)
    requires Carrying(p, region) && Carrying(q, region)
  {
    || Left(q, 0) < Left(p, 0)
    || (Left(q, 0) == Left(p, 0) && Left(q, 1) < Left(p, 1))
    || (Left(q, 0) == Left(p, 0) && Left(q, 1) == Left(p, 1) && Left(q, 2) < Left(p, 2))
    || (Left(q, 0) == Left(p, 0) && Left(q, 1) == Left(p, 1) && Left(q, 2) == Left(p, 2) && Left(q, 3) < Left(p, 3))
    || (Left(q, 0) == Left(p, 0) && Left(q, 1) == Left(p, 1) && Left(q, 2) == Left(p, 2) && Left(q, 3) == Left(p, 3)
        && Left(q, 4) < Left(p, 4))
  }

  // An empty queue takes the message at the front of the region, if it is whole.
  lemma CopyTakesOne(p: Pair, region: nat)
    requires Carrying(p, region) && p.s.recv.q == [] && AllLanded(p.s.region) && |p.s.region| >= 8
    requires Unread(p.s, p.c.ring.mem) == [] || |p.s.region| >= region
    ensures |CopyToList(p.s).delivered| > |p.s.delivered|
  {
    hide RecvQueue.Valid, RecvQueue.Queued, Flat, PcInv, Unflushed, CopyLoop, Span, RecvQueue.AddMsg, DecSize, ReadInv;
    var mem, b, d := p.c.ring.mem, Values(p.s.region), |p.s.delivered|;
    var pend := p.c.packed[d..p.c.flushed];
    ResolveLanded(p.s.region, mem);
    FrontMessage(b, Unread(p.s, mem), pend);
    assert b + Unread(p.s, mem) == Flat(pend);
    assert pend[0] == p.c.packed[d];
    FrontFits(b, Unread(p.s, mem), pend);
    RecvQueue.AddMsgCorrect(p.s.recv, pend[0]);
    var recv1 := RecvQueue.AddMsg(p.s.recv, pend[0]).1;
    CopyLoopCorrect(b[|pend[0]|..], Unread(p.s, mem), recv1, p.s.delivered + [pend[0]], pend[1..]);
    CopyFirst(b, p.s.recv, p.s.delivered);
  }

  lemma FrontFits(b: seq<Byte>, rest: seq<Byte>, pend: seq<seq<Byte>>)
    requires b + rest == Flat(pend) && pend != []
    ensures rest == [] ==> |pend[0]| <= |b|
  {
    assert Flat(pend) == pend[0] + Flat(pend[1..]);
    assert |b + rest| == |b| + |rest|;
  }

  lemma CopyFirst(b: seq<Byte>, recv: RecvQueue.Recv, delivered: seq<seq<Byte>>)
    requires recv.ring.Valid() && |b| >= 8 && 0 < DecSize(b[..8]) <= |b| && RecvQueue.AddMsg(recv, b[..DecSize(b[..8])]).0
    ensures var m := b[..DecSize(b[..8])];
      CopyLoop(b, recv, delivered) == CopyLoop(b[|m|..], RecvQueue.AddMsg(recv, m).1, delivered + [m])
  {
    hide RecvQueue.AddMsg, DecSize;
  }

  // Until it is acknowledged, such a snapshot has a message that is not queued.
  lemma PendingLeft(p: Pair, region: nat)
    requires Carrying(p, region)
    ensures |p.s.delivered| < p.c.flushed && region >= 8
  {
    hide RecvQueue.Valid, RecvQueue.Queued, PcInv, Unflushed, CopyLoop;
    var mem, d := p.c.ring.mem, |p.s.delivered|;
    SomethingLeft(p, region);
    assert |Resolve(p.s.region, mem) + Unread(p.s, mem)| == |p.s.region| + |Unread(p.s, mem)|;
    assert |Flat(p.c.packed[d..p.c.flushed])| > 0;
    hide Flat;
    assert RecvQueue.Delimited(p.c.packed[d]);
  }

  lemma SomethingLeft(p: Pair, region: nat)
    requires Carrying(p, region)
    ensures p.s.region != [] || Unread(p.s, p.c.ring.mem) != []
  {
    hide RecvQueue.Valid, RecvQueue.Queued, PcInv, Unflushed, CopyLoop, Flat, Span;
    var a, mem := p.s.addr, p.c.ring.mem;
    SpanLengthIs(mem, a.used, a.free, a.end);
    SpanLengthIs(mem, p.s.readAddr, a.free, a.end);
  }

  // A turn that only copies.
  lemma CopyTurnProgress(p: Pair, region: nat)
    requires Carrying(p, region) && p.s.recv.q == [] && AllLanded(p.s.region) && !p.s.unseen
    requires p.s.readDone || |p.s.region| >= region
    ensures var t := Turn(p, region, true); t.c == p.c && (t.s.signal == SIGNAL_CLEAR || (Carrying(t, region) && Less(t, p, region)))
  {
    hide Inv, CopyLoop, RecvQueue.Valid, Segments, Span, CopyToList, Unread, ServerVisit;
    CopyTurn(p, region);
    CopyTakesOne(p, region);
    CopyKeeps(p.s);
    TurnKeepsInv(p, region);
    var t := Turn(p, region, true);
    if t.s.signal == SIGNAL_DATA { SameReading(p.s, t.s, p.c.ring.mem); }
  }

  lemma TurnKeepsInv(p: Pair, region: nat)
    requires Inv(p, region)
    ensures Inv(Turn(p, region, true), region)
    ensures |Turn(p, region, true).s.delivered| <= p.c.flushed
  {
    VisitInv(p, region, true);
    hide RecvQueue.Valid, RecvQueue.Queued, PcInv, Unflushed, CopyLoop, Flat, Span, ServerVisit, ReadInv;
  }

  lemma CopyKeeps(s: Server)
    requires s.recv.ring.Valid() && AllLanded(s.region) && s.signal == SIGNAL_DATA
    ensures var s' := CopyAndAck(s);
      && s'.addr == s.addr && s'.unseen == s.unseen && s'.readDone == s.readDone && s'.readAddr == s.readAddr
      && (s'.signal == SIGNAL_DATA || s'.signal == SIGNAL_CLEAR) && s'.delivered == CopyToList(s).delivered
  {
    hide CopyLoop;
  }

  lemma SameReading(s: Server, s': Server, mem: seq<Byte>)
    requires AddrIn(s.addr, |mem|) && s.readAddr <= |mem| && s'.addr == s.addr && s'.signal == s.signal
    requires s'.unseen == s.unseen && s'.readDone == s.readDone && s'.readAddr == s.readAddr
    ensures Unread(s', mem) == Unread(s, mem) && Segments(s') == Segments(s)
  {
  }

  // What such a turn is, and that it finds a message to copy.
  lemma CopyTurn(p: Pair, region: nat)
    requires Carrying(p, region) && AllLanded(p.s.region) && !p.s.unseen && (p.s.readDone || |p.s.region| >= region)
    ensures p.s.recv.ring.Valid() && Turn(p, region, true) == p.(s := CopyAndAck(p.s)) && |p.s.region| >= 8
    ensures Unread(p.s, p.c.ring.mem) == [] || |p.s.region| >= region
  {
    hide RecvQueue.Valid, RecvQueue.Queued, PcInv, Unflushed, CopyLoop, CopyAndAck, Span, Flat;
    var mem, pend := p.c.ring.mem, p.c.packed[|p.s.delivered|..p.c.flushed];
    PendingLeft(p, region);
    if p.s.readDone {
      assert Unread(p.s, mem) == [];
      assert Resolve(p.s.region, mem) + [] == Resolve(p.s.region, mem);
      assert pend[0] == p.c.packed[|p.s.delivered|];
      FrontFits(Resolve(p.s.region, mem), [], pend);
    }
  }

  // A turn that picks up the snapshot, or reads.
  lemma ReadTurnProgress(p: Pair, region: nat)
    requires Carrying(p, region) && AllLanded(p.s.region)
    requires p.s.unseen || (!p.s.readDone && |p.s.region| < region)
    ensures var t := Turn(p, region, true); t.c == p.c && (t.s.signal == SIGNAL_CLEAR || (Carrying(t, region) && Less(t, p, region)))
  {
    hide RecvQueue.Valid, RecvQueue.Queued, PcInv, Unflushed, CopyLoop, Span, Flat, CopyToList, ServerVisit, ReadData;
    PendingLeft(p, region);
    PickupInv(p, region);
    TurnKeepsInv(p, region);
    var mem, s1, t := p.c.ring.mem, Pickup(p.s).1, Turn(p, region, true);
    ReadTurn(p, region);
    if !p.s.unseen { ReadProgress(p.s, mem, region); }
    var s2 := ReadData(s1, region);
    if t.s.signal == SIGNAL_DATA { SameReading(s2, t.s, mem); }
  }

  lemma ReadTurn(p: Pair, region: nat)
    requires Carrying(p, region) && region > 0 && (p.s.unseen || (!p.s.readDone && |p.s.region| < region))
    ensures var t, s2 := Turn(p, region, true), ReadData(Pickup(p.s).1, region);
      && t.c == p.c && (t.s.signal == SIGNAL_DATA || t.s.signal == SIGNAL_CLEAR) && s2.signal == SIGNAL_DATA && !s2.unseen
      && s2.readAddr <= p.c.ring.Size() && s2.addr == p.s.addr
      && t.s.addr == s2.addr && t.s.unseen == s2.unseen && t.s.readDone == s2.readDone && t.s.readAddr == s2.readAddr
      && (!p.s.unseen ==> Pickup(p.s).1 == p.s)
  {
    hide RecvQueue.Valid, RecvQueue.Queued, PcInv, Unflushed, CopyLoop, Span, Flat, CopyAndAck;
    PickupInv(p, region);
    var s1 := Pickup(p.s).1;
    ReadUnread(s1, p.c.ring.mem, region);
    var s2 := ReadData(s1, region);
    if |s2.region| >= 8 && AllLanded(s2.region) { CopyKeeps(s2); }
  }

  /** Every fair turn acknowledges the flush, or brings it closer. */
  lemma ServeProgress(p: Pair, region: nat)
    requires Carrying(p, region)
    ensures var q := Serve(p, region); q.s.signal == SIGNAL_CLEAR || (Carrying(q, region) && Less(q, p, region))
  {
    hide RecvQueue.Valid, RecvQueue.Queued, PcInv, Unflushed, CopyLoop, Span, Flat, Turn, Snapshot, ReadInv, Segments;
    var r := LandAll(Emptied(p, region));
    LandAllInv(Emptied(p, region), region);
    SameReading(p.s, r.s, p.c.ring.mem);
    assert Carrying(r, region);
    if r.s.unseen || (!r.s.readDone && |r.s.region| < region) {
      ReadTurnProgress(r, region);
    } else {
      CopyTurnProgress(r, region);
    }
  }

  /** A flush that carries a message is acknowledged after enough fair turns, for
      every size of the client's ring. */
  lemma {:induction false} FlushIsAcknowledged(p: Pair, region: nat)
    requires Carrying(p, region)
    ensures exists n: nat :: ServeTimes(p, n, region).s.signal == SIGNAL_CLEAR
    decreases Left(p, 0), Left(p, 1), Left(p, 2), Left(p, 3), Left(p, 4)
  {
    hide Carrying, Serve, Left, Inv;
    ServeProgress(p, region);
    CarryingParts(p, region);
    var q := Serve(p, region);
    if q.s.signal == SIGNAL_CLEAR {
      assert ServeTimes(q, 0, region) == q;
      assert ServeTimes(p, 1, region).s.signal == SIGNAL_CLEAR;
    } else {
      FlushIsAcknowledged(q, region);
      var n: nat :| ServeTimes(q, n, region).s.signal == SIGNAL_CLEAR;
      assert ServeTimes(p, n + 1, region) == ServeTimes(q, n, region);
    }
  }

  lemma CarryingParts(p: Pair, region: nat)
    requires Carrying(p, region)
    ensures Inv(p, region) && p.s.signal == SIGNAL_DATA
    ensures p.c.ring.Valid() && AddrIn(p.s.addr, p.c.ring.Size()) && p.s.readAddr <= p.c.ring.Size()
  {
  }

  // ---------- exactly which flushes are acknowledged ----------

  lemma {:induction false} StuckEmptied(p: Pair, region: nat)
    requires Inv(p, region) && Stuck(p)
    ensures Stuck(Emptied(p, region))
    decreases |p.s.recv.q|
  {
    hide Inv, Stuck;
    if p.s.recv.q != [] {
      DecodeStep(p, region);
      StuckStep(p, Decode, region);
      StuckEmptied(Next(p, Decode, region), region);
    }
  }

  lemma StuckServe(p: Pair, region: nat)
    requires Inv(p, region) && Stuck(p)
    ensures Stuck(Serve(p, region))
  {
    hide RecvQueue.Valid, CopyLoop, PcInv, ClientInv, ServerInv, LinkInv, ServerVisit, Snapshot, StuckPc;
    StuckEmptied(p, region);
    var r := Emptied(p, region);
    LandAllInv(r, region);
    assert LandAll(r).s.region == r.s.region;
    assert LandAll(r) == r;
    StuckVisit(r, region, true);
    assert Serve(p, region) == Turn(r, region, true);
  }

  lemma {:induction false} StuckServed(p: Pair, n: nat, region: nat)
    requires Inv(p, region) && Stuck(p)
    ensures Stuck(ServeTimes(p, n, region))
    decreases n
  {
    hide Inv, Stuck, Serve;
    if n > 0 {
      StuckServe(p, region);
      StuckServed(Serve(p, region), n - 1, region);
    }
  }

  lemma FlushCarries(p: Pair, region: nat)
    requires Inv(p, region) && Enabled(p, IoEnd) && p.c.flushed < |p.c.packed|
    ensures Carrying(Next(p, IoEnd, region), region)
  {
    hide RecvQueue.Valid, RecvQueue.Queued, PcInv, Flat;
    FlushSnapshot(p, region);
  }

  /** An io_end is acknowledged, after enough fair turns, exactly when something was
      packed since the last flush. */
  lemma FlushAcknowledgedIff(p: Pair, region: nat)
    requires Inv(p, region) && Enabled(p, IoEnd)
    ensures Inv(Next(p, IoEnd, region), region)
    ensures (exists n: nat :: ServeTimes(Next(p, IoEnd, region), n, region).s.signal == SIGNAL_CLEAR) <==> p.c.flushed < |p.c.packed|
  {
    FlushSnapshot(p, region);
    hide Inv, Stuck, Next, ServeTimes, Carrying;
    var q := Next(p, IoEnd, region);
    if p.c.flushed < |p.c.packed| {
      FlushCarries(p, region);
      FlushIsAcknowledged(q, region);
    } else {
      NotBeyond(p, region);
      EmptyFlushHangs(p, [], region);
      forall n: nat ensures ServeTimes(q, n, region).s.signal != SIGNAL_CLEAR {
        StuckServed(q, n, region);
        StuckSignal(ServeTimes(q, n, region));
      }
    }
  }

  lemma NotBeyond(p: Pair, region: nat)
    requires Inv(p, region)
    ensures p.c.flushed <= |p.c.packed|
  {
  }

  lemma StuckSignal(p: Pair)
    requires Stuck(p)
    ensures p.s.signal == SIGNAL_DATA
  {
  }

  // ---------- a fair turn is a run ----------

  ghost predicate Leads(p: Pair, steps: seq<Step>, q: Pair, region: nat) {
    Inv(p, region) && SafeRun(p, steps, region) && After(p, steps, region) == q && Inv(q, region)
  }

  lemma LeadsOne(p: Pair, st: Step, q: Pair, region: nat)
    requires Inv(p, region) && Enabled(p, st) && Safe(p, st) && Next(p, st, region) == q
    ensures Leads(p, [st], q, region)
  {
    StepInv(p, st, region);
    hide Inv, Safe, Enabled, Next;
    assert [st][1..] == [];
    assert SafeRun(q, [], region) && After(q, [], region) == q;
  }

  lemma {:induction false} LeadsThen(p: Pair, s1: seq<Step>, q: Pair, s2: seq<Step>, r: Pair, region: nat)
    requires Leads(p, s1, q, region) && Leads(q, s2, r, region)
    ensures Leads(p, s1 + s2, r, region)
    decreases |s1|
  {
    hide Inv, Safe, Enabled, Next;
    if s1 == [] {
      assert s1 + s2 == s2;
    } else {
      StepInv(p, s1[0], region);
      var p1 := Next(p, s1[0], region);
      LeadsThen(p1, s1[1..], q, s2, r, region);
      assert (s1 + s2)[0] == s1[0] && (s1 + s2)[1..] == s1[1..] + s2;
    }
  }

  lemma LeadsStep(p: Pair, steps: seq<Step>, q: Pair, st: Step, r: Pair, region: nat)
    requires Leads(p, steps, q, region)
    requires Inv(q, region) && Enabled(q, st) && Safe(q, st) && Next(q, st, region) == r
    ensures Leads(p, steps + [st], r, region)
  {
    LeadsOne(q, st, r, region);
    hide Leads, Inv, Safe, Enabled, Next;
    LeadsThen(p, steps, q, [st], r, region);
  }

  // The bytes still awaited from position k on, one after the other.
  function LandSteps(region: seq<Cell>, k: nat): seq<Step>
    decreases |region| - k
  {
    if k >= |region| then [] else (if region[k].Awaiting? then [Land(k)] else []) + LandSteps(region, k + 1)
  }

  lemma {:induction false} LandStepsSame(r: seq<Cell>, r': seq<Cell>, k: nat)
    requires |r| == |r'| && forall i :: k <= i < |r| ==> r[i].Awaiting? == r'[i].Awaiting?
    ensures LandSteps(r, k) == LandSteps(r', k)
    decreases |r| - k
  {
    if k < |r| { LandStepsSame(r, r', k + 1); }
  }

  // All posted bytes arrive.
  lemma {:induction false} LandRun(p: Pair, k: nat, region: nat)
    requires Inv(p, region) && k <= |p.s.region| && forall i :: 0 <= i < k ==> p.s.region[i].Landed?
    ensures Leads(p, LandSteps(p.s.region, k), LandAll(p), region)
    decreases |p.s.region| - k
  {
    hide ClientInv, ServerInv, LinkInv;
    if k == |p.s.region| {
      assert LandAll(p).s.region == p.s.region;
      assert LandAll(p) == p;
    } else if p.s.region[k].Landed? {
      LandRun(p, k + 1, region);
      assert [] + LandSteps(p.s.region, k + 1) == LandSteps(p.s.region, k + 1);
    } else {
      var q := Next(p, Land(k), region);
      LeadsOne(p, Land(k), q, region);
      LandRun(q, k + 1, region);
      LandStepsSame(p.s.region, q.s.region, k + 1);
      assert Resolve(q.s.region, p.c.ring.mem) == Resolve(p.s.region, p.c.ring.mem);
      SameLanding(p, q);
      hide Leads, LandAll;
      LeadsThen(p, [Land(k)], q, LandSteps(p.s.region, k + 1), LandAll(q), region);
    }
  }

  lemma SameLanding(p: Pair, q: Pair)
    requires q.c == p.c && q.s == p.s.(region := q.s.region)
    requires Resolve(q.s.region, p.c.ring.mem) == Resolve(p.s.region, p.c.ring.mem)
    ensures LandAll(q) == LandAll(p)
  {
  }

  lemma {:induction false} EmptiedRun(p: Pair, region: nat) returns (steps: seq<Step>)
    requires Inv(p, region)
    ensures Leads(p, steps, Emptied(p, region), region)
    decreases |p.s.recv.q|
  {
    hide Inv, Safe, Next;
    steps := [];
    if p.s.recv.q != [] {
      DecodeStep(p, region);
      var q := Next(p, Decode, region);
      SafeDecode(p, region);
      LeadsOne(p, Decode, q, region);
      var more := EmptiedRun(q, region);
      hide Leads;
      LeadsThen(p, [Decode], q, more, Emptied(q, region), region);
      steps := [Decode] + more;
    }
  }

  lemma SafeDecode(p: Pair, region: nat)
    requires Inv(p, region) && Enabled(p, Decode)
    ensures Safe(p, Decode) && |Next(p, Decode, region).s.recv.q| < |p.s.recv.q|
  {
    hide Inv;
  }

  /** A fair turn of an unfinished client is a run of the protocol. */
  lemma ServeIsRun(p: Pair, region: nat) returns (steps: seq<Step>)
    requires Inv(p, region) && !p.s.commDone
    ensures Leads(p, steps, Serve(p, region), region)
  {
    hide Inv, Turn, Leads;
    var empty := Emptied(p, region);
    var first := EmptiedRun(p, region);
    LandRun(empty, 0, region);
    LeadsThen(p, first, empty, LandSteps(empty.s.region, 0), LandAll(empty), region);
    LandAllInv(empty, region);
    TurnStep(LandAll(empty), region);
    LeadsStep(p, first + LandSteps(empty.s.region, 0), LandAll(empty), Visit(true), Serve(p, region), region);
    steps := first + LandSteps(empty.s.region, 0) + [Visit(true)];
  }

  lemma TurnStep(p: Pair, region: nat)
    requires Inv(p, region) && !p.s.commDone
    ensures Enabled(p, Visit(true)) && Safe(p, Visit(true)) && Next(p, Visit(true), region) == Turn(p, region, true)
  {
    hide Inv, ServerVisit;
  }
}
