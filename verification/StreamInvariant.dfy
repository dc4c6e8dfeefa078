/** The invariant of the flush protocol, and that every step keeps it. */
module StreamInvariant {
  import opened Bytes
  import opened Rings
  import opened Stream
  import RecvQueue

  // ---------- what the streams hold ----------

  // The bytes of a ring from one address to another; `end` is where the upper
  // part stops when the range wraps.
  function Span(mem: seq<Byte>, from: nat, to: nat, end: nat): seq<Byte>
    requires from <= |mem| && to <= |mem| && end <= |mem|
  {
    if from <= to then mem[from..to]
    else if from <= end then mem[from..end] + mem[..to]
    else mem[..to]
  }

  function Unflushed(c: Client): seq<Byte>
    requires c.ring.Valid() && c.addr.free <= c.ring.Size()
  {
    Span(c.ring.mem, c.addr.free, c.ring.free, c.ring.end)
  }

  function Resolve(region: seq<Cell>, mem: seq<Byte>): (b: seq<Byte>)
    ensures |b| == |region|
  {
    seq(|region|, i requires 0 <= i < |region| =>
      match region[i] case Landed(b) => b case Awaiting(at) => if at < |mem| then mem[at] else 0)
  }

  ghost predicate AddrIn(a: Addr, size: nat) { a.used < size && a.free < size && a.end <= size }

  // The part of the published snapshot that has not been posted for reading.
  ghost function Unread(s: Server, mem: seq<Byte>): seq<Byte>
    requires AddrIn(s.addr, |mem|) && s.readAddr <= |mem|
  {
    if s.signal != SIGNAL_DATA then []
    else if s.unseen then Span(mem, s.addr.used, s.addr.free, s.addr.end)
    else if !s.readDone then Span(mem, s.readAddr, s.addr.free, s.addr.end)
    else []
  }

  // ---------- invariants ----------

  // used, the published end and free, in ring order.
  ghost predicate Order(used: nat, mark: nat, free: nat) {
    || used <= mark <= free
    || free < used <= mark
    || mark <= free < used
  }

  ghost predicate PcInv(c: Client, size: nat, recvSize: nat)
    requires c.ring.Valid()
  {
    match c.pc
    case Idle => c.ring.free == 0 ==> c.ring.used == 0
    case Done => true
    case Ensure(m, second, n) =>
      && GoodMsg(m, size, recvSize) && Skipped(c, m, second)
      && (n == 0 || (n == 1 && c.ring.used == c.addr.free) || (n <= 2 && FreeSize(c.ring) >= |m.bytes| && (second || c.ring.used == c.ring.free)))
    case Wait(m, second, n) =>
      && GoodMsg(m, size, recvSize) && Skipped(c, m, second) && FreeSize(c.ring) < |m.bytes|
      && (n == 1 || (n == 2 && c.ring.used == c.addr.free))
    case WaitAck(m, second, n) =>
      && GoodMsg(m, size, recvSize) && Skipped(c, m, second)
      && n <= 2 && c.addr.free == c.ring.free
  }

  // Before the skip test free_addr is 0 only in a ring that was emptied there;
  // after it the message fits the tail, or the tail was skipped with room below.
  ghost predicate Skipped(c: Client, m: Msg, second: bool)
    requires c.ring.Valid()
  {
    if second then
      && |m.bytes| <= LeftSpace(c.ring)
      && (c.ring.free == 0 && c.ring.used > 0 ==> c.ring.end > |m.bytes|)
    else c.ring.free == 0 ==> c.ring.used == 0
  }

  ghost predicate ClientInv(c: Client, size: nat, recvSize: nat) {
    ClientCore(c, recvSize) && c.ring.Size() == size && PcInv(c, size, recvSize)
  }

  ghost predicate ClientCore(c: Client, recvSize: nat) {
    && c.ring.Valid() && AddrIn(c.addr, c.ring.Size())
    && Order(c.ring.used, c.addr.free, c.ring.free)
    && (c.ring.free < c.addr.free ==> c.addr.free <= c.ring.end)
    && c.flushed <= |c.packed|
    && (forall i :: 0 <= i < |c.packed| ==> RecvQueue.Delimited(c.packed[i]) && 2 * |c.packed[i]| < recvSize)
    && Unflushed(c) == Flat(c.packed[c.flushed..])
  }

  ghost predicate InSnapshot(a: Addr, x: nat) {
    if a.used <= a.free then a.used <= x < a.free else (a.used <= x < a.end || x < a.free)
  }

  function Snapshot(a: Addr, mem: seq<Byte>): seq<Byte>
    requires a.used <= |mem| && a.free <= |mem| && a.end <= |mem|
  {
    Span(mem, a.used, a.free, a.end)
  }

  ghost predicate LinkInv(p: Pair) {
    && (p.c.signal == SIGNAL_CLEAR || p.c.signal == SIGNAL_DATA || p.c.signal == SIGNAL_END)
    && (p.c.signal == SIGNAL_END <==> p.c.pc.Done?)
    && (p.c.signal == SIGNAL_DATA ==> p.c.addr.used == p.c.ring.used && (p.s.signal == SIGNAL_CLEAR || p.s.signal == SIGNAL_DATA))
    && (p.c.signal != SIGNAL_DATA ==> p.s.signal == p.c.signal)
    && (p.s.signal == SIGNAL_DATA ==> p.s.addr == p.c.addr)
    && (p.c.pc.WaitAck? && p.c.signal != SIGNAL_DATA ==> p.s.signal == SIGNAL_CLEAR)
    && (p.s.commDone ==> p.s.signal == SIGNAL_END)
  }

  // Where the reads of a published snapshot stand.
  ghost predicate ReadInv(s: Server, mem: seq<Byte>, region: nat)
    requires AddrIn(s.addr, |mem|) && s.readAddr <= |mem|
  {
    && (s.unseen ==> s.readDone && s.region == [])
    && (s.addr.used > s.addr.free ==> s.addr.used <= s.addr.end)
    && (!s.readDone ==> if s.addr.used <= s.addr.free then s.addr.used <= s.readAddr <= s.addr.free
                        else s.readAddr <= s.addr.free || s.readAddr == s.addr.used || s.addr.used < s.readAddr < s.addr.end)
    && (forall i :: 0 <= i < |s.region| && s.region[i].Awaiting? ==> InSnapshot(s.addr, s.region[i].at))
    && |s.region| + |Unread(s, mem)| <= |Snapshot(s.addr, mem)|
    && (s.readDone && s.region == [] && !s.unseen ==> Snapshot(s.addr, mem) == [])
    && |s.region| <= region
    && (!s.readDone && s.readAddr == s.addr.free && Snapshot(s.addr, mem) != [] ==> s.region != [])
  }

  ghost predicate ServerInv(p: Pair, region: nat)
    requires p.c.ring.Valid() && p.c.flushed <= |p.c.packed|
  {
    var s, mem := p.s, p.c.ring.mem;
    && s.readAddr <= |mem|
    && |s.delivered| <= p.c.flushed && s.delivered == p.c.packed[..|s.delivered|]
    && RecvQueue.Valid(s.recv) && s.decoded <= |s.delivered| && RecvQueue.Queued(s.recv) == s.delivered[s.decoded..]
    && if s.signal == SIGNAL_DATA then
         && AddrIn(s.addr, |mem|) && ReadInv(s, mem, region)
         && Resolve(s.region, mem) + Unread(s, mem) == Flat(p.c.packed[|s.delivered|..p.c.flushed])
       else s.region == [] && s.readDone && !s.unseen && |s.delivered| == p.c.flushed
  }

  // The server allocates the region and the client's receive ring in the same size.
  ghost predicate Inv(p: Pair, region: nat) {
    && p.s.recv.ring.Valid() && p.s.recv.ring.Size() <= region
    && ClientInv(p.c, p.c.ring.Size(), p.s.recv.ring.Size())
    && LinkInv(p)
    && ServerInv(p, region)
  }

  // ---------- client steps ----------

  // Packing and skipping write only to the free part, so no byte of a snapshot
  // changes while it is published.
  ghost predicate SnapshotKept(a: Addr, mem: seq<Byte>, mem': seq<Byte>) {
    |mem'| == |mem| && forall x :: 0 <= x < |mem| && InSnapshot(a, x) ==> mem'[x] == mem[x]
  }

  lemma {:induction false} FlatSnoc(ms: seq<seq<Byte>>, m: seq<Byte>)
    ensures Flat(ms + [m]) == Flat(ms) + m
  {
    FlatAppend(ms, [m]);
    FlatOne(m);
  }

  // A message that does not end at the block's end extends the unflushed stream.
  lemma PackStream(c: Client, m: Msg, size: nat, recvSize: nat)
    requires ClientInv(c, size, recvSize) && c.pc.Ensure? && c.pc.second && c.pc.m == m
    requires FreeSize(c.ring) >= |m.bytes| && c.ring.free + |m.bytes| != size
    ensures Unflushed(Pack(c, m)) == Unflushed(c) + m.bytes
  {
    var n, f, a := |m.bytes|, c.ring.free, c.addr.free;
    var mem' := Splice(c.ring.mem, f, m.bytes);
    assert mem'[f..f + n] == m.bytes;
    if a <= f {
      SpliceElsewhere(c.ring.mem, f, m.bytes, a, f);
      assert mem'[a..f + n] == mem'[a..f] + mem'[f..f + n];
    } else {
      SpliceElsewhere(c.ring.mem, f, m.bytes, a, c.ring.end);
      SpliceElsewhere(c.ring.mem, f, m.bytes, 0, f);
      assert mem'[..f + n] == mem'[..f] + mem'[f..f + n];
    }
  }

  lemma PackInv(c: Client, m: Msg, size: nat, recvSize: nat)
    requires ClientInv(c, size, recvSize) && c.pc.Ensure? && c.pc.second && c.pc.m == m
    requires FreeSize(c.ring) >= |m.bytes| && c.ring.free + |m.bytes| != size
    ensures ClientInv(Pack(c, m), size, recvSize)
  {
    PackStream(c, m, size, recvSize);
    var c' := Pack(c, m);
    assert c'.packed[c'.flushed..] == c.packed[c.flushed..] + [m.bytes];
    FlatSnoc(c.packed[c.flushed..], m.bytes);
  }

  lemma SkipInv(c: Client, m: Msg, calls: nat, size: nat, recvSize: nat)
    requires ClientInv(c, size, recvSize) && c.pc == Ensure(m, false, calls) && FreeSize(c.ring) >= |m.bytes|
    ensures ClientInv(c.(ring := SkipTail(c.ring, |m.bytes|), pc := Ensure(m, true, calls)), size, recvSize)
  {
  }

  lemma AdoptInv(c: Client, size: nat, recvSize: nat)
    requires ClientInv(c, size, recvSize) && c.pc.Wait? && c.ring.used != c.addr.free
    ensures ClientInv(Adopt(c).(pc := Ensure(c.pc.m, c.pc.second, c.pc.calls)), size, recvSize)
  {
  }

  // The server's view depends on the client's memory only through the snapshot.
  lemma KeptView(s: Server, mem: seq<Byte>, mem': seq<Byte>, region: nat)
    requires AddrIn(s.addr, |mem|) && s.readAddr <= |mem| && s.signal == SIGNAL_DATA
    requires ReadInv(s, mem, region) && SnapshotKept(s.addr, mem, mem')
    ensures Snapshot(s.addr, mem') == Snapshot(s.addr, mem)
    ensures Unread(s, mem') == Unread(s, mem) && Resolve(s.region, mem') == Resolve(s.region, mem)
    ensures ReadInv(s, mem', region)
  {
    SpanKept(s.addr, mem, mem', s.addr.used);
    if !s.readDone { SpanKept(s.addr, mem, mem', s.readAddr); }
    forall i | 0 <= i < |s.region| ensures Resolve(s.region, mem')[i] == Resolve(s.region, mem)[i] {
    }
  }

  lemma SpanKept(a: Addr, mem: seq<Byte>, mem': seq<Byte>, from: nat)
    requires AddrIn(a, |mem|) && SnapshotKept(a, mem, mem')
    requires if a.used <= a.free then a.used <= from <= a.free else from <= a.free || a.used <= from <= a.end
    ensures Span(mem', from, a.free, a.end) == Span(mem, from, a.free, a.end)
  {
    if from <= a.free {
      assert mem'[from..a.free] == mem[from..a.free];
    } else {
      assert mem'[from..a.end] == mem[from..a.end];
      assert mem'[..a.free] == mem[..a.free];
    }
  }

  // A step that leaves the server, its view and the flushed part alone.
  lemma QuietStep(p: Pair, p': Pair, region: nat)
    requires Inv(p, region) && p'.s == p.s && ClientInv(p'.c, p.c.ring.Size(), p.s.recv.ring.Size())
    requires p'.c.flushed == p.c.flushed && p.c.packed <= p'.c.packed
    requires p.s.signal == SIGNAL_DATA ==> SnapshotKept(p.s.addr, p.c.ring.mem, p'.c.ring.mem)
    ensures ServerInv(p', region)
  {
    assert p'.c.packed[..|p.s.delivered|] == p.c.packed[..|p.s.delivered|];
    if p.s.signal == SIGNAL_DATA {
      KeptView(p.s, p.c.ring.mem, p'.c.ring.mem, region);
      assert p'.c.packed[|p.s.delivered|..p.c.flushed] == p.c.packed[|p.s.delivered|..p.c.flushed];
    }
  }

  // The packed bytes go where no snapshot is.
  lemma PackKeepsSnapshot(p: Pair, m: Msg, region: nat)
    requires Inv(p, region) && p.s.signal == SIGNAL_DATA
    requires Fits(p.c.ring, |m.bytes|) && m.last <= |m.bytes|
    ensures SnapshotKept(p.s.addr, p.c.ring.mem, Pack(p.c, m).ring.mem)
  {
    var f, n := p.c.ring.free, |m.bytes|;
    var mem' := Splice(p.c.ring.mem, f, m.bytes);
    forall x | 0 <= x < |mem'| && InSnapshot(p.s.addr, x) ensures mem'[x] == p.c.ring.mem[x] {
      assert x < f || x >= f + n;
      if x < f { assert mem'[x] == mem'[..f][x]; } else { assert mem'[x] == mem'[f + n..][x - f - n]; }
    }
  }

  lemma PublishInv(p: Pair, region: nat)
    requires p.s.recv.ring.Valid() && p.c.ring.Valid() && p.c.signal == SIGNAL_CLEAR && p.s.signal == SIGNAL_CLEAR
    requires ClientCore(p.c, p.s.recv.ring.Size()) && ServerInv(p, region)
    requires p.c.ring.used == p.c.addr.free
    ensures ServerInv(Publish(p), region) && ClientCore(Publish(p).c, p.s.recv.ring.Size())
  {
    var p' := Publish(p);
    assert p'.c.packed[|p.s.delivered|..p'.c.flushed] == p.c.packed[p.c.flushed..];
    assert p.c.packed[..|p.s.delivered|] == p'.c.packed[..|p.s.delivered|];
    assert Resolve([], p.c.ring.mem) == [];
    assert p'.c.packed[|p.c.packed|..] == [];
  }

  // ---------- server steps ----------

  lemma PickupInv(p: Pair, region: nat)
    requires p.c.ring.Valid() && p.c.flushed <= |p.c.packed| && ServerInv(p, region)
    ensures ServerInv(p.(s := Pickup(p.s).1), region)
    ensures Pickup(p.s).0 ==> p.s.signal != SIGNAL_DATA && p.s.signal != SIGNAL_CLEAR
  {
  }

  lemma ResolvePosted(region: seq<Cell>, from: nat, n: nat, mem: seq<Byte>)
    requires from + n <= |mem|
    ensures Resolve(region + Post(from, n), mem) == Resolve(region, mem) + mem[from..from + n]
  {
  }

  lemma SpanSplit(mem: seq<Byte>, from: nat, to: nat, end: nat, n: nat)
    requires to <= |mem| && end <= |mem| && (from + n <= to || (to < from && from + n <= end))
    ensures Span(mem, from, to, end)
         == mem[from..from + n] + Span(mem, if to < from && from + n == end then 0 else from + n, to, end)
  {
  }

  lemma SpliceStreams(a: seq<Byte>, b: seq<Byte>, c: seq<Byte>)
    ensures (a + b) + c == a + (b + c)
  {
  }

  lemma ReadUnread(s: Server, mem: seq<Byte>, region: nat)
    requires AddrIn(s.addr, |mem|) && s.readAddr <= |mem| && ReadInv(s, mem, region)
    requires s.signal == SIGNAL_DATA && !s.readDone && |s.region| < region
    ensures ReadData(s, region).readAddr <= |mem| && s.readAddr + ReadLength(s, region) <= |mem|
    ensures Unread(s, mem) == mem[s.readAddr..s.readAddr + ReadLength(s, region)] + Unread(ReadData(s, region), mem)
  {
    hide Resolve, Post, Snapshot;
    SpanSplit(mem, s.readAddr, s.addr.free, s.addr.end, ReadLength(s, region));
  }

  lemma ReadRegion(s: Server, region: nat)
    ensures ReadData(s, region).region == s.region + Post(s.readAddr, ReadLength(s, region))
  {
  }

  // A read moves its piece of the snapshot from the unread part to the region.
  lemma ReadContent(s: Server, mem: seq<Byte>, region: nat)
    requires AddrIn(s.addr, |mem|) && s.readAddr <= |mem| && ReadInv(s, mem, region)
    requires s.signal == SIGNAL_DATA && !s.readDone && |s.region| < region
    ensures ReadData(s, region).readAddr <= |mem|
    ensures Resolve(ReadData(s, region).region, mem) + Unread(ReadData(s, region), mem) == Resolve(s.region, mem) + Unread(s, mem)
  {
    ReadUnread(s, mem, region);
    ReadRegion(s, region);
    hide ReadInv, Unread, ReadLength, Resolve, ReadData, Post;
    var n := ReadLength(s, region);
    ResolvePosted(s.region, s.readAddr, n, mem);
    SpliceStreams(Resolve(s.region, mem), mem[s.readAddr..s.readAddr + n], Unread(ReadData(s, region), mem));
  }

  lemma ReadPositions(s: Server, mem: seq<Byte>, region: nat)
    requires AddrIn(s.addr, |mem|) && s.readAddr <= |mem| && ReadInv(s, mem, region)
    requires s.signal == SIGNAL_DATA && !s.readDone && |s.region| < region
    ensures ReadData(s, region).readAddr <= |mem| && ReadInv(ReadData(s, region), mem, region)
  {
    ReadContent(s, mem, region);
    var s' := ReadData(s, region);
    assert |s'.region| + |Unread(s', mem)| == |Resolve(s'.region, mem) + Unread(s', mem)|;
    forall i | 0 <= i < |s'.region| && s'.region[i].Awaiting? ensures InSnapshot(s.addr, s'.region[i].at) {
      if i < |s.region| { assert s'.region[i] == s.region[i]; }
    }
  }

  lemma ReadDataInv(p: Pair, region: nat)
    requires p.c.ring.Valid() && p.c.flushed <= |p.c.packed| && ServerInv(p, region)
    requires p.s.signal == SIGNAL_DATA && !p.s.readDone && |p.s.region| < region
    ensures ServerInv(p.(s := ReadData(p.s, region)), region)
  {
    hide RecvQueue.Valid, RecvQueue.Queued, Flat, ReadInv, Unread, ReadLength;
    ReadContent(p.s, p.c.ring.mem, region);
    ReadPositions(p.s, p.c.ring.mem, region);
  }

  // What the front of the region must be, given the stream it begins.
  lemma FrontMessage(b: seq<Byte>, rest: seq<Byte>, pend: seq<seq<Byte>>)
    requires b + rest == Flat(pend) && |b| >= 8
    requires forall i :: 0 <= i < |pend| ==> RecvQueue.Delimited(pend[i])
    ensures pend != [] && DecSize(b[..8]) == |pend[0]|
    ensures |pend[0]| <= |b| ==> b[..|pend[0]|] == pend[0] && b[|pend[0]|..] + rest == Flat(pend[1..])
  {
    var m := pend[0];
    assert Flat(pend) == m + Flat(pend[1..]);
    assert b[..8] == (b + rest)[..8] == m[..8];
    if |m| <= |b| {
      assert b[..|m|] == (b + rest)[..|m|];
      assert b[|m|..] + rest == (b + rest)[|m|..];
    }
  }

  // k pending messages have moved to the queue; b is left in the region.
  ghost predicate Moved(b: seq<Byte>, rest: seq<Byte>, recv: RecvQueue.Recv, recv0: RecvQueue.Recv, pend: seq<seq<Byte>>, k: nat)
    requires RecvQueue.Valid(recv0)
  {
    && k <= |pend| && b + rest == Flat(pend[k..])
    && RecvQueue.Valid(recv) && recv.ring.Size() == recv0.ring.Size()
    && RecvQueue.Queued(recv) == RecvQueue.Queued(recv0) + pend[..k]
  }

  lemma MovedFirst(b: seq<Byte>, rest: seq<Byte>, recv: RecvQueue.Recv, recv1: RecvQueue.Recv, recv0: RecvQueue.Recv, pend: seq<seq<Byte>>, k: nat)
    requires RecvQueue.Valid(recv0) && RecvQueue.Valid(recv1) && pend != []
    requires recv1.ring.Size() == recv0.ring.Size() && RecvQueue.Queued(recv1) == RecvQueue.Queued(recv0) + [pend[0]]
    requires Moved(b, rest, recv, recv1, pend[1..], k)
    ensures Moved(b, rest, recv, recv0, pend, k + 1)
  {
    assert pend[..k + 1] == [pend[0]] + pend[1..][..k];
    assert pend[k + 1..] == pend[1..][k..];
    assert RecvQueue.Queued(recv) == RecvQueue.Queued(recv0) + ([pend[0]] + pend[1..][..k]);
  }

  lemma MovedNone(b: seq<Byte>, rest: seq<Byte>, recv: RecvQueue.Recv, recv0: RecvQueue.Recv, pend: seq<seq<Byte>>)
    requires RecvQueue.Valid(recv0) && b + rest == Flat(pend)
    requires RecvQueue.Valid(recv) && recv.ring.Size() == recv0.ring.Size() && RecvQueue.Queued(recv) == RecvQueue.Queued(recv0)
    ensures Moved(b, rest, recv, recv0, pend, 0)
  {
  }

  /** The copy loop moves a prefix of the pending messages, unchanged and in
      order, and what stays in the region is the rest of the stream. */
  lemma {:induction false} CopyLoopCorrect(b: seq<Byte>, rest: seq<Byte>, recv: RecvQueue.Recv, delivered: seq<seq<Byte>>, pend: seq<seq<Byte>>)
    requires b + rest == Flat(pend) && recv.ring.Valid() && RecvQueue.Valid(recv)
    requires forall i :: 0 <= i < |pend| ==> RecvQueue.Delimited(pend[i]) && 2 * |pend[i]| < recv.ring.Size()
    ensures var (b', recv', delivered') := CopyLoop(b, recv, delivered); var k := |delivered'| - |delivered|;
      && 0 <= k <= |pend| && delivered' == delivered + pend[..k]
      && Moved(b', rest, recv', recv, pend, k)
      && |b'| <= |b| && (k > 0 ==> |b'| < |b|)
    decreases |b|
  {
    hide RecvQueue.Valid, RecvQueue.AddMsg, RecvQueue.Queued, DecSize, Moved;
    MovedNone(b, rest, recv, recv, pend);
    if |b| >= 8 {
      FrontMessage(b, rest, pend);
      var m := pend[0];
      if |m| <= |b| {
        assert RecvQueue.Delimited(m) && recv.ring.Valid();
        RecvQueue.AddMsgCorrect(recv, m);
        var (ok, recv1) := RecvQueue.AddMsg(recv, m);
        if ok {
          CopyLoopCorrect(b[|m|..], rest, recv1, delivered + [m], pend[1..]);
          var (b', recv', delivered') := CopyLoop(b[|m|..], recv1, delivered + [m]);
          var k := |delivered'| - |delivered| - 1;
          MovedFirst(b', rest, recv', recv1, recv, pend, k);
          assert delivered' == delivered + pend[..k + 1];
        } else {
          MovedNone(b, rest, recv1, recv, pend);
        }
      }
    }
  }

  lemma ResolveLanded(region: seq<Cell>, mem: seq<Byte>)
    requires AllLanded(region)
    ensures Resolve(region, mem) == Values(region)
  {
  }

  lemma NoBytesIffNoMessages(ms: seq<seq<Byte>>)
    requires forall i :: 0 <= i < |ms| ==> RecvQueue.Delimited(ms[i])
    ensures Flat(ms) == [] <==> ms == []
  {
    if ms != [] { assert |Flat(ms)| >= |ms[0]|; }
  }

  // What copying does to the streams, the queue and the history.
  lemma CopyMoves(p: Pair, region: nat)
    requires p.c.ring.Valid() && p.s.recv.ring.Valid() && p.c.flushed <= |p.c.packed| && ServerInv(p, region)
    requires forall i :: 0 <= i < |p.c.packed| ==>
      RecvQueue.Delimited(p.c.packed[i]) && 2 * |p.c.packed[i]| < p.s.recv.ring.Size()
    requires p.s.signal == SIGNAL_DATA && AllLanded(p.s.region)
    ensures var s' := CopyToList(p.s);
      && s' == p.s.(region := s'.region, recv := s'.recv, delivered := s'.delivered)
      && |p.s.delivered| <= |s'.delivered| <= p.c.flushed && s'.delivered == p.c.packed[..|s'.delivered|]
      && Resolve(s'.region, p.c.ring.mem) + Unread(p.s, p.c.ring.mem) == Flat(p.c.packed[|s'.delivered|..p.c.flushed])
      && RecvQueue.Valid(s'.recv) && s'.recv.ring.Size() == p.s.recv.ring.Size()
      && RecvQueue.Queued(s'.recv) == s'.delivered[s'.decoded..]
      && AllLanded(s'.region) && |s'.region| <= |p.s.region|
      && (s'.region == [] && Unread(p.s, p.c.ring.mem) == [] ==> |s'.delivered| == p.c.flushed)
  {
    hide RecvQueue.Valid, RecvQueue.Queued, Flat, CopyLoop, DecSize, ReadInv, Unread;
    var s, mem := p.s, p.c.ring.mem;
    var d, rest := |s.delivered|, Unread(s, mem);
    var pend := p.c.packed[d..p.c.flushed];
    ResolveLanded(s.region, mem);
    CopyLoopCorrect(Values(s.region), rest, s.recv, s.delivered, pend);
    var (b', recv', delivered') := CopyLoop(Values(s.region), s.recv, s.delivered);
    var k := |delivered'| - d;
    ResolveLanded(Cells(b'), mem);
    assert delivered' == p.c.packed[..d + k];
    assert pend[k..] == p.c.packed[d + k..p.c.flushed];
    assert s.delivered[s.decoded..] + pend[..k] == delivered'[s.decoded..];
    NoBytesIffNoMessages(pend[k..]);
  }

  lemma CopyInv(p: Pair, region: nat)
    requires p.c.ring.Valid() && p.s.recv.ring.Valid() && p.c.flushed <= |p.c.packed| && ServerInv(p, region)
    requires forall i :: 0 <= i < |p.c.packed| ==>
      RecvQueue.Delimited(p.c.packed[i]) && 2 * |p.c.packed[i]| < p.s.recv.ring.Size()
    requires p.s.signal == SIGNAL_DATA && AllLanded(p.s.region) && |p.s.region| >= 8
    requires !p.s.readDone && p.s.readAddr == p.s.addr.free ==>
      CopyToList(p.s).region != [] || Snapshot(p.s.addr, p.c.ring.mem) == []
    ensures ServerInv(p.(s := CopyAndAck(p.s)), region)
    ensures CopyAndAck(p.s).recv.ring.Size() == p.s.recv.ring.Size()
  {
    CopyMoves(p, region);
    hide RecvQueue.Valid, RecvQueue.Queued, Flat, CopyToList, Resolve, Span;
  }

  lemma PostedAwaits(s: Server, region: nat)
    requires ReadLength(s, region) > 0
    ensures !AllLanded(ReadData(s, region).region)
  {
    assert ReadData(s, region).region[|s.region|].Awaiting?;
  }

  // A read that still leaves the lower end to be visited has just posted bytes.
  lemma ReadLanded(s: Server, mem: seq<Byte>, region: nat)
    requires AddrIn(s.addr, |mem|) && s.readAddr <= |mem| && ReadInv(s, mem, region)
    requires s.signal == SIGNAL_DATA && !s.readDone && |s.region| < region
    requires var s' := ReadData(s, region); AllLanded(s'.region) && !s'.readDone && s'.readAddr == s'.addr.free
    ensures Snapshot(s.addr, mem) == []
  {
    if ReadLength(s, region) > 0 { PostedAwaits(s, region); }
  }

  lemma AddMsgUses(r: RecvQueue.Recv, m: seq<Byte>)
    requires r.ring.Valid() && |m| > 0 && RecvQueue.AddMsg(r, m).0
    ensures UsedSize(RecvQueue.AddMsg(r, m).1.ring) >= UsedSize(r.ring) + |m|
    ensures RecvQueue.AddMsg(r, m).1.ring.Size() == r.ring.Size()
  {
  }

  // What one copy loop moves has to fit into the receive ring.
  lemma {:induction false} CopyFits(b: seq<Byte>, recv: RecvQueue.Recv, delivered: seq<seq<Byte>>)
    requires recv.ring.Valid() && CopyLoop(b, recv, delivered).0 == []
    ensures |b| + UsedSize(recv.ring) < recv.ring.Size()
    decreases |b|
  {
    hide RecvQueue.AddMsg, DecSize, UsedSize;
    if |b| >= 8 {
      var m := b[..DecSize(b[..8])];
      AddMsgUses(recv, m);
      CopyFits(b[|m|..], RecvQueue.AddMsg(recv, m).1, delivered + [m]);
    }
  }

  /** One copy loop never empties a full region: the protocol relies on the region
      being as large as the receive ring, which always keeps a byte free. */
  lemma FullRegionStays(s: Server, region: nat)
    requires s.recv.ring.Valid() && s.recv.ring.Size() <= region <= |s.region| && AllLanded(s.region)
    ensures CopyToList(s).region != []
  {
    hide CopyLoop, UsedSize;
    if CopyLoop(Values(s.region), s.recv, s.delivered).0 == [] {
      CopyFits(Values(s.region), s.recv, s.delivered);
    }
  }

  lemma VisitInv(p: Pair, region: nat, polled: bool)
    requires Inv(p, region)
    ensures Inv(p.(s := ServerVisit(p.s, region, polled)), region)
    ensures ServerVisit(p.s, region, polled).recv.ring.Size() == p.s.recv.ring.Size()
  {
    hide RecvQueue.Valid, RecvQueue.Queued, Flat, PcInv, ReadData, CopyAndAck, Unflushed;
    PickupInv(p, region);
    var (finished, s1) := Pickup(p.s);
    var p1 := p.(s := s1);
    if !finished && s1.signal == SIGNAL_DATA {
      var s2 := if !s1.readDone && |s1.region| < region then ReadData(s1, region) else s1;
      if !s1.readDone && |s1.region| < region { ReadDataInv(p1, region); }
      VisitCopies(p1, s2, region);
    }
  }

  /** The server's turn marks a client finished exactly when the client is done. */
  lemma VisitFinishes(p: Pair, region: nat, polled: bool)
    requires Inv(p, region)
    ensures ServerVisit(p.s, region, polled).commDone <==> p.c.pc.Done?
    ensures Pickup(p.s).0 <==> p.c.pc.Done?
    ensures p.c.pc.Done? ==> ServerVisit(p.s, region, polled) == p.s.(commDone := true)
  {
    hide RecvQueue.Valid, RecvQueue.Queued, Flat, PcInv, ReadInv, CopyLoop, Unflushed, Order;
  }

  lemma VisitCopies(p: Pair, s2: Server, region: nat)
    requires Inv(p, region) && p.s.signal == SIGNAL_DATA
    requires s2 == (if !p.s.readDone && |p.s.region| < region then ReadData(p.s, region) else p.s)
    requires ServerInv(p.(s := s2), region)
    ensures s2.signal == SIGNAL_DATA && s2.addr == p.s.addr && s2.recv == p.s.recv && s2.commDone == p.s.commDone
    ensures |s2.region| >= 8 && AllLanded(s2.region) ==>
      ServerInv(p.(s := CopyAndAck(s2)), region) && CopyAndAck(s2).recv.ring.Size() == p.s.recv.ring.Size()
      && CopyAndAck(s2).addr == p.s.addr && CopyAndAck(s2).commDone == p.s.commDone
      && (CopyAndAck(s2).signal == SIGNAL_DATA || CopyAndAck(s2).signal == SIGNAL_CLEAR)
  {
    hide RecvQueue.Valid, RecvQueue.Queued, Flat, PcInv, CopyLoop, Unflushed;
    if |s2.region| >= 8 && AllLanded(s2.region) {
      if !s2.readDone && s2.readAddr == s2.addr.free {
        if |p.s.region| < region { ReadLanded(p.s, p.c.ring.mem, region); } else { FullRegionStays(s2, region); }
      }
      CopyInv(p.(s := s2), region);
    }
  }

  // ---------- one step ----------

  // All a step needs in order to be defined.
  ghost predicate Runnable(p: Pair) {
    && p.c.ring.Valid() && p.c.addr.free < p.c.ring.Size() && p.s.recv.ring.Valid()
    && (!p.c.pc.Idle? && !p.c.pc.Done? ==> p.c.pc.m.last <= |p.c.pc.m.bytes|)
    && (p.c.pc.Ensure? && p.c.pc.second && FreeSize(p.c.ring) >= |p.c.pc.m.bytes| ==> Fits(p.c.ring, |p.c.pc.m.bytes|))
    && (p.s.recv.q != [] ==> p.s.recv.q[0].addr < p.s.recv.ring.Size() && p.s.recv.q[0].size <= p.s.recv.ring.Size())
  }

  lemma InvRunnable(p: Pair, region: nat)
    requires Inv(p, region)
    ensures Runnable(p)
  {
    if p.s.recv.q != [] { RecvQueue.PopCorrect(p.s.recv); }
    hide ReadInv, Flat, Unflushed;
  }

  lemma NextDefined(p: Pair, region: nat)
    requires Inv(p, region) || Runnable(p)
    ensures Runnable(p)
  {
    if Inv(p, region) { InvRunnable(p, region); }
    hide Inv, Runnable;
  }

  ghost function Next(p: Pair, st: Step, region: nat): (p': Pair)
    requires Inv(p, region) || Runnable(p)
    requires Enabled(p, st)
  {
    NextDefined(p, region);
    match st
    case Begin(m) => p.(c := p.c.(pc := Ensure(m, false, 0)))
    case Go => ClientGo(p)
    case IoEnd => Publish(p.(c := Adopt(p.c)))
    case IoDone => Pair(p.c.(signal := SIGNAL_END, pc := Done), p.s.(addr := p.c.addr, signal := SIGNAL_END))
    case AckLands => p.(c := p.c.(signal := SIGNAL_CLEAR))
    case Land(k) =>
      var at := p.s.region[k].at;
      p.(s := p.s.(region := p.s.region[k := Landed(if at < p.c.ring.Size() then p.c.ring.mem[at] else 0)]))
    case Visit(polled) => p.(s := ServerVisit(p.s, region, polled))
    case Decode =>
      p.(s := p.s.(recv := RecvQueue.Pop(p.s.recv), decoded := p.s.decoded + 1))
  }

  // The packer is about to store its message up to the last byte of the block.
  predicate EndsAtRingEnd(c: Client) {
    && c.pc.Ensure? && c.pc.second && c.ring.free <= c.ring.Size()
    && c.ring.free + |c.pc.m.bytes| == c.ring.Size()
  }

  /** Every step but the one in which the code loses data. */
  ghost predicate Safe(p: Pair, st: Step) { st.Go? ==> !EndsAtRingEnd(p.c) }

  lemma PackStep(p: Pair, region: nat)
    requires Inv(p, region) && p.c.pc.Ensure? && p.c.pc.second && !EndsAtRingEnd(p.c)
    requires FreeSize(p.c.ring) >= |p.c.pc.m.bytes|
    ensures Inv(ClientGo(p), region)
  {
    hide RecvQueue.Valid, RecvQueue.Queued, ReadInv, Flat;
    var m := p.c.pc.m;
    PackInv(p.c, m, p.c.ring.Size(), p.s.recv.ring.Size());
    if p.s.signal == SIGNAL_DATA { PackKeepsSnapshot(p, m, region); }
    QuietStep(p, ClientGo(p), region);
  }

  lemma SkipStep(p: Pair, region: nat)
    requires Inv(p, region) && p.c.pc.Ensure? && !p.c.pc.second
    requires FreeSize(p.c.ring) >= |p.c.pc.m.bytes|
    ensures Inv(ClientGo(p), region)
  {
    hide RecvQueue.Valid, RecvQueue.Queued, ReadInv, Flat, Unflushed;
    SkipInv(p.c, p.c.pc.m, p.c.pc.calls, p.c.ring.Size(), p.s.recv.ring.Size());
    QuietStep(p, ClientGo(p), region);
  }

  lemma CallStep(p: Pair, region: nat)
    requires Inv(p, region) && p.c.pc.Ensure? && FreeSize(p.c.ring) < |p.c.pc.m.bytes|
    ensures Inv(ClientGo(p), region)
  {
    hide RecvQueue.Valid, RecvQueue.Queued, ReadInv, Flat, Span;
    QuietStep(p, ClientGo(p), region);
  }

  lemma WaitStep(p: Pair, region: nat)
    requires Inv(p, region) && p.c.pc.Wait? && p.c.signal != SIGNAL_DATA
    ensures Inv(ClientGo(p), region)
  {
    hide RecvQueue.Valid, RecvQueue.Queued, ReadInv;
    var c := p.c;
    if c.ring.used != c.addr.free {
      AdoptInv(c, c.ring.Size(), p.s.recv.ring.Size());
      QuietStep(p, ClientGo(p), region);
    } else {
      PublishInv(p.(c := c.(pc := WaitAck(c.pc.m, c.pc.second, c.pc.calls))), region);
    }
  }

  lemma WaitAckStep(p: Pair, region: nat)
    requires Inv(p, region) && p.c.pc.WaitAck? && p.c.signal != SIGNAL_DATA
    ensures Inv(ClientGo(p), region)
  {
    hide RecvQueue.Valid, RecvQueue.Queued, ReadInv;
  }

  lemma IoEndStep(p: Pair, region: nat)
    requires Inv(p, region) && Enabled(p, IoEnd)
    ensures Inv(Next(p, IoEnd, region), region)
  {
    hide RecvQueue.Valid, RecvQueue.Queued, ReadInv;
    PublishInv(p.(c := Adopt(p.c)), region);
  }

  lemma LandStep(p: Pair, k: nat, region: nat)
    requires Inv(p, region) && Enabled(p, Land(k))
    ensures Inv(Next(p, Land(k), region), region)
  {
    hide RecvQueue.Valid, RecvQueue.Queued, Flat;
    var p' := Next(p, Land(k), region);
    assert Resolve(p'.s.region, p.c.ring.mem) == Resolve(p.s.region, p.c.ring.mem);
  }

  lemma DecodeStep(p: Pair, region: nat)
    requires Inv(p, region) && Enabled(p, Decode)
    ensures Inv(Next(p, Decode, region), region)
  {
    hide RecvQueue.Valid, RecvQueue.Queued, Flat;
    RecvQueue.PopCorrect(p.s.recv);
    assert p.s.delivered[p.s.decoded..][1..] == p.s.delivered[p.s.decoded + 1..];
  }

  lemma OtherStep(p: Pair, st: Step, region: nat)
    requires Inv(p, region) && Enabled(p, st) && (st.Begin? || st.IoDone? || st.AckLands?)
    ensures Inv(Next(p, st, region), region)
  {
    hide RecvQueue.Valid, RecvQueue.Queued, ReadInv, Flat;
  }

  /** Every step but a pack up to the ring's end keeps the invariant. */
  lemma StepInv(p: Pair, st: Step, region: nat)
    requires Inv(p, region) && Enabled(p, st) && Safe(p, st)
    ensures Inv(Next(p, st, region), region)
  {
    match st
    case Go =>
      if p.c.pc.Wait? { WaitStep(p, region); }
      else if p.c.pc.WaitAck? { WaitAckStep(p, region); }
      else if FreeSize(p.c.ring) < |p.c.pc.m.bytes| { CallStep(p, region); }
      else if p.c.pc.second { PackStep(p, region); }
      else { SkipStep(p, region); }
    case IoEnd => IoEndStep(p, region);
    case Land(k) => LandStep(p, k, region);
    case Visit(polled) => VisitInv(p, region, polled);
    case Decode => DecodeStep(p, region);
    case _ => OtherStep(p, st, region);
  }
}
