/** One client and its server: the flush protocol as interleaved steps.

    The client packs self-delimiting messages into its ring and publishes
    snapshots of it; the server reads a snapshot piece by piece into a region,
    splits the region into messages, queues them and acknowledges. `packed`,
    `flushed`, `delivered`, `decoded` and `unseen` are history: no step reads
    them to decide anything. */
module Stream {
  import opened Bytes
  import opened Rings
  import RecvQueue

  // ---------- state ----------

  // A published (or adopted) view of the client ring.
  datatype Addr = Addr(used: nat, free: nat, end: nat)

  // A message as packed: its bytes, and the length of its last non-empty field.
  datatype Msg = Msg(bytes: seq<Byte>, last: nat)

  // Where the client is: between calls, in the first or second loop of
  // ensure_free_space, or in the first or second wait of the reclaim function.
  // `calls` counts the reclaim calls of the current message.
  datatype Pc =
    | Idle
    | Ensure(m: Msg, second: bool, calls: nat)
    | Wait(m: Msg, second: bool, calls: nat)
    | WaitAck(m: Msg, second: bool, calls: nat)
    | Done

  datatype Client = Client(ring: Ring, addr: Addr, signal: nat, pc: Pc, packed: seq<seq<Byte>>, flushed: nat)

  // A byte of the server's region: arrived, or posted to be read from an address.
  datatype Cell = Landed(b: Byte) | Awaiting(at: nat)

  datatype Server = Server(addr: Addr, signal: nat, readAddr: nat, readDone: bool, region: seq<Cell>, commDone: bool,
                           recv: RecvQueue.Recv, delivered: seq<seq<Byte>>, decoded: nat, unseen: bool)

  datatype Pair = Pair(c: Client, s: Server)

  datatype Step =
    | Begin(m: Msg)          // a packer is called
    | Go                     // the packer advances by one wait or loop test
    | IoEnd
    | IoDone
    | AckLands               // the server's write of the cleared signal arrives
    | Land(k: nat)           // one posted byte arrives
    | Visit(polled: bool)    // one turn of the server loop on this client
    | Decode                 // the round loop takes one message

  const SIGNAL_CLEAR := 0
  const SIGNAL_DATA := 1
  const SIGNAL_END := 11

  // ---------- client ----------

  function AddrOf(r: Ring): Addr { Addr(r.used, r.free, r.end) }

  // addr_init, set the signal, write it to the server.
  function Publish(p: Pair): Pair {
    var a := AddrOf(p.c.ring);
    Pair(p.c.(addr := a, signal := SIGNAL_DATA, flushed := |p.c.packed|),
         p.s.(addr := a, signal := SIGNAL_DATA, unseen := true))
  }

  // used_addr := addr.free_addr: the acknowledged part is free again.
  function Adopt(c: Client): Client { c.(ring := c.ring.(used := c.addr.free)) }

  function Pack(c: Client, m: Msg): (c': Client)
    requires c.ring.Valid() && Fits(c.ring, |m.bytes|) && m.last <= |m.bytes|
  {
    c.(ring := Packed(c.ring, m.bytes, m.last), pc := Idle, packed := c.packed + [m.bytes])
  }

  predicate CanGo(c: Client) {
    match c.pc
    case Ensure(_, _, _) => true
    case Wait(_, _, _) => c.signal != SIGNAL_DATA
    case WaitAck(_, _, _) => c.signal != SIGNAL_DATA
    case _ => false
  }

  function ClientGo(p: Pair): (p': Pair)
    requires p.c.ring.Valid() && CanGo(p.c)
    requires !p.c.pc.Idle? && !p.c.pc.Done? ==> p.c.pc.m.last <= |p.c.pc.m.bytes|
    requires p.c.pc.Ensure? && p.c.pc.second && FreeSize(p.c.ring) >= |p.c.pc.m.bytes| ==> Fits(p.c.ring, |p.c.pc.m.bytes|)
  {
    var c := p.c;
    match c.pc
    case Ensure(m, second, calls) =>
      if FreeSize(c.ring) < |m.bytes| then p.(c := c.(pc := Wait(m, second, calls + 1)))
      else if !second then p.(c := c.(ring := SkipTail(c.ring, |m.bytes|), pc := Ensure(m, true, calls)))
      else p.(c := Pack(c, m))
    case Wait(m, second, calls) =>
      if c.ring.used != c.addr.free then p.(c := Adopt(c).(pc := Ensure(m, second, calls)))
      else Publish(p.(c := c.(pc := WaitAck(m, second, calls))))
    case WaitAck(m, second, calls) =>
      var c1 := Adopt(c);
      p.(c := c1.(addr := AddrOf(c1.ring), signal := SIGNAL_CLEAR, pc := Ensure(m, second, calls)))
  }

  // ---------- server ----------

  function Min(a: int, b: int): int { if a < b then a else b }

  // The server loop's first test. True means the client is finished.
  function Pickup(s: Server): (res: (bool, Server)) {
    if s.readDone && s.region == [] && s.signal != SIGNAL_CLEAR then
      if s.signal == SIGNAL_DATA then (false, s.(readAddr := s.addr.used, readDone := false, unseen := false))
      else (true, s.(commDone := true))
    else (false, s)
  }

  function Post(from: nat, n: nat): (cells: seq<Cell>)
    ensures |cells| == n
  {
    seq(n, i requires 0 <= i < n => Awaiting(from + i))
  }

  predicate LowerPart(s: Server) { s.addr.used <= s.addr.free || s.readAddr <= s.addr.free }

  // How many bytes the next read takes.
  function ReadLength(s: Server, region: nat): nat {
    var stop := if LowerPart(s) then s.addr.free else s.addr.end;
    if s.readAddr <= stop && |s.region| <= region then Min(stop - s.readAddr, region - |s.region|) else 0
  }

  function ReadData(s: Server, region: nat): (s': Server) {
    var n := ReadLength(s, region);
    var next := s.readAddr + n;
    var s1 := s.(region := s.region + Post(s.readAddr, n));
    if LowerPart(s) then s1.(readAddr := next, readDone := s.readDone || next >= s.addr.free)
    else s1.(readAddr := if next >= s.addr.end then 0 else next)
  }

  predicate AllLanded(region: seq<Cell>) { forall i :: 0 <= i < |region| ==> region[i].Landed? }

  function Values(region: seq<Cell>): (b: seq<Byte>)
    requires AllLanded(region)
    ensures |b| == |region|
  {
    seq(|region|, i requires 0 <= i < |region| => region[i].b)
  }

  function Cells(b: seq<Byte>): (cells: seq<Cell>)
    ensures |cells| == |b| && AllLanded(cells) && Values(cells) == b
  {
    seq(|b|, i requires 0 <= i < |b| => Landed(b[i]))
  }

  // Splits whole messages off the front of the region while the queue takes them.
  function CopyLoop(b: seq<Byte>, recv: RecvQueue.Recv, delivered: seq<seq<Byte>>): (res: (seq<Byte>, RecvQueue.Recv, seq<seq<Byte>>))
    requires recv.ring.Valid()
    ensures res.1.ring.Valid()
  {
    if |b| < 8 then (b, recv, delivered)
    else
      var size := DecSize(b[..8]);
      if size > |b| || size == 0 then (b, recv, delivered)
      else
        var (ok, recv') := RecvQueue.AddMsg(recv, b[..size]);
        if !ok then (b, recv', delivered) else CopyLoop(b[size..], recv', delivered + [b[..size]])
  }

  function CopyToList(s: Server): (s': Server)
    requires s.recv.ring.Valid() && AllLanded(s.region)
    ensures s'.recv.ring.Valid()
  {
    var (b, recv, delivered) := CopyLoop(Values(s.region), s.recv, s.delivered);
    s.(region := Cells(b), recv := recv, delivered := delivered)
  }

  // Copies what it can; acknowledges when the region is empty and all is read.
  function CopyAndAck(s: Server): (s': Server)
    requires s.recv.ring.Valid() && AllLanded(s.region)
    ensures s'.recv.ring.Valid()
  {
    var s3 := CopyToList(s);
    if s3.region == [] && s3.readDone then s3.(signal := SIGNAL_CLEAR) else s3
  }

  // One turn of the server loop. `polled`: the completions of all posted reads
  // have been seen, which can only be so for bytes that have landed.
  function ServerVisit(s: Server, region: nat, polled: bool): (s': Server)
    requires s.recv.ring.Valid()
    ensures s'.recv.ring.Valid()
  {
    var (finished, s1) := Pickup(s);
    if finished then s1
    else
      var s2 := if !s1.readDone && |s1.region| < region then ReadData(s1, region) else s1;
      if |s2.region| >= 8 && polled && AllLanded(s2.region) then CopyAndAck(s2) else s2
  }

  // ---------- steps ----------

  predicate GoodMsg(m: Msg, size: nat, recvSize: nat) {
    && |m.bytes| >= 12 && DecSize(m.bytes[..8]) == |m.bytes| && 0 < m.last <= |m.bytes|
    && 2 * |m.bytes| < size && 2 * |m.bytes| < recvSize
  }

  predicate Enabled(p: Pair, st: Step) {
    match st
    case Begin(m) => p.c.pc.Idle? && GoodMsg(m, p.c.ring.Size(), p.s.recv.ring.Size())
    case Go => CanGo(p.c)
    case IoEnd => p.c.pc.Idle? && p.c.signal != SIGNAL_DATA
    case IoDone => p.c.pc.Idle? && p.c.signal != SIGNAL_DATA
    case AckLands => p.c.signal == SIGNAL_DATA && p.s.signal == SIGNAL_CLEAR
    case Land(k) => k < |p.s.region| && p.s.region[k].Awaiting?
    case Visit(_) => !p.s.commDone
    case Decode => p.s.recv.q != []
  }
}
