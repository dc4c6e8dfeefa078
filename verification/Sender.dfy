/** The client's send side: the calls as straight-line code over the buffer, and
    that every interleaving with the server leaves the client where they do. */
module Sender {
  import opened Bytes
  import opened Wire
  import opened Rings
  import opened Stream
  import opened StreamInvariant
  import opened StreamRuns
  import RecvQueue
  import Boxes

  // ---------- the client alone ----------

  predicate Packing(c: Client) { c.pc.Ensure? || c.pc.Wait? || c.pc.WaitAck? }

  ghost predicate Sending(c: Client, recvSize: nat) {
    ClientInv(c, c.ring.Size(), recvSize) && Packing(c)
  }

  predicate AboutToPack(c: Client)
    requires c.ring.Valid()
  {
    c.pc.Ensure? && c.pc.second && FreeSize(c.ring) >= |c.pc.m.bytes|
  }

  // The packer's next move, once whatever it waits for has happened.
  function Advance(c: Client): (c': Client)
    requires c.ring.Valid() && Packing(c) && !AboutToPack(c) && c.addr.free < c.ring.Size()
  {
    match c.pc
    case Ensure(m, second, calls) =>
      if FreeSize(c.ring) < |m.bytes| then c.(pc := Wait(m, second, calls + 1))
      else c.(ring := SkipTail(c.ring, |m.bytes|), pc := Ensure(m, true, calls))
    case Wait(m, second, calls) =>
      if c.ring.used != c.addr.free then Adopt(c).(pc := Ensure(m, second, calls), signal := SIGNAL_CLEAR)
      else c.(addr := AddrOf(c.ring), signal := SIGNAL_DATA, flushed := |c.packed|, pc := WaitAck(m, second, calls))
    case WaitAck(m, second, calls) =>
      var c1 := Adopt(c);
      c1.(addr := AddrOf(c1.ring), signal := SIGNAL_CLEAR, pc := Ensure(m, second, calls))
  }

  lemma AdvanceInv(c: Client, recvSize: nat)
    requires Sending(c, recvSize) && !AboutToPack(c)
    ensures Sending(Advance(c), recvSize) && Advance(c).pc.m == c.pc.m
    ensures Advance(c).ring.Size() == c.ring.Size() && Advance(c).packed == c.packed
  {
    if c.pc.Ensure? { AdvanceEnsure(c, recvSize); }
    else if c.pc.Wait? && c.ring.used != c.addr.free { AdoptInv(c, c.ring.Size(), recvSize); }
    else if c.pc.Wait? { AdvanceFlush(c, recvSize); }
    else { AdvanceAck(c, recvSize); }
    hide Unflushed, Order, Flat, PcInv;
  }

  lemma AdvanceEnsure(c: Client, recvSize: nat)
    requires Sending(c, recvSize) && !AboutToPack(c) && c.pc.Ensure?
    ensures Sending(Advance(c), recvSize)
  {
    hide Flat;
    if FreeSize(c.ring) >= |c.pc.m.bytes| {
      SkipInv(c, c.pc.m, c.pc.calls, c.ring.Size(), recvSize);
    }
  }

  lemma AdvanceFlush(c: Client, recvSize: nat)
    requires Sending(c, recvSize) && c.pc.Wait? && c.ring.used == c.addr.free
    ensures Sending(Advance(c), recvSize)
  {
    assert c.packed[|c.packed|..] == [];
  }

  lemma AdvanceAck(c: Client, recvSize: nat)
    requires Sending(c, recvSize) && c.pc.WaitAck?
    ensures Sending(Advance(c), recvSize)
  {
  }

  function Stage(c: Client): nat {
    if c.pc.Wait? then 3 else if c.pc.WaitAck? then 2 else if c.pc.Ensure? && !c.pc.second then 1 else 0
  }

  function CallsLeft(c: Client): int { if Packing(c) then 2 - c.pc.calls else 0 }

  lemma AdvanceProgress(c: Client, recvSize: nat)
    requires Sending(c, recvSize) && !AboutToPack(c)
    ensures 0 <= CallsLeft(c)
    ensures CallsLeft(Advance(c)) < CallsLeft(c) || (CallsLeft(Advance(c)) == CallsLeft(c) && Stage(Advance(c)) < Stage(c))
    ensures c.pc.Ensure? && FreeSize(c.ring) < |c.pc.m.bytes| ==> CallsLeft(c) > 0
  {
    AdvanceInv(c, recvSize);
  }

  /** The client after its message is packed. Recursion ends because a message
      causes at most two reclaim calls. */
  ghost function Settle(c: Client, recvSize: nat): (c': Client)
    requires Sending(c, recvSize)
    ensures c'.pc == Idle && c'.packed == c.packed + [c.pc.m.bytes]
    decreases CallsLeft(c), Stage(c)
  {
    if AboutToPack(c) then Pack(c, c.pc.m).(signal := SIGNAL_CLEAR)
    else
      AdvanceInv(c, recvSize);
      AdvanceProgress(c, recvSize);
      Settle(Advance(c), recvSize)
  }

  lemma SignalIsFree(c: Client, signal: nat, recvSize: nat)
    requires Sending(c, recvSize)
    ensures Sending(c.(signal := signal), recvSize)
    ensures AboutToPack(c.(signal := signal)) == AboutToPack(c)
    ensures !AboutToPack(c) ==> exists s: nat :: Advance(c.(signal := signal)) == Advance(c).(signal := s)
  {
    hide Flat, Span;
    if !AboutToPack(c) {
      var a := Advance(c.(signal := signal));
      assert a == Advance(c).(signal := a.signal);
    }
  }

  // The signal does not matter to where the packer ends up.
  lemma {:induction false} SettleSignal(c: Client, signal: nat, recvSize: nat)
    requires Sending(c, recvSize)
    ensures Sending(c.(signal := signal), recvSize)
    ensures Settle(c.(signal := signal), recvSize) == Settle(c, recvSize)
    decreases CallsLeft(c), Stage(c)
  {
    hide PcInv, Unflushed, Order, Flat, Advance;
    SignalIsFree(c, signal, recvSize);
    if !AboutToPack(c) {
      AdvanceInv(c, recvSize);
      AdvanceProgress(c, recvSize);
      var s: nat :| Advance(c.(signal := signal)) == Advance(c).(signal := s);
      SettleSignal(Advance(c), s, recvSize);
    }
  }

  // At most two reclaim calls; and when the loops end the message fits.
  lemma SendingFits(c: Client, recvSize: nat)
    requires Sending(c, recvSize)
    ensures c.pc.calls <= 2
    ensures AboutToPack(c) ==> Fits(c.ring, |c.pc.m.bytes|)
  {
  }

  lemma SettleAdvance(c: Client, recvSize: nat)
    requires Sending(c, recvSize) && !AboutToPack(c)
    ensures Sending(Advance(c), recvSize) && Settle(Advance(c), recvSize) == Settle(c, recvSize)
    ensures CallsLeft(Advance(c)) < CallsLeft(c) || (CallsLeft(Advance(c)) == CallsLeft(c) && Stage(Advance(c)) < Stage(c))
    ensures CallsLeft(c) >= 0 && Advance(c).pc.m == c.pc.m && Advance(c).ring.Size() == c.ring.Size()
  {
    AdvanceInv(c, recvSize);
    AdvanceProgress(c, recvSize);
    hide ClientInv, Advance;
  }

  // Where the client will be, or is when it is not packing.
  ghost function Settled(c: Client, recvSize: nat): Client
    requires Packing(c) ==> Sending(c, recvSize)
  {
    if Packing(c) then Settle(c, recvSize) else c.(signal := SIGNAL_CLEAR)
  }

  lemma GoAdvances(p: Pair, region: nat)
    requires Inv(p, region) && CanGo(p.c)
    ensures Packing(p.c) && Sending(p.c, p.s.recv.ring.Size())
    ensures ClientGo(p).c == if AboutToPack(p.c) then Pack(p.c, p.c.pc.m) else Advance(p.c)
    ensures ClientGo(p).s.recv == p.s.recv
  {
    hide RecvQueue.Valid, RecvQueue.Queued, ReadInv, Flat, Unflushed;
  }

  predicate WithinCall(st: Step) { !st.Begin? && !st.IoEnd? && !st.IoDone? }

  lemma ServerSideStep(p: Pair, st: Step, region: nat)
    requires Inv(p, region) && Enabled(p, st) && Safe(p, st) && WithinCall(st)
    ensures Next(p, st, region).s.recv.ring.Size() == p.s.recv.ring.Size()
    ensures !st.Go? ==> Next(p, st, region).c == p.c.(signal := Next(p, st, region).c.signal)
    ensures Packing(p.c) ==> Sending(p.c, p.s.recv.ring.Size())
  {
    if st.Visit? { VisitInv(p, region, st.polled); }
    hide RecvQueue.Valid, RecvQueue.Queued, ReadInv, Flat, Unflushed, ServerVisit, PcInv, Order;
  }

  /** No step of the server, the network or the packer itself changes where the
      client ends up after its call. */
  lemma OutcomeIsFixed(p: Pair, st: Step, region: nat)
    requires Inv(p, region) && Enabled(p, st) && Safe(p, st) && WithinCall(st)
    ensures Inv(Next(p, st, region), region)
    ensures var n := p.s.recv.ring.Size();
      && Next(p, st, region).s.recv.ring.Size() == n
      && (Packing(p.c) ==> Sending(p.c, n))
      && (Packing(Next(p, st, region).c) ==> Sending(Next(p, st, region).c, n))
      && Settled(Next(p, st, region).c, n) == Settled(p.c, n)
  {
    var n, p' := p.s.recv.ring.Size(), Next(p, st, region);
    StepInv(p, st, region);
    ServerSideStep(p, st, region);
    if st.Go? {
      GoAdvances(p, region);
      assert p' == ClientGo(p);
      hide Inv, ClientGo, Next, Advance, PcInv, Pack, ClientInv;
      if !AboutToPack(p.c) { AdvanceInv(p.c, n); }
    } else {
      hide Inv, Next, Advance, PcInv, Pack, ClientInv, Enabled, Safe, Settle;
      if Packing(p.c) { SettleSignal(p.c, p'.c.signal, n); }
    }
  }

  lemma PackingIsSending(p: Pair, region: nat)
    requires Inv(p, region) && Packing(p.c)
    ensures Sending(p.c, p.s.recv.ring.Size())
  {
    hide RecvQueue.Valid, RecvQueue.Queued, ReadInv, Flat, Unflushed, Order, PcInv;
  }

  /** In every run that completes a call, the client is where the call's code,
      executed alone with its waits answered, leaves it. */
  lemma {:induction false} EveryInterleavingSettles(p: Pair, steps: seq<Step>, region: nat)
    requires Inv(p, region) && Packing(p.c) && SafeRun(p, steps, region)
    requires forall i :: 0 <= i < |steps| ==> WithinCall(steps[i])
    ensures Sending(p.c, p.s.recv.ring.Size())
    ensures var c := After(p, steps, region).c;
      !Packing(c) ==> c.(signal := SIGNAL_CLEAR) == Settle(p.c, p.s.recv.ring.Size())
    decreases |steps|
  {
    PackingIsSending(p, region);
    hide Inv, Next, Enabled, Safe, PcInv;
    if steps != [] {
      var q := Next(p, steps[0], region);
      OutcomeIsFixed(p, steps[0], region);
      if Packing(q.c) {
        EveryInterleavingSettles(q, steps[1..], region);
      } else {
        IdleStays(q, steps[1..], region);
      }
    }
  }

  lemma {:induction false} IdleStays(p: Pair, steps: seq<Step>, region: nat)
    requires Inv(p, region) && !Packing(p.c) && SafeRun(p, steps, region)
    requires forall i :: 0 <= i < |steps| ==> WithinCall(steps[i])
    ensures After(p, steps, region).c.(signal := SIGNAL_CLEAR) == p.c.(signal := SIGNAL_CLEAR)
    decreases |steps|
  {
    if steps != [] {
      StepInv(p, steps[0], region);
      ServerSideStep(p, steps[0], region);
      assert !steps[0].Go?;
      hide Inv, Next, Safe, PcInv;
      IdleStays(Next(p, steps[0], region), steps[1..], region);
    }
  }

  // ---------- packing a call ----------

  function CallMsg(c: Call): Msg
    requires Sendable(c)
  {
    Msg(Message(c), LastLength(Fields(c)))
  }

  /** Every call that is small enough for both rings is a message the protocol carries. */
  lemma CallMsgIsGood(c: Call, size: nat, recvSize: nat)
    requires Sendable(c) && 2 * SizeOf(c) < size && 2 * SizeOf(c) < recvSize
    ensures GoodMsg(CallMsg(c), size, recvSize)
  {
    MessageLength(c);
    LastLengthBound(Fields(c));
    assert |Message(c)| != 0;
    hide Fields, SizeOf, LastLength, DecSize;
  }

  ghost function PackedFields(r: Ring, fields: seq<seq<Byte>>): (r': Ring)
    requires r.Valid() && |Flat(fields)| <= LeftSpace(r)
  {
    LastLengthBound(fields);
    Packed(r, Flat(fields), LastLength(fields))
  }

  lemma FlatPrefix(f: seq<seq<Byte>>, k: nat)
    requires k < |f|
    ensures Flat(f[..k + 1]) == Flat(f[..k]) + f[k] && |Flat(f[..k + 1])| <= |Flat(f)|
  {
    FlatSnoc(f[..k], f[k]);
    assert f[..k + 1] == f[..k] + [f[k]];
    assert f == f[..k + 1] + f[k + 1..];
    FlatAppend(f[..k + 1], f[k + 1..]);
  }

  // One more field of a message that fits.
  lemma FieldPacked(r: Ring, f: seq<seq<Byte>>, k: nat)
    requires r.Valid() && k < |f| && Fits(r, |Flat(f)|)
    ensures |Flat(f[..k])| <= |Flat(f[..k + 1])| <= LeftSpace(r)
    ensures Fits(PackedFields(r, f[..k]), |f[k]|)
    ensures PackField(PackedFields(r, f[..k]), f[k]) == PackedFields(r, f[..k + 1])
  {
    FlatPrefix(f, k);
    LastLengthBound(f[..k]);
    PackOneMore(r, Flat(f[..k]), LastLength(f[..k]), f[k]);
    assert f[..k + 1][..k] == f[..k] && f[..k + 1][k] == f[k];
    hide PackField, Packed, Flat;
  }

  // The fields of each message, written out.
  lemma FieldList(c: Call)
    requires Sendable(c)
    ensures c.Create? ==> Fields(c) == [EncSize(SizeOf(c)), EncInt(FUNC_NC_CREATE), EncInt(|c.path| + 1), c.path + [0], EncInt(c.cmode), EncInt(c.ncid)]
    ensures c.DefDim? ==> Fields(c) == [EncSize(SizeOf(c)), EncInt(FUNC_NC_DEF_DIM), EncInt(c.ncid), EncInt(|c.name| + 1), c.name + [0],
                                        EncSize(c.len), EncInt(c.dimid)]
    ensures c.DefVar? && |c.dimids| != 0 ==>
      Fields(c) == [EncSize(SizeOf(c)), EncInt(FUNC_NC_DEF_VAR), EncInt(c.ncid), EncInt(|c.name| + 1), c.name + [0], EncInt(c.xtype),
                    EncInt(|c.dimids|), EncInt(|c.dimids|), EncInts(c.dimids), EncInt(c.varid)]
    ensures c.DefVar? && |c.dimids| == 0 ==>
      Fields(c) == [EncSize(SizeOf(c)), EncInt(FUNC_NC_DEF_VAR), EncInt(c.ncid), EncInt(|c.name| + 1), c.name + [0], EncInt(c.xtype),
                    EncInt(|c.dimids|), EncInt(c.varid)]
    ensures c.PutAtt? ==>
      Fields(c) == [EncSize(SizeOf(c)), EncInt(FUNC_PUT_ATT), EncInt(c.ncid), EncInt(c.varid), EncInt(|c.name| + 1), c.name + [0],
                    EncInt(c.xtype), EncInt(Count(c.data, c.xtype)), c.data]
    ensures c.EndDef? ==> Fields(c) == [EncSize(SizeOf(c)), EncInt(FUNC_NC_ENDDEF), EncInt(c.ncid)]
    ensures c.PutVara? ==>
      Fields(c) == [EncSize(SizeOf(c)), EncInt(FUNC_NC_PUT_VARA), EncInt(c.ncid), EncInt(c.varid), EncInt(|c.start|), EncSizes(c.start),
                    EncInt(|c.count|), EncSizes(c.count), EncInt(c.fpType), EncInt(Count(c.data, c.fpType)), c.data]
    ensures c.Close? ==> Fields(c) == [EncSize(SizeOf(c)), EncInt(FUNC_NC_CLOSE), EncInt(c.ncid)]
  {
  }

  lemma PutVaraSize(c: Call)
    requires c.PutVara? && Packable(c)
    ensures Boxes.Product(c.count) == Count(c.data, c.fpType) && Code(c) == FUNC_NC_PUT_VARA
    ensures SizeOf(c) == 8 + 4 + 4 + 4 + (|c.start| * 8 + 4) + (|c.count| * 8 + 4) + 4 + (Count(c.data, c.fpType) * TypeSize(c.fpType) + 4)
  {
  }

  // ---------- send.c ----------

  class CfioSender {
    const buffer: CfioBuf
    var addr: Addr
    var signal: nat
    ghost var packed: seq<seq<Byte>>
    ghost var flushed: nat
    ghost const recvSize: nat

    ghost function At(pc: Pc): Client
      reads this, buffer, buffer.data
    {
      Client(buffer.Abs(), addr, signal, pc, packed, flushed)
    }

    ghost predicate Valid()
      reads this, buffer, buffer.data
    {
      buffer.data.Length > 0 && ClientInv(At(Idle), buffer.data.Length, recvSize)
    }

    constructor (size: nat, ghost serverRing: nat)
      requires size > 0
      ensures Valid() && fresh(buffer) && fresh(buffer.data) && buffer.data.Length == size && recvSize == serverRing
      ensures packed == [] && flushed == 0 && signal == SIGNAL_CLEAR
    {
      buffer := new CfioBuf(size);
      addr, signal, packed, flushed, recvSize := Addr(0, 0, 0), SIGNAL_CLEAR, [], 0, serverRing;
      new;
      assert Unflushed(At(Idle)) == [];
    }

    // Returns when the acknowledgement of the last snapshot has arrived.
    method AddrWait()
      modifies this`signal
      ensures signal == SIGNAL_CLEAR
    {
      signal := SIGNAL_CLEAR;
    }

    /** One reclaim call: adopt what has been acknowledged, or flush and wait. */
    method ClientBufFree(ghost c: Client) returns (ghost d: Client)
      requires c == At(c.pc) && c.pc.Wait? && Sending(c, recvSize)
      modifies this, buffer
      ensures d == At(d.pc) && d.pc == Ensure(c.pc.m, c.pc.second, c.pc.calls) && Sending(d, recvSize)
      ensures Settle(d, recvSize) == Settle(c, recvSize)
      ensures packed == old(packed) && buffer.free == old(buffer.free)
    {
      hide Settle, PcInv, Unflushed, Order, Flat;
      d := Advance(c);
      SettleAdvance(c, recvSize);
      AddrWait();
      if buffer.used != addr.free {
        buffer.used := addr.free;
        return;
      }
      addr := Addr(buffer.used, buffer.free, buffer.end);
      signal := SIGNAL_DATA;
      flushed := |packed|;
      AddrWait();
      buffer.used := addr.free;
      addr := Addr(buffer.used, buffer.free, buffer.end);
      SettleAdvance(d, recvSize);
      d := Advance(d);
    }
  
    /** Makes room for the message: afterwards it fits at free_addr. */
    method EnsureFreeSpace(ghost m: Msg, n: nat) returns (ghost d: Client)
      requires n == |m.bytes| && Sending(At(Ensure(m, false, 0)), recvSize)
      modifies this, buffer
      ensures d == At(d.pc) && Sending(d, recvSize) && AboutToPack(d) && d.pc.m == m && d.pc.calls <= 2
      ensures Fits(buffer.Abs(), n)
      ensures packed == old(packed)
      ensures Settle(d, recvSize) == Settle(old(At(Ensure(m, false, 0))), recvSize)
    {
      hide Settle, PcInv, Unflushed, Order, Flat;
      d := At(Ensure(m, false, 0));
      var leftSpace := buffer.data.Length - buffer.free;
      var freeSize := buffer.FreeSpace();
      while freeSize < n
        invariant d == At(d.pc) && Sending(d, recvSize) && d.pc.Ensure? && !d.pc.second && d.pc.m == m && packed == old(packed)
        invariant Settle(d, recvSize) == Settle(old(At(Ensure(m, false, 0))), recvSize)
        invariant freeSize == FreeSize(d.ring) && d.ring.free == old(buffer.free) && d.ring.Size() == buffer.data.Length
        decreases CallsLeft(d)
      {
        SettleAdvance(d, recvSize);
        d := ClientBufFree(Advance(d));
        freeSize := buffer.FreeSpace();
      }
      SettleAdvance(d, recvSize);
      d := Advance(d);
      if n > leftSpace {
        buffer.Use(leftSpace);
      }
      freeSize := buffer.FreeSpace();
      while freeSize < n
        invariant d == At(d.pc) && Sending(d, recvSize) && d.pc.Ensure? && d.pc.second && d.pc.m == m && packed == old(packed)
        invariant Settle(d, recvSize) == Settle(old(At(Ensure(m, false, 0))), recvSize)
        invariant freeSize == FreeSize(d.ring)
        decreases CallsLeft(d)
      {
        SettleAdvance(d, recvSize);
        d := ClientBufFree(Advance(d));
        freeSize := buffer.FreeSpace();
      }
      SendingFits(d, recvSize);
    }
  
    // ---------- packers ----------

    // k fields of the message f are packed, on top of ring r.
    ghost predicate Packing(r: Ring, f: seq<seq<Byte>>, k: nat)
      reads this, buffer, buffer.data
    {
      && r.Valid() && k <= |f| && Fits(r, |Flat(f)|) && r.Size() == buffer.data.Length
      && |Flat(f[..k])| <= LeftSpace(r) && buffer.Abs() == PackedFields(r, f[..k])
    }

    method PackData(b: seq<Byte>, ghost r: Ring, ghost f: seq<seq<Byte>>, ghost k: nat)
      requires Packing(r, f, k) && k < |f| && f[k] == b
      modifies buffer, buffer.data
      ensures Packing(r, f, k + 1)
    {
      FieldPacked(r, f, k);
      hide Flat, PackedFields, PackField;
      buffer.PackData(b);
    }

    method PackArray(len: Int32, b: seq<Byte>, ghost r: Ring, ghost f: seq<seq<Byte>>, ghost k: nat)
      requires Packing(r, f, k) && k + 1 < |f| && f[k] == EncInt(len) && f[k + 1] == b
      modifies buffer, buffer.data
      ensures Packing(r, f, k + 2)
    {
      FieldPacked(r, f, k);
      FieldPacked(r, f, k + 1);
      TwoFit(r, f, k);
      hide Flat, PackedFields, PackField;
      buffer.PackDataArray(len, b);
    }
  
    // The call is small enough for both rings.
    ghost predicate Accepts(c: Call)
      reads this, buffer, buffer.data
    {
      Valid() && Sendable(c) && 2 * SizeOf(c) < buffer.data.Length && 2 * SizeOf(c) < recvSize
    }

    // The client now is where every run of the call that started at c ends.
    ghost predicate Sent(c: Client)
      reads this, buffer, buffer.data
    {
      Sending(c, recvSize) && At(Idle).(signal := SIGNAL_CLEAR) == Settle(c, recvSize)
    }

    method Start(ghost c: Call, size: nat) returns (ghost d: Client)
      requires Accepts(c) && size == SizeOf(c)
      modifies this, buffer
      ensures d == At(d.pc) && Sending(d, recvSize) && AboutToPack(d) && d.pc.m == CallMsg(c)
      ensures Sending(old(At(Ensure(CallMsg(c), false, 0))), recvSize)
      ensures Settle(d, recvSize) == Settle(old(At(Ensure(CallMsg(c), false, 0))), recvSize)
      ensures Packing(d.ring, Fields(c), 0)
    {
      CallMsgIsGood(c, buffer.data.Length, recvSize);
      MessageLength(c);
      StartSending(At(Idle), CallMsg(c), recvSize);
      hide Settle, ClientInv, Fields, SizeOf;
      d := EnsureFreeSpace(CallMsg(c), size);
      NothingPacked(d, Fields(c), recvSize);
    }

    ghost method Finish(c: Call, d: Client, c0: Client)
      requires Sendable(c) && Packing(d.ring, Fields(c), |Fields(c)|)
      requires Sending(d, recvSize) && AboutToPack(d) && d.pc.m == CallMsg(c)
      requires d == At(d.pc).(ring := d.ring)
      requires Sending(c0, recvSize) && Settle(c0, recvSize) == Settle(d, recvSize)
      modifies this`packed
      ensures Sent(c0) && (buffer.free != 0 ==> Valid())
    {
      packed := packed + [Message(c)];
      assert Fields(c)[..|Fields(c)|] == Fields(c);
      PackedIsValid(d, recvSize);
      assert At(Idle) == Pack(d, d.pc.m);
      hide ClientInv, Fields;
    }

    // Room, and the first two fields of every message.
    method Header(ghost c: Call, size: nat, code: Int32) returns (ghost d: Client)
      requires Accepts(c) && size == SizeOf(c) && code == Code(c)
      modifies this, buffer, buffer.data
      ensures Sending(d, recvSize) && AboutToPack(d) && d.pc.m == CallMsg(c) && d == At(d.pc).(ring := d.ring)
      ensures Sending(old(At(Ensure(CallMsg(c), false, 0))), recvSize)
      ensures Settle(d, recvSize) == Settle(old(At(Ensure(CallMsg(c), false, 0))), recvSize)
      ensures Packing(d.ring, Fields(c), 2)
    {
      d := Start(c, size);
      hide Settle, ClientInv, PackedFields, Flat, Message;
      PackData(EncSize(size), d.ring, Fields(c), 0);
      PackData(EncInt(code), d.ring, Fields(c), 1);
    }

    method SendCreate(path: seq<Byte>, cmode: Int32, ncid: Int32)
      requires Accepts(Create(path, cmode, ncid))
      modifies this, buffer, buffer.data
      ensures Sent(old(At(Ensure(CallMsg(Create(path, cmode, ncid)), false, 0))))
      ensures buffer.free != 0 ==> Valid()
    {
      hide Flat, Message, LastLength, Settle, ClientInv, Packing, PackedFields, CallMsg;
      ghost var c := Create(path, cmode, ncid);
      ghost var c0, f := At(Ensure(CallMsg(c), false, 0)), Fields(c);
      var size := 8 + 4 + (|path| + 1 + 4) + 4 + 4;
      ghost var d := Header(c, size, FUNC_NC_CREATE);
      FieldList(c);
      hide *;
      PackArray(|path| + 1, path + [0], d.ring, f, 2);
      PackData(EncInt(cmode), d.ring, f, 4);
      PackData(EncInt(ncid), d.ring, f, 5);
      Finish(c, d, c0);
    }

    method SendDefDim(ncid: Int32, name: seq<Byte>, len: SizeT, dimid: Int32)
      requires Accepts(DefDim(ncid, name, len, dimid))
      modifies this, buffer, buffer.data
      ensures Sent(old(At(Ensure(CallMsg(DefDim(ncid, name, len, dimid)), false, 0))))
      ensures buffer.free != 0 ==> Valid()
    {
      hide Flat, Message, LastLength, Settle, ClientInv, Packing, PackedFields, CallMsg;
      ghost var c := DefDim(ncid, name, len, dimid);
      ghost var c0, f := At(Ensure(CallMsg(c), false, 0)), Fields(c);
      var size := 8 + 4 + 4 + (|name| + 1 + 4) + 8 + 4;
      ghost var d := Header(c, size, FUNC_NC_DEF_DIM);
      FieldList(c);
      hide *;
      PackData(EncInt(ncid), d.ring, f, 2);
      PackArray(|name| + 1, name + [0], d.ring, f, 3);
      PackData(EncSize(len), d.ring, f, 5);
      PackData(EncInt(dimid), d.ring, f, 6);
      Finish(c, d, c0);
    }

    method SendDefVar(ncid: Int32, name: seq<Byte>, xtype: Int32, dimids: seq<Int32>, varid: Int32)
      requires Accepts(DefVar(ncid, name, xtype, dimids, varid))
      modifies this, buffer, buffer.data
      ensures Sent(old(At(Ensure(CallMsg(DefVar(ncid, name, xtype, dimids, varid)), false, 0))))
      ensures buffer.free != 0 ==> Valid()
    {
      hide Flat, Message, LastLength, Settle, ClientInv, Packing, PackedFields, CallMsg;
      ghost var c := DefVar(ncid, name, xtype, dimids, varid);
      ghost var c0, f := At(Ensure(CallMsg(c), false, 0)), Fields(c);
      var size := 8 + 4 + 4 + (|name| + 1 + 4) + 4 + 4 + 4;
      if |dimids| != 0 {
        size := size + (|dimids| * 4 + 4);
      }
      ghost var d := Header(c, size, FUNC_NC_DEF_VAR);
      FieldList(c);
      hide *;
      PackData(EncInt(ncid), d.ring, f, 2);
      PackArray(|name| + 1, name + [0], d.ring, f, 3);
      PackData(EncInt(xtype), d.ring, f, 5);
      PackData(EncInt(|dimids|), d.ring, f, 6);
      if |dimids| != 0 {
        PackArray(|dimids|, EncInts(dimids), d.ring, f, 7);
      }
      PackData(EncInt(varid), d.ring, f, |f| - 1);
      Finish(c, d, c0);
    }

    method SendPutAtt(ncid: Int32, varid: Int32, name: seq<Byte>, xtype: Int32, len: Int32, data: seq<Byte>)
      requires Elements(data, xtype) && len == Count(data, xtype) && Accepts(PutAtt(ncid, varid, name, xtype, data))
      modifies this, buffer, buffer.data
      ensures Sent(old(At(Ensure(CallMsg(PutAtt(ncid, varid, name, xtype, data)), false, 0))))
      ensures buffer.free != 0 ==> Valid()
    {
      hide Flat, Message, LastLength, Settle, ClientInv, Packing, PackedFields, CallMsg;
      ghost var c := PutAtt(ncid, varid, name, xtype, data);
      ghost var c0, f := At(Ensure(CallMsg(c), false, 0)), Fields(c);
      var attSize := TypeSize(xtype);
      var size := 8 + 4 + 4 + 4 + (|name| + 1 + 4) + 4 + (len * attSize + 4);
      ghost var d := Header(c, size, FUNC_PUT_ATT);
      FieldList(c);
      hide *;
      PackData(EncInt(ncid), d.ring, f, 2);
      PackData(EncInt(varid), d.ring, f, 3);
      PackArray(|name| + 1, name + [0], d.ring, f, 4);
      PackData(EncInt(xtype), d.ring, f, 6);
      PackArray(len, data, d.ring, f, 7);
      Finish(c, d, c0);
    }

    method SendEndDef(ncid: Int32)
      requires Accepts(EndDef(ncid))
      modifies this, buffer, buffer.data
      ensures Sent(old(At(Ensure(CallMsg(EndDef(ncid)), false, 0))))
      ensures buffer.free != 0 ==> Valid()
    {
      hide Flat, Message, LastLength, Settle, ClientInv, Packing, PackedFields, CallMsg;
      ghost var c := EndDef(ncid);
      ghost var c0, f := At(Ensure(CallMsg(c), false, 0)), Fields(c);
      var size := 8 + 4 + 4;
      ghost var d := Header(c, size, FUNC_NC_ENDDEF);
      FieldList(c);
      hide *;
      PackData(EncInt(ncid), d.ring, f, 2);
      Finish(c, d, c0);
    }

    method SendPutVara(ncid: Int32, varid: Int32, start: seq<SizeT>, count: seq<SizeT>, fpType: Int32, data: seq<Byte>)
      requires Accepts(PutVara(ncid, varid, start, count, fpType, data))
      modifies this, buffer, buffer.data
      ensures Sent(old(At(Ensure(CallMsg(PutVara(ncid, varid, start, count, fpType, data)), false, 0))))
      ensures buffer.free != 0 ==> Valid()
    {
      hide SizeOf, Boxes.Product, Count, Fields, Code, Flat, Message, LastLength, Settle, ClientInv, Packing, PackedFields, CallMsg;
      ghost var c := PutVara(ncid, varid, start, count, fpType, data);
      ghost var c0, f := At(Ensure(CallMsg(c), false, 0)), Fields(c);
      PutVaraSize(c);
      var dataLen := Boxes.Extent(count);
      var size := 8 + 4 + 4 + 4 + (|start| * 8 + 4) + (|count| * 8 + 4) + 4 + (dataLen * TypeSize(fpType) + 4);
      ghost var d := Header(c, size, FUNC_NC_PUT_VARA);
      hide *;
      PackBlock(ncid, varid, start, count, fpType, dataLen, data, d.ring);
      Finish(c, d, c0);
    }

    // The fields of a put_vara after its header.
    method PackBlock(ncid: Int32, varid: Int32, start: seq<SizeT>, count: seq<SizeT>, fpType: Int32, dataLen: Int32, data: seq<Byte>, ghost r: Ring)
      requires var c := PutVara(ncid, varid, start, count, fpType, data);
        Sendable(c) && dataLen == Count(data, fpType) && Packing(r, Fields(c), 2)
      modifies buffer, buffer.data
      ensures var f := Fields(PutVara(ncid, varid, start, count, fpType, data)); Packing(r, f, |f|)
    {
      hide Packing, Flat, Message, Count;
      ghost var c := PutVara(ncid, varid, start, count, fpType, data);
      ghost var f := Fields(c);
      FieldList(c);
      hide *;
      PackData(EncInt(ncid), r, f, 2);
      PackData(EncInt(varid), r, f, 3);
      PackArray(|start|, EncSizes(start), r, f, 4);
      PackArray(|count|, EncSizes(count), r, f, 6);
      PackData(EncInt(fpType), r, f, 8);
      PackArray(dataLen, data, r, f, 9);
    }

    method SendClose(ncid: Int32)
      requires Accepts(Close(ncid))
      modifies this, buffer, buffer.data
      ensures Sent(old(At(Ensure(CallMsg(Close(ncid)), false, 0))))
      ensures buffer.free != 0 ==> Valid()
    {
      hide Flat, Message, LastLength, Settle, ClientInv, Packing, PackedFields, CallMsg;
      ghost var c := Close(ncid);
      ghost var c0, f := At(Ensure(CallMsg(c), false, 0)), Fields(c);
      var size := 8 + 4 + 4;
      ghost var d := Header(c, size, FUNC_NC_CLOSE);
      FieldList(c);
      hide *;
      PackData(EncInt(ncid), d.ring, f, 2);
      Finish(c, d, c0);
    }

    // ---------- end of an iteration, end of the run ----------

    /** Publishes everything packed since the last flush. */
    method SendIoEnd()
      requires Valid() && signal != SIGNAL_END
      modifies this, buffer`used
      ensures Valid() && signal == SIGNAL_DATA && packed == old(packed)
      ensures buffer.Abs() == old(buffer.Abs()).(used := old(addr.free)) && addr == AddrOf(buffer.Abs())
      ensures Snapshot(addr, buffer.data[..]) == old(Unflushed(At(Idle))) && flushed == |packed|
    {
      assert packed[|packed|..] == [];
      AddrWait();
      buffer.used := addr.free;
      addr := Addr(buffer.used, buffer.free, buffer.end);
      signal := SIGNAL_DATA;
      flushed := |packed|;
    }

    method SendIoDone()
      requires Valid() && signal != SIGNAL_END
      modifies this`signal
      ensures signal == SIGNAL_END && At(Idle) == old(At(Idle)).(signal := SIGNAL_END)
    {
      AddrWait();
      signal := SIGNAL_END;
    }
  }

  lemma StartSending(c: Client, m: Msg, recvSize: nat)
    requires ClientInv(c, c.ring.Size(), recvSize) && c.pc == Idle && GoodMsg(m, c.ring.Size(), recvSize)
    ensures Sending(c.(pc := Ensure(m, false, 0)), recvSize)
  {
  }

  lemma NothingPacked(d: Client, f: seq<seq<Byte>>, recvSize: nat)
    requires Sending(d, recvSize) && AboutToPack(d) && |d.pc.m.bytes| == |Flat(f)|
    ensures Fits(d.ring, |Flat(f)|) && PackedFields(d.ring, f[..0]) == d.ring
  {
    assert Splice(d.ring.mem, d.ring.free, []) == d.ring.mem;
  }

  lemma PackedIsValid(d: Client, recvSize: nat)
    requires Sending(d, recvSize) && AboutToPack(d)
    ensures Fits(d.ring, |d.pc.m.bytes|) && d.pc.m.last <= |d.pc.m.bytes|
    ensures Settle(d, recvSize) == Pack(d, d.pc.m).(signal := SIGNAL_CLEAR)
    ensures Pack(d, d.pc.m).ring.free != 0 ==> ClientInv(Pack(d, d.pc.m), d.ring.Size(), recvSize)
  {
    if d.ring.free + |d.pc.m.bytes| != d.ring.Size() { PackInv(d, d.pc.m, d.ring.Size(), recvSize); }
  }

  lemma TwoFit(r: Ring, f: seq<seq<Byte>>, k: nat)
    requires r.Valid() && k + 1 < |f| && Fits(r, |Flat(f)|)
    ensures |Flat(f[..k])| <= LeftSpace(r) && Fits(PackedFields(r, f[..k]), |f[k]| + |f[k + 1]|)
  {
    FlatPrefix(f, k);
    FlatPrefix(f, k + 1);
    LastLengthBound(f[..k]);
    hide Flat;
  }
}
