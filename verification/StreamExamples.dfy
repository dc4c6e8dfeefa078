/** A run from the start, of ordinary calls, into the situation the theorems over
    runs exclude, in which the code loses data. And a flush that is never
    acknowledged. */
module StreamExamples {
  import opened Bytes
  import opened Wire
  import opened Rings
  import opened Stream
  import opened StreamInvariant
  import opened StreamRuns
  import opened Sender
  import RecvQueue

  // ---------- runs step by step ----------

  // What a step does, where it is defined.
  ghost predicate Does(p: Pair, st: Step, q: Pair, region: nat) {
    Runnable(p) ==> Enabled(p, st) && Safe(p, st) && Next(p, st, region) == q
  }

  lemma LeadsDoes(p: Pair, steps: seq<Step>, q: Pair, st: Step, r: Pair, region: nat)
    requires Leads(p, steps, q, region) && Does(q, st, r, region)
    ensures Leads(p, steps + [st], r, region)
  {
    InvRunnable(q, region);
    hide Inv, Enabled, Safe, Next, Runnable;
    LeadsStep(p, steps, q, st, r, region);
  }

  lemma StartsInPlace(p: Pair, region: nat)
    requires Inv(p, region)
    ensures Leads(p, [], p, region)
  {
    hide Inv;
  }

  lemma PackDoes(p: Pair, m: Msg, region: nat)
    requires p.c.ring.Valid() && p.c.pc.Idle? && GoodMsg(m, p.c.ring.Size(), p.s.recv.ring.Size())
    requires FreeSize(p.c.ring) >= |m.bytes| && |m.bytes| < LeftSpace(p.c.ring)
    ensures var p1, p2 := p.(c := p.c.(pc := Ensure(m, false, 0))), p.(c := p.c.(pc := Ensure(m, true, 0)));
      Does(p, Begin(m), p1, region) && Does(p1, Go, p2, region) && Does(p2, Go, p.(c := Pack(p.c, m)), region)
  {
    hide Inv, DecSize, ServerVisit;
  }

  // A call that fits is packed in three steps.
  lemma PackCall(p: Pair, m: Msg, region: nat)
    requires Inv(p, region) && p.c.pc.Idle? && GoodMsg(m, p.c.ring.Size(), p.s.recv.ring.Size())
    requires FreeSize(p.c.ring) >= |m.bytes| && |m.bytes| < LeftSpace(p.c.ring)
    ensures Leads(p, [Begin(m), Go, Go], p.(c := Pack(p.c, m)), region)
  {
    var p1, p2, p3 := p.(c := p.c.(pc := Ensure(m, false, 0))), p.(c := p.c.(pc := Ensure(m, true, 0))), p.(c := Pack(p.c, m));
    PackDoes(p, m, region);
    StartsInPlace(p, region);
    hide Does, Inv, Pack;
    LeadsDoes(p, [], p, Begin(m), p1, region);
    LeadsDoes(p, [] + [Begin(m)], p1, Go, p2, region);
    LeadsDoes(p, [] + [Begin(m)] + [Go], p2, Go, p3, region);
    assert [] + [Begin(m)] + [Go] + [Go] == [Begin(m), Go, Go];
  }

  // ---------- messages, and blocks filled with them ----------

  // The 16 bytes of an enddef call.
  function Small(): (m: Msg) { CallMsg(EndDef(1)) }

  lemma SmallIsGood(size: nat)
    requires size >= 64
    ensures GoodMsg(Small(), size, size) && |Small().bytes| == 16 && RecvQueue.Delimited(Small().bytes)
    ensures DecSize(Small().bytes[..8]) == 16
  {
    MessageLength(EndDef(1));
    CallMsgIsGood(EndDef(1), size, size);
    hide Message, LastLength, DecSize;
  }

  function Zeros(n: nat): (b: seq<Byte>)
    ensures |b| == n
  {
    seq(n, _ => 0)
  }

  function Msgs(k: nat): (ms: seq<seq<Byte>>)
    ensures |ms| == k && forall i :: 0 <= i < k ==> ms[i] == Small().bytes
  {
    seq(k, _ => Small().bytes)
  }

  lemma FlatMsgs(k: nat)
    ensures |Flat(Msgs(k))| == 16 * k && Msgs(k + 1) == Msgs(k) + [Small().bytes] == [Small().bytes] + Msgs(k)
    ensures Flat(Msgs(k + 1)) == Flat(Msgs(k)) + Small().bytes == Small().bytes + Flat(Msgs(k))
  {
    SmallIsGood(64);
    hide Small;
    if k > 0 { FlatMsgs(k - 1); }
    assert Msgs(k + 1) == Msgs(k) + [Small().bytes];
    assert Msgs(k + 1) == [Small().bytes] + Msgs(k);
    FlatSnoc(Msgs(k), Small().bytes);
    assert Msgs(k + 1)[1..] == Msgs(k);
  }

  // A block with k messages in it, from the start.
  function Block(size: nat, k: nat): (mem: seq<Byte>)
  {
    Flat(Msgs(k)) + Zeros(if 16 * k <= size then size - 16 * k else 0)
  }

  lemma BlockSize(size: nat, k: nat)
    requires 16 * k <= size
    ensures |Block(size, k)| == size && Block(size, k)[..16 * k] == Flat(Msgs(k))
  {
    FlatMsgs(k);
    hide Small;
  }

  // One more message behind the k that are there.
  lemma BlockGrows(size: nat, k: nat)
    requires 16 * k + 16 <= size
    ensures |Block(size, k)| == size && |Small().bytes| == 16
    ensures Splice(Block(size, k), 16 * k, Small().bytes) == Block(size, k + 1)
  {
    SmallIsGood(64);
    FlatMsgs(k);
    hide Small;
    assert Zeros(size - 16 * k)[16..] == Zeros(size - 16 * (k + 1));
  }

  // ---------- k calls, packed and delivered ----------

  // A queue that has taken k messages and given none away.
  function Queue(size: nat, k: nat): RecvQueue.Recv {
    RecvQueue.Recv(Ring(Block(size, k), 0, 16 * k, 0), seq(k, i requires 0 <= i < k => RecvQueue.Entry(16 * i, 16)))
  }

  lemma QueueTakesOne(size: nat, k: nat)
    requires 16 * k + 16 < size
    ensures |Block(size, k)| == size && |Small().bytes| == 16
    ensures RecvQueue.AddMsg(Queue(size, k), Small().bytes) == (true, Queue(size, k + 1))
  {
    BlockGrows(size, k);
    hide Small, Block;
    assert Queue(size, k).q + [RecvQueue.Entry(16 * k, 16)] == Queue(size, k + 1).q;
    if k == 0 { assert Clear(Queue(size, 0).ring) == Queue(size, 0).ring; }
  }

  lemma QueueRing(size: nat, k: nat)
    requires 16 * k < size
    ensures Queue(size, k).ring.Valid()
  {
    BlockSize(size, k);
    hide Block;
  }

  // The copy loop queues the messages j..k.
  lemma {:induction false} CopyAll(size: nat, j: nat, k: nat)
    requires j <= k && 16 * k < size
    ensures |Block(size, j)| == size
    ensures CopyLoop(Flat(Msgs(k - j)), Queue(size, j), Msgs(j)) == ([], Queue(size, k), Msgs(k))
    decreases k - j
  {
    hide Small, Queue, Msgs, Block, RecvQueue.AddMsg, DecSize, Flat;
    SmallIsGood(64);
    BlockSize(size, j);
    QueueRing(size, j);
    if j < k {
      FlatMsgs(k - j - 1);
      FlatMsgs(j);
      QueueTakesOne(size, j);
      CopyAll(size, j + 1, k);
      var b, rest := Small().bytes, Flat(Msgs(k - j - 1));
      assert (b + rest)[..8] == b[..8] && (b + rest)[..16] == b && (b + rest)[16..] == rest;
    } else {
      FlatMsgs(0);
    }
  }

  // k calls packed, nothing flushed.
  function Sent(size: nat, k: nat): Pair {
    Pair(Client(Ring(Block(size, k), 0, 16 * k, 0), Addr(0, 0, 0), SIGNAL_CLEAR, Idle, Msgs(k), 0),
         Server(Addr(0, 0, 0), SIGNAL_CLEAR, 0, true, [], false, Queue(size, 0), [], 0, false))
  }

  // After the first `done` of k calls were flushed, delivered and acknowledged.
  function Delivered(size: nat, done: nat, k: nat): Pair {
    Pair(Client(Ring(Block(size, k), 0, 16 * k, 0), Addr(0, 16 * done, 0), SIGNAL_CLEAR, Idle, Msgs(k), done),
         Server(Addr(0, 16 * done, 0), SIGNAL_CLEAR, 16 * done, true, [], false, Queue(size, done), Msgs(done), 0, false))
  }

  lemma StartIsSent(size: nat, region: nat)
    requires 0 < size <= region
    ensures Start(Zeros(size), Zeros(size)) == Sent(size, 0) && Inv(Sent(size, 0), region)
  {
    assert Msgs(0) == [];
    assert Block(size, 0) == Zeros(size);
    assert Queue(size, 0).q == [];
    hide Inv;
  }

  // One more call is packed behind the others, without a wait.
  lemma PackOne(p: Pair, size: nat, k: nat, region: nat)
    requires Inv(p, region) && p.c.pc.Idle? && size >= 64 && p.s.recv.ring.Size() == size
    requires p.c.ring == Ring(Block(size, k), 0, 16 * k, 0) && p.c.packed == Msgs(k) && 16 * k + 16 < size
    ensures Leads(p, [Begin(Small()), Go, Go], p.(c := p.c.(ring := Ring(Block(size, k + 1), 0, 16 * (k + 1), 0), packed := Msgs(k + 1))), region)
  {
    SmallIsGood(size);
    BlockGrows(size, k);
    FlatMsgs(k);
    hide Small, Msgs, Block, Inv, Leads;
    PackCall(p, Small(), region);
  }

  function PackSteps(k: nat): seq<Step> {
    if k == 0 then [] else PackSteps(k - 1) + [Begin(Small()), Go, Go]
  }

  lemma {:induction false} SentRun(size: nat, k: nat, region: nat)
    requires 64 <= size <= region && 16 * k < size
    ensures Leads(Sent(size, 0), PackSteps(k), Sent(size, k), region)
  {
    StartIsSent(size, region);
    if k > 0 {
      SentRun(size, k - 1, region);
      BlockSize(size, 0);
      PackOne(Sent(size, k - 1), size, k - 1, region);
      hide Leads, Inv, Small, Block;
      LeadsThen(Sent(size, 0), PackSteps(k - 1), Sent(size, k - 1), [Begin(Small()), Go, Go], Sent(size, k), region);
    }
  }

  // The stages of that flush: published, posted, landed, copied.
  function Published(size: nat, k: nat): Pair {
    var a, p := Addr(0, 16 * k, 0), Sent(size, k);
    Pair(p.c.(addr := a, signal := SIGNAL_DATA, flushed := k), p.s.(addr := a, signal := SIGNAL_DATA, unseen := true))
  }

  function Posted(size: nat, k: nat): Pair {
    var p := Published(size, k);
    p.(s := p.s.(readAddr := 16 * k, readDone := true, region := Post(0, 16 * k), unseen := false))
  }

  function Arrived(size: nat, k: nat): Pair {
    var p := Posted(size, k);
    p.(s := p.s.(region := Cells(Flat(Msgs(k)))))
  }

  function Copied(size: nat, k: nat): Pair {
    Delivered(size, k, k).(c := Published(size, k).c)
  }

  ghost predicate Stages(size: nat, k: nat, region: nat) {
    size >= 64 && 0 < k && 16 * k < size && 16 * k <= region
  }

  lemma PostedTurn(size: nat, k: nat, region: nat)
    requires Stages(size, k, region) && Inv(Published(size, k), region)
    ensures ServerVisit(Published(size, k).s, region, false) == Posted(size, k).s
  {
    hide Msgs, Block, Queue, CopyLoop, Inv, Small;
    assert Posted(size, k).s.region == [] + Post(0, 16 * k);
  }

  lemma ArrivedLanding(size: nat, k: nat, region: nat)
    requires Stages(size, k, region)
    ensures LandAll(Posted(size, k)) == Arrived(size, k)
  {
    BlockSize(size, k);
    FlatMsgs(k);
    var mem, b := Block(size, k), Flat(Msgs(k));
    hide Block, Small, Msgs, Flat;
    assert Resolve(Post(0, 16 * k), mem) == mem[..16 * k];
  }

  lemma CopiedTurn(size: nat, k: nat, region: nat)
    requires Stages(size, k, region)
    ensures Arrived(size, k).s.recv.ring.Valid()
    ensures ServerVisit(Arrived(size, k).s, region, true) == Copied(size, k).s
  {
    BlockSize(size, 0);
    FlatMsgs(k);
    CopyAll(size, 0, k);
    assert Msgs(0) == [];
    hide Block, Small, Msgs, Flat, CopyLoop, Queue;
  }

  function FlushSteps(k: nat): seq<Step> {
    [IoEnd] + [Visit(false)] + LandSteps(Post(0, 16 * k), 0) + [Visit(true)] + [AckLands]
  }

  lemma DeliveredRun(size: nat, k: nat, region: nat)
    requires Stages(size, k, region) && Inv(Sent(size, k), region)
    ensures Leads(Sent(size, k), FlushSteps(k), Delivered(size, k, k), region)
  {
    hide Inv, Leads, Block, Small, Msgs, Flat, ServerVisit, Queue, LandAll;
    FlushParts(size, k, region);
    PostedTurn(size, k, region);
    CopiedTurn(size, k, region);
    ArrivedLanding(size, k, region);
    var p, steps := Sent(size, k), [IoEnd];
    LeadsStep(p, steps, Published(size, k), Visit(false), Posted(size, k), region);
    LeadsInv(p, steps + [Visit(false)], Posted(size, k), region);
    LandRun(Posted(size, k), 0, region);
    LeadsThen(p, steps + [Visit(false)], Posted(size, k), LandSteps(Post(0, 16 * k), 0), Arrived(size, k), region);
    LeadsInv(p, steps + [Visit(false)] + LandSteps(Post(0, 16 * k), 0), Arrived(size, k), region);
    LeadsStep(p, steps + [Visit(false)] + LandSteps(Post(0, 16 * k), 0), Arrived(size, k), Visit(true), Copied(size, k), region);
    LeadsInv(p, steps + [Visit(false)] + LandSteps(Post(0, 16 * k), 0) + [Visit(true)], Copied(size, k), region);
    LeadsStep(p, steps + [Visit(false)] + LandSteps(Post(0, 16 * k), 0) + [Visit(true)], Copied(size, k), AckLands, Delivered(size, k, k), region);
  }

  lemma LeadsInv(p: Pair, steps: seq<Step>, q: Pair, region: nat)
    requires Leads(p, steps, q, region)
    ensures Inv(p, region) && Inv(q, region)
  {
  }

  lemma FlushParts(size: nat, k: nat, region: nat)
    requires Stages(size, k, region) && Inv(Sent(size, k), region)
    ensures Leads(Sent(size, k), [IoEnd], Published(size, k), region) && Inv(Published(size, k), region)
  {
    hide Block, Small, Msgs, Flat, Queue;
    assert Next(Sent(size, k), IoEnd, region) == Published(size, k);
    hide Published, Sent;
    LeadsOne(Sent(size, k), IoEnd, Published(size, k), region);
  }

  // ---------- a message up to the ring's end ----------

  // Where the packer of the next call stands.
  function Calling(p: Pair, used: nat, free: nat, end: nat, pc: Pc): Pair {
    p.(c := p.c.(ring := p.c.ring.(used := used, free := free, end := end), pc := pc))
  }

  // A ring of 64 bytes: three calls of 16 bytes were flushed and acknowledged,
  // the fourth has adopted the acknowledgement and found room.
  function FourthCall(): Pair { Calling(Delivered(64, 3, 3), 48, 48, 0, Ensure(Small(), true, 1)) }

  function FourthCallSteps(): seq<Step> { PackSteps(3) + FlushSteps(3) + [Begin(Small())] + [Go] + [Go] + [Go] }

  lemma FourthCallRun()
    ensures Leads(Sent(64, 0), FourthCallSteps(), FourthCall(), 64)
  {
    hide Inv, Leads, Block, Msgs, Queue, Small, PackSteps, FlushSteps;
    SentRun(64, 3, 64);
    LeadsInv(Sent(64, 0), PackSteps(3), Sent(64, 3), 64);
    DeliveredRun(64, 3, 64);
    LeadsThen(Sent(64, 0), PackSteps(3), Sent(64, 3), FlushSteps(3), Delivered(64, 3, 3), 64);
    FourthCallLast(PackSteps(3) + FlushSteps(3));
  }

  lemma FourthCallLast(steps: seq<Step>)
    requires Leads(Sent(64, 0), steps, Delivered(64, 3, 3), 64)
    ensures Leads(Sent(64, 0), steps + [Begin(Small())] + [Go] + [Go] + [Go], FourthCall(), 64)
  {
    hide Inv, Leads, Delivered, Small, Sent, Calling, FourthCall;
    var s, p, m := Sent(64, 0), Delivered(64, 3, 3), Small();
    var p1, p2, p3 := Calling(p, 0, 48, 0, Ensure(m, false, 0)), Calling(p, 0, 48, 0, Wait(m, false, 1)), Calling(p, 48, 48, 0, Ensure(m, false, 1));
    FourthCallWaits();
    FourthCallAdopts();
    hide Does;
    LeadsDoes(s, steps, p, Begin(m), p1, 64);
    LeadsDoes(s, steps + [Begin(m)], p1, Go, p2, 64);
    LeadsDoes(s, steps + [Begin(m)] + [Go], p2, Go, p3, 64);
    LeadsDoes(s, steps + [Begin(m)] + [Go] + [Go], p3, Go, FourthCall(), 64);
  }

  lemma FourthCallWaits()
    ensures var p, m := Delivered(64, 3, 3), Small(); var p1 := Calling(p, 0, 48, 0, Ensure(m, false, 0));
      Does(p, Begin(m), p1, 64) && Does(p1, Go, Calling(p, 0, 48, 0, Wait(m, false, 1)), 64)
  {
    hide Block, Msgs, Small, ServerVisit, CopyLoop, Flat, Inv, Publish, DecSize;
    SmallIsGood(64);
    BlockSize(64, 3);
  }

  lemma FourthCallAdopts()
    ensures var p, m := Delivered(64, 3, 3), Small();
      var p2, p3 := Calling(p, 0, 48, 0, Wait(m, false, 1)), Calling(p, 48, 48, 0, Ensure(m, false, 1));
      Does(p2, Go, p3, 64) && Does(p3, Go, FourthCall(), 64)
  {
    hide Block, Msgs, Small, Queue, ServerVisit, CopyLoop, Flat, Inv, Publish, DecSize;
    SmallIsGood(64);
    BlockSize(64, 3);
  }

  /** From the start a run of calls, one flush and its acknowledgement leads to a
      call that fits, ends exactly at the ring's end, and whose bytes are lost. */
  lemma FourthCallIsLost()
    ensures var start := Start(Zeros(64), Zeros(64));
      SafeRun(start, FourthCallSteps(), 64) && After(start, FourthCallSteps(), 64) == FourthCall()
    ensures Enabled(FourthCall(), Go) && EndsAtRingEnd(FourthCall().c) && !Conserved(ClientGo(FourthCall()))
  {
    hide ClientInv, ServerInv, LinkInv, Block, Msgs, Queue, Small, PackSteps, FlushSteps, SafeRun, After, Conserved, ClientGo, GoodMsg,
         DecSize, RecvQueue.Delimited;
    FourthCallRun();
    StartIsSent(64, 64);
    SmallIsGood(64);
    BlockSize(64, 3);
    PackKeepsStreamIff(FourthCall(), 64);
  }

  // ---------- an empty flush ----------

  /** A client that flushes before it has packed anything waits for ever. */
  lemma FreshFlushHangs(mem: seq<Byte>, recvMem: seq<Byte>, steps: seq<Step>, region: nat)
    requires |mem| > 0 && 0 < |recvMem| <= region
    ensures Enabled(Start(mem, recvMem), IoEnd) && Stuck(Next(Start(mem, recvMem), IoEnd, region))
    ensures StuckRun(Next(Start(mem, recvMem), IoEnd, region), steps, region) ==>
      var q := StuckAfter(Next(Start(mem, recvMem), IoEnd, region), steps, region); !Enabled(q, IoEnd) && !Enabled(q, IoDone)
  {
    EmptyFlushHangs(Start(mem, recvMem), steps, region);
  }
}
