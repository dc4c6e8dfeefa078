/** The server loop: reading, splitting, acknowledging and decoding, on the
    per-client tables the loop updates. */
module Comm {
  import opened Bytes
  import opened Wire
  import opened Rings
  import opened Stream
  import opened StreamInvariant
  import opened Collective
  import opened Rounds
  import opened EndToEnd
  import RecvQueue
  import Receiver
  import IoServer
  import Programs
  import Exit

  // ---------- counting non-empty queues ----------

  function NonEmpty(recvs: seq<RecvQueue.Recv>): (k: nat)
    ensures k <= |recvs|
  {
    if recvs == [] then 0 else (if recvs[0].q != [] then 1 else 0) + NonEmpty(recvs[1..])
  }

  lemma {:induction false} NonEmptyUpdate(recvs: seq<RecvQueue.Recv>, c: nat, r: RecvQueue.Recv)
    requires c < |recvs|
    ensures NonEmpty(recvs[c := r]) == NonEmpty(recvs) - (if recvs[c].q != [] then 1 else 0) + (if r.q != [] then 1 else 0)
  {
    if c == 0 {
      assert recvs[0 := r][1..] == recvs[1..];
    } else {
      assert recvs[c := r][1..] == recvs[1..][c - 1 := r];
      NonEmptyUpdate(recvs[1..], c - 1, r);
    }
  }

  lemma {:induction false} AllEmpty(recvs: seq<RecvQueue.Recv>)
    requires forall c :: 0 <= c < |recvs| ==> recvs[c].q == []
    ensures NonEmpty(recvs) == 0
  {
    if recvs != [] { AllEmpty(recvs[1..]); }
  }

  function Repeat<T>(n: nat, v: T): (s: seq<T>)
    ensures |s| == n && forall c :: 0 <= c < n ==> s[c] == v
  {
    seq(n, _ => v)
  }

  function BlocksOf(recvs: seq<RecvQueue.Recv>): (b: seq<seq<Byte>>)
    ensures |b| == |recvs| && forall c :: 0 <= c < |recvs| ==> b[c] == recvs[c].ring.mem
  {
    seq(|recvs|, c requires 0 <= c < |recvs| => recvs[c].ring.mem)
  }

  lemma StartFacts(mems: seq<seq<Byte>>, recvs: seq<RecvQueue.Recv>, n: nat, size: nat)
    requires n > 0 && size > 0 && |mems| == |recvs| == n && forall c :: 0 <= c < n ==> |mems[c]| > 0
    requires forall c :: 0 <= c < n ==> |recvs[c].ring.mem| == size && recvs[c] == RecvQueue.Recv(Ring(recvs[c].ring.mem, 0, 0, 0), [])
    ensures Sized(NoFiles(), n) && Programs.Blocks(mems, BlocksOf(recvs), size)
    ensures var w := Programs.StartWorld(mems, BlocksOf(recvs), NoFiles(), size);
      && |w.pairs| == n && w.io == NoFiles()
      && forall c :: 0 <= c < n ==> w.pairs[c].s == Initial(recvs[c].ring.mem)
                                    && Initial(recvs[c].ring.mem).recv == recvs[c] && recvs[c].ring.Valid() && recvs[c].q == []
  {
    hide WorldInv;
  }

  // One client's part before the first snapshot.
  function Initial(mem: seq<Byte>): Server {
    Server(Addr(0, 0, 0), SIGNAL_CLEAR, 0, true, [], false, RecvQueue.Recv(Ring(mem, 0, 0, 0), []), [], 0, false)
  }

  lemma {:induction false} NonEmptyAll(recvs: seq<RecvQueue.Recv>)
    ensures NonEmpty(recvs) == |recvs| <==> forall c :: 0 <= c < |recvs| ==> recvs[c].q != []
  {
    if recvs != [] {
      NonEmptyAll(recvs[1..]);
      assert forall c :: 1 <= c < |recvs| ==> recvs[c] == recvs[1..][c - 1];
    }
  }

  // ---------- counting finished clients ----------

  function Trues(b: seq<bool>): (k: nat)
    ensures k <= |b|
  {
    if b == [] then 0 else (if b[0] then 1 else 0) + Trues(b[1..])
  }

  lemma {:induction false} TruesUpdate(b: seq<bool>, c: nat)
    requires c < |b| && !b[c]
    ensures Trues(b[c := true]) == Trues(b) + 1
  {
    if c == 0 {
      assert b[0 := true][1..] == b[1..];
    } else {
      assert b[c := true][1..] == b[1..][c - 1 := true];
      TruesUpdate(b[1..], c - 1);
    }
  }

  lemma {:induction false} TruesAll(b: seq<bool>)
    ensures Trues(b) == |b| <==> forall c :: 0 <= c < |b| ==> b[c]
  {
    if b != [] {
      TruesAll(b[1..]);
      assert forall c :: 1 <= c < |b| ==> b[c] == b[1..][c - 1];
    }
  }

  lemma {:induction false} NoTrues(b: seq<bool>)
    requires forall c :: 0 <= c < |b| ==> !b[c]
    ensures Trues(b) == 0
  {
    if b != [] { NoTrues(b[1..]); }
  }

  // ---------- posting reads ----------

  // The most one RDMA read transfers.
  const TRANSFER_MAX := 4096 * 1024

  // `length` bytes from the address `remote` of the client's memory, to the place
  // `local` of its region.
  datatype Transfer = Transfer(client: nat, remote: nat, length: nat, local: nat)

  // Transfers of one client, the k-th beginning where the k full ones before it end,
  // that together take `length` bytes.
  predicate Chained(ts: seq<Transfer>, c: nat, from: nat, length: nat, local: nat) {
    && (forall k :: 0 <= k < |ts| ==>
          && ts[k].client == c && 0 < ts[k].length <= 4096 * 1024
          && ts[k].remote == from + k * (4096 * 1024) && ts[k].local == local + k * (4096 * 1024))
    && (forall k :: 0 <= k < |ts| - 1 ==> ts[k].length == 4096 * 1024)
    && length == if ts == [] then 0 else (|ts| - 1) * (4096 * 1024) + ts[|ts| - 1].length
  }

  lemma PostNone(region: seq<Cell>, from: nat, c: nat, local: nat)
    ensures region + Post(from, 0) == region && Chained([], c, from, 0, local)
  {
  }

  lemma PostMore(region: seq<Cell>, from: nat, a: nat, b: nat)
    ensures (region + Post(from, a)) + Post(from + a, b) == region + Post(from, a + b)
  {
  }

  lemma ChainedMore(ts: seq<Transfer>, c: nat, from: nat, length: nat, local: nat, more: nat)
    requires Chained(ts, c, from, length, local) && length == |ts| * TRANSFER_MAX && 0 < more <= TRANSFER_MAX
    ensures Chained(ts + [Transfer(c, from + length, more, local + length)], c, from, length + more, local)
  {
    if ts != [] { assert ts[|ts| - 1].length == TRANSFER_MAX; }
  }

  lemma CellsOfValues(region: seq<Cell>, k: nat)
    requires AllLanded(region) && k <= |region|
    ensures AllLanded(region[k..]) && Values(region[k..]) == Values(region)[k..] && Cells(Values(region)[k..]) == region[k..]
  {
  }

  // What the next message of a client is.
  lemma HeadOf(p: Pair, rounds: nat, region: nat)
    requires PairOk(p, rounds, region) && p.s.recv.q != []
    ensures RecvQueue.Valid(p.s.recv) && RecvQueue.Queued(p.s.recv) != []
    ensures IsCall(RecvQueue.Queued(p.s.recv)[0])
    ensures CallOf(RecvQueue.Queued(p.s.recv)[0]) == Unpacked(p, rounds, region)
  {
    hide ReadInv, ClientInv, LinkInv, IsCall, Message, Unpack, Flat, Resolve, Unread;
    HeadIsNext(p, rounds, region);
    Receiver.FirstMessage(p.s.recv);
  }

  // What taking it leaves.
  lemma DecodedIsPopped(p: Pair, rounds: nat, region: nat)
    requires PairOk(p, rounds, region) && p.s.recv.q != []
    ensures CanPop(p.s) && Decoded(p, rounds, region).s == Popped(p.s)
  {
    hide ReadInv, ClientInv, LinkInv, Talks, IsCall, RecvQueue.Valid, RecvQueue.Queued, RecvQueue.Pop, Flat, Resolve, Unread;
    Receiver.FirstMessage(p.s.recv);
  }

  ghost predicate CanPop(s: Server) {
    s.recv.ring.Valid() && s.recv.q != [] && s.recv.q[0].addr < s.recv.ring.Size() && s.recv.q[0].size <= s.recv.ring.Size()
  }

  ghost function Popped(s: Server): Server
    requires CanPop(s)
  {
    s.(recv := RecvQueue.Pop(s.recv), decoded := s.decoded + 1)
  }

  lemma AddMsgCounts(r: RecvQueue.Recv, m: seq<Byte>)
    requires r.ring.Valid() && |m| > 0
    ensures var (ok, r') := RecvQueue.AddMsg(r, m); if ok then |r'.q| == |r.q| + 1 else r'.q == r.q
  {
  }

  lemma CopyToListIs(s: Server)
    requires s.recv.ring.Valid() && AllLanded(s.region)
    ensures var all := CopyLoop(Values(s.region), s.recv, s.delivered);
      CopyToList(s) == s.(region := Cells(all.0), recv := all.1, delivered := all.2)
  {
    hide CopyLoop;
  }

  // Eight bytes that say 0.
  predicate ZeroHeader(b: seq<Byte>) { |b| >= 8 && DecSize(b[..8]) == 0 }

  predicate ZeroSize(region: seq<Cell>) { AllLanded(region) && ZeroHeader(Values(region)) }

  // A region of the protocol never starts with a size of 0.
  lemma NoZeroSize(p: Pair, region: nat)
    requires Inv(p, region)
    ensures !ZeroSize(p.s.region)
  {
    if p.s.signal == SIGNAL_DATA && AllLanded(p.s.region) && |p.s.region| >= 8 {
      ResolveLanded(p.s.region, p.c.ring.mem);
      FrontMessage(Values(p.s.region), Unread(p.s, p.c.ring.mem), p.c.packed[|p.s.delivered|..p.c.flushed]);
    }
    hide RecvQueue.Valid, RecvQueue.Queued, Flat, PcInv, DecSize;
  }

  class CfioServer {
    const clientNum: nat
    const regionSize: nat
    var readAddrs: seq<nat>
    var readDones: seq<bool>
    var localLens: seq<nat>
    var copyLens: seq<nat>
    var msgCnts: seq<nat>
    var commDones: seq<bool>
    var commDoneCnt: nat
    var msgCltCnt: nat
    // What is shared with, or belongs to, each client: the published addresses,
    // the region its bytes are read into, and the receive queues.
    var addrs: seq<Addr>
    var signals: seq<nat>
    var regions: seq<seq<Cell>>
    const recv: Receiver.RecvTable
    const handlers: IoServer.CfioIo
    // A message of size 0 ends the process.
    var exited: bool
    ghost var delivered: seq<seq<seq<Byte>>>
    ghost var decoded: seq<nat>
    ghost var unseen: seq<bool>
    // Every transfer posted so far.
    ghost var posted: seq<Transfer>

    ghost predicate Tables()
      reads this`readAddrs, this`readDones, this`localLens, this`copyLens, this`msgCnts, this`commDones, this`msgCltCnt,
            this`addrs, this`signals, this`regions, this`delivered, this`decoded, this`unseen, recv`recvs
    {
      && clientNum > 0 && regionSize > 0 && |recv.queues| == clientNum
      && |readAddrs| == |readDones| == |localLens| == |copyLens| == |msgCnts| == |commDones| == clientNum
      && |addrs| == |signals| == |regions| == |recv.recvs| == |delivered| == |decoded| == |unseen| == clientNum
      && (forall c :: 0 <= c < clientNum ==>
            localLens[c] == |regions[c]| && copyLens[c] == 0 && msgCnts[c] == |recv.recvs[c].q| && recv.recvs[c].ring.Valid())
      && msgCltCnt == NonEmpty(recv.recvs)
    }

    // The entries of one client, as the protocol state.
    ghost function Conn(c: nat): Server
      requires Tables() && c < clientNum
      reads this`readAddrs, this`readDones, this`localLens, this`copyLens, this`msgCnts, this`commDones, this`msgCltCnt,
            this`addrs, this`signals, this`regions, this`delivered, this`decoded, this`unseen, recv`recvs
    {
      Server(addrs[c], signals[c], readAddrs[c], readDones[c], regions[c], commDones[c], recv.recvs[c], delivered[c], decoded[c], unseen[c])
    }

    // Posts one transfer from the client's memory to the end of its region.
    method RdmaReadData(c: nat, remote: nat, length: nat, local: nat)
      requires c < clientNum == |regions| && local == |regions[c]|
      modifies this`regions, this`posted
      ensures regions == old(regions)[c := old(regions[c]) + Post(remote, length)]
      ensures posted == old(posted) + [Transfer(c, remote, length, local)]
    {
      regions := regions[c := regions[c] + Post(remote, length)];
      posted := posted + [Transfer(c, remote, length, local)];
    }

    /** Posts one read as adjacent transfers that together are the whole range: each
        takes at most 4096 * 1024 bytes, and all but the last just that many. */
    method PostReads(c: nat, from: nat, length: nat)
      requires c < clientNum == |regions| == |localLens| && localLens[c] == |regions[c]|
      modifies this`localLens, this`regions, this`posted
      ensures regions == old(regions)[c := old(regions[c]) + Post(from, length)]
      ensures localLens == old(localLens)[c := old(localLens[c]) + length]
      ensures old(posted) <= posted && Chained(posted[|old(posted)|..], c, from, length, old(localLens[c]))
    {
      PostNone(regions[c], from, c, localLens[c]);
      hide Chained, Post;
      var leftLength: nat, remoteOffset: nat := length, from;
      ghost var ts: seq<Transfer> := [];
      while leftLength > 0
        invariant 0 <= leftLength <= length && remoteOffset == from + (length - leftLength)
        invariant regions == old(regions)[c := old(regions[c]) + Post(from, length - leftLength)]
        invariant localLens == old(localLens)[c := old(localLens[c]) + (length - leftLength)]
        invariant posted == old(posted) + ts && Chained(ts, c, from, length - leftLength, old(localLens[c]))
        invariant leftLength > 0 ==> length - leftLength == |ts| * TRANSFER_MAX
      {
        var transfer := if leftLength > TRANSFER_MAX then TRANSFER_MAX else leftLength;
        leftLength := leftLength - transfer;
        PostMore(old(regions[c]), from, length - leftLength - transfer, transfer);
        ChainedMore(ts, c, from, length - leftLength - transfer, old(localLens[c]), transfer);
        ts := ts + [Transfer(c, remoteOffset, transfer, localLens[c])];
        RdmaReadData(c, remoteOffset, transfer, localLens[c]);
        remoteOffset := remoteOffset + transfer;
        localLens := localLens[c := localLens[c] + transfer];
      }
      assert posted[|old(posted)|..] == ts;
    }

    // Chooses the next piece of the snapshot and moves the read position past it.
    method NextPiece(c: nat) returns (length: nat)
      requires Tables() && c < clientNum && localLens[c] <= regionSize
      requires readAddrs[c] <= if LowerPart(Conn(c)) then addrs[c].free else addrs[c].end
      modifies this`readAddrs, this`readDones
      ensures length == ReadLength(old(Conn(c)), regionSize)
      ensures readAddrs == old(readAddrs)[c := Stream.ReadData(old(Conn(c)), regionSize).readAddr]
      ensures readDones == old(readDones)[c := Stream.ReadData(old(Conn(c)), regionSize).readDone]
    {
      hide NonEmpty, Post;
      if addrs[c].used <= addrs[c].free || readAddrs[c] <= addrs[c].free {
        length := addrs[c].free - readAddrs[c];
        length := if length < regionSize - localLens[c] then length else regionSize - localLens[c];
        readAddrs := readAddrs[c := readAddrs[c] + length];
        if readAddrs[c] >= addrs[c].free {
          readDones := readDones[c := true];
        }
      } else {
        length := addrs[c].end - readAddrs[c];
        length := if length < regionSize - localLens[c] then length else regionSize - localLens[c];
        readAddrs := readAddrs[c := readAddrs[c] + length];
        if readAddrs[c] >= addrs[c].end {
          readAddrs := readAddrs[c := 0];
        }
      }
    }

    /** Posts the next piece of the snapshot. */
    method ReadData(c: nat)
      requires Tables() && c < clientNum && localLens[c] <= regionSize
      requires readAddrs[c] <= if LowerPart(Conn(c)) then addrs[c].free else addrs[c].end
      modifies this`readAddrs, this`readDones, this`localLens, this`regions, this`posted
      ensures Tables() && Conn(c) == Stream.ReadData(old(Conn(c)), regionSize)
      ensures forall d :: 0 <= d < clientNum && d != c ==> Conn(d) == old(Conn(d))
    {
      hide NonEmpty, Chained, Post, ReadLength, LowerPart;
      var remoteOffset := readAddrs[c];
      var length := NextPiece(c);
      PostReads(c, remoteOffset, length);
    }

    /** Moves whole messages from the region to the client's queue. */
    method CopyDataToList(c: nat)
      requires Tables() && recv.Valid() && c < clientNum && AllLanded(regions[c])
      modifies this`copyLens, this`localLens, this`regions, this`msgCnts, this`msgCltCnt, this`delivered, this`exited,
               recv`recvs, recv.queues, recv.Buffers(), recv.Datas()
      ensures Tables() && recv.Valid() && Conn(c) == CopyToList(old(Conn(c)))
      ensures exited <==> old(exited) || ZeroSize(regions[c])
      ensures forall d :: 0 <= d < clientNum && d != c ==> Conn(d) == old(Conn(d))
    {
      hide NonEmpty, RecvQueue.AddMsg, CopyLoop, Receiver.RecvTable.Valid, ZeroHeader, CopyToList;
      var reg := Values(regions[c]);
      ghost var all := CopyLoop(reg, recv.recvs[c], delivered[c]);
      TakeMessages(c, reg);
      CellsOfValues(regions[c], copyLens[c]);
      CopyToListIs(old(Conn(c)));
      Shift(c);
      assert regions[c] == Cells(all.0);
    }

    // Moves what is left of the region to its front.
    method Shift(c: nat)
      requires c < clientNum == |regions| == |localLens| == |copyLens| && copyLens[c] <= localLens[c] == |regions[c]|
      modifies this`regions, this`localLens, this`copyLens
      ensures regions == old(regions)[c := old(regions[c])[old(copyLens[c])..]]
      ensures localLens == old(localLens)[c := |regions[c]|] && copyLens == old(copyLens)[c := 0]
    {
      if copyLens[c] > 0 {
        regions := regions[c := regions[c][copyLens[c]..]];
        localLens := localLens[c := localLens[c] - copyLens[c]];
        copyLens := copyLens[c := 0];
      }
    }

    // Adds one message to the client's queue and counts it.
    method Enqueue(c: nat, msg: seq<Byte>) returns (ok: bool)
      requires recv.Valid() && c < clientNum == |recv.queues| == |recv.recvs| == |msgCnts| == |delivered| && |msg| > 0
      requires recv.recvs[c].ring.Valid() && msgCnts[c] == |recv.recvs[c].q| && msgCltCnt == NonEmpty(recv.recvs)
      modifies this`msgCnts, this`msgCltCnt, this`delivered, recv`recvs, recv.queues, recv.Buffers(), recv.Datas()
      ensures recv.Valid() && |recv.recvs| == clientNum && recv.recvs == old(recv.recvs)[c := recv.recvs[c]]
      ensures (ok, recv.recvs[c]) == RecvQueue.AddMsg(old(recv.recvs[c]), msg)
      ensures msgCnts == old(msgCnts)[c := |recv.recvs[c].q|] && msgCltCnt == NonEmpty(recv.recvs)
      ensures delivered == if ok then old(delivered)[c := old(delivered[c]) + [msg]] else old(delivered)
    {
      hide NonEmpty, RecvQueue.AddMsg, Receiver.RecvTable.Valid;
      AddMsgCounts(recv.recvs[c], msg);
      NonEmptyUpdate(recv.recvs, c, RecvQueue.AddMsg(recv.recvs[c], msg).1);
      ok := recv.AddMsg(c, msg);
      if ok {
        msgCnts := msgCnts[c := msgCnts[c] + 1];
        if msgCnts[c] == 1 {
          msgCltCnt := msgCltCnt + 1;
        }
        delivered := delivered[c := delivered[c] + [msg]];
      }
    }

    // The splitting loop: copy_lens[c] moves over the messages that were queued.
    method TakeMessages(c: nat, reg: seq<Byte>)
      requires recv.Valid() && c < clientNum == |recv.queues| == |copyLens| == |recv.recvs| == |msgCnts| == |delivered| == |localLens|
      requires localLens[c] == |reg| && copyLens[c] == 0 && recv.recvs[c].ring.Valid()
      requires msgCnts[c] == |recv.recvs[c].q| && msgCltCnt == NonEmpty(recv.recvs)
      modifies this`copyLens, this`msgCnts, this`msgCltCnt, this`delivered, this`exited,
               recv`recvs, recv.queues, recv.Buffers(), recv.Datas()
      ensures recv.Valid() && |copyLens| == |recv.recvs| == |msgCnts| == |delivered| == clientNum
      ensures copyLens == old(copyLens)[c := copyLens[c]] && recv.recvs == old(recv.recvs)[c := recv.recvs[c]] && recv.recvs[c].ring.Valid()
      ensures msgCnts == old(msgCnts)[c := |recv.recvs[c].q|] && delivered == old(delivered)[c := delivered[c]]
      ensures msgCltCnt == NonEmpty(recv.recvs) && copyLens[c] <= |reg|
      ensures (reg[copyLens[c]..], recv.recvs[c], delivered[c]) == CopyLoop(reg, old(recv.recvs[c]), old(delivered[c]))
      ensures exited <==> old(exited) || ZeroHeader(reg[copyLens[c]..])
    {
      hide NonEmpty, RecvQueue.AddMsg, Receiver.RecvTable.Valid;
      ghost var all := CopyLoop(reg, recv.recvs[c], delivered[c]);
      assert reg[0..] == reg;
      var at: nat := 0;
      while at + 8 <= localLens[c]
        invariant recv.Valid() && |copyLens| == |recv.recvs| == |msgCnts| == |delivered| == clientNum && exited == old(exited)
        invariant at == copyLens[c] <= |reg| && recv.recvs[c].ring.Valid()
        invariant copyLens == old(copyLens)[c := at] && recv.recvs == old(recv.recvs)[c := recv.recvs[c]]
        invariant msgCnts == old(msgCnts)[c := |recv.recvs[c].q|] && delivered == old(delivered)[c := delivered[c]]
        invariant msgCltCnt == NonEmpty(recv.recvs)
        invariant CopyLoop(reg[at..], recv.recvs[c], delivered[c]) == all
        decreases |reg| - at
      {
        var msgSize: nat := DecSize(reg[at..at + 8]);
        assert reg[at..][..8] == reg[at..at + 8];
        if at + msgSize > localLens[c] {
          break;
        }
        if msgSize == 0 {
          exited := true;
          break;
        }
        var msg := reg[at..at + msgSize];
        assert reg[at..][..msgSize] == msg && reg[at..][msgSize..] == reg[at + msgSize..];
        var ok := Enqueue(c, msg);
        if !ok {
          break;
        }
        at := at + msgSize;
        copyLens := copyLens[c := at];
      }
      assert all == (reg[at..], recv.recvs[c], delivered[c]);
    }
  
    // ---------- one iteration of the loop ----------

    // The next read starts inside the snapshot.
    ghost predicate ReadReady(s: Server)
    {
      !s.readDone && |s.region| < regionSize ==> s.readAddr <= if LowerPart(s) then s.addr.free else s.addr.end
    }

    // A new snapshot, or the end: true when the client is finished.
    method CheckAddr(clt: nat) returns (finished: bool)
      requires Tables() && clt < clientNum && !commDones[clt]
      modifies this`readAddrs, this`readDones, this`unseen, this`commDones, this`commDoneCnt
      ensures Tables() && (finished, Conn(clt)) == Pickup(old(Conn(clt)))
      ensures forall d :: 0 <= d < clientNum && d != clt ==> Conn(d) == old(Conn(d))
      ensures commDones == (if finished then old(commDones)[clt := true] else old(commDones))
      ensures commDoneCnt == old(commDoneCnt) + if finished then 1 else 0
    {
      hide NonEmpty;
      finished := false;
      if readDones[clt] && localLens[clt] == 0 && signals[clt] != SIGNAL_CLEAR {
        if signals[clt] == SIGNAL_DATA {
          readAddrs := readAddrs[clt := addrs[clt].used];
          readDones := readDones[clt := false];
          unseen := unseen[clt := false];
        } else {
          commDones := commDones[clt := true];
          commDoneCnt := commDoneCnt + 1;
          finished := true;
        }
      }
    }

    method CopyAndAckClient(clt: nat)
      requires Tables() && recv.Valid() && clt < clientNum && AllLanded(regions[clt])
      modifies this`copyLens, this`localLens, this`regions, this`msgCnts, this`msgCltCnt, this`delivered, this`signals,
               this`exited, recv`recvs, recv.queues, recv.Buffers(), recv.Datas()
      ensures Tables() && recv.Valid() && Conn(clt) == CopyAndAck(old(Conn(clt)))
      ensures exited <==> old(exited) || ZeroSize(Conn(clt).region)
      ensures forall d :: 0 <= d < clientNum && d != clt ==> Conn(d) == old(Conn(d))
    {
      hide NonEmpty, CopyToList, Receiver.RecvTable.Valid;
      CopyDataToList(clt);
      if localLens[clt] == 0 && readDones[clt] {
        signals := signals[clt := SIGNAL_CLEAR];
      }
    }

    /** The part of an iteration that concerns one client's bytes. `polled`: all
        reads posted for the client have completed. */
    method VisitClient(clt: nat, polled: bool) returns (finished: bool)
      requires Tables() && recv.Valid() && clt < clientNum && !commDones[clt] && ReadReady(Pickup(Conn(clt)).1)
      modifies this`readAddrs, this`readDones, this`localLens, this`regions, this`unseen, this`commDones, this`commDoneCnt, this`posted,
               this`copyLens, this`msgCnts, this`msgCltCnt, this`delivered, this`signals,
               this`exited, recv`recvs, recv.queues, recv.Buffers(), recv.Datas()
      ensures Tables() && recv.Valid() && finished == Pickup(old(Conn(clt))).0
      ensures exited ==> old(exited) || ZeroSize(Conn(clt).region)
      ensures Conn(clt) == ServerVisit(old(Conn(clt)), regionSize, polled)
      ensures forall d :: 0 <= d < clientNum && d != clt ==> Conn(d) == old(Conn(d))
      ensures commDones == (if finished then old(commDones)[clt := true] else old(commDones))
      ensures commDoneCnt == old(commDoneCnt) + if finished then 1 else 0
    {
      hide NonEmpty, CopyAndAck, Stream.ReadData, Pickup, ZeroSize, LowerPart, Receiver.RecvTable.Valid;
      finished := CheckAddr(clt);
      if finished {
        return;
      }
      if !readDones[clt] && localLens[clt] < regionSize {
        ReadData(clt);
      }
      if localLens[clt] >= 8 && polled && AllLanded(regions[clt]) {
        CopyAndAckClient(clt);
      }
    }
  
    // ---------- rounds ----------

    // The protocol and program state the tables stand for.
    ghost var world: World

    ghost predicate Agree()
      reads this, handlers, recv, recv.queues, recv.Buffers(), recv.Datas()
    {
      && Tables() && recv.Valid() && |world.pairs| == clientNum && world.io == handlers.Abs() && recv.clientGetIndex == 0
      && handlers.clientNum == clientNum && !exited && |commDones| == clientNum && commDoneCnt == Trues(commDones)
      && forall c :: 0 <= c < clientNum ==> world.pairs[c].s == Conn(c)
    }

    /** A server of n clients whose regions and receive rings have `size` bytes each.
        With the clients' rings `mems` it is at the start of the protocol. */
    constructor (n: nat, size: nat, ghost mems: seq<seq<Byte>>)
      requires n > 0 && size > 0 && |mems| == n && forall c :: 0 <= c < n ==> |mems[c]| > 0
      ensures clientNum == n && regionSize == size && Agree() && Sized(NoFiles(), n)
      ensures Programs.Blocks(mems, BlocksOf(recv.recvs), size) && world == Programs.StartWorld(mems, BlocksOf(recv.recvs), NoFiles(), size)
      ensures fresh(handlers) && fresh(recv) && fresh(recv.queues) && fresh(recv.Buffers()) && fresh(recv.Datas())
    {
      hide Receiver.RecvTable.Valid, NonEmpty, Repeat, WorldInv, Trues, Programs.StartWorld, Programs.Blocks, BlocksOf, Sized;
      recv := new Receiver.RecvTable(n, size);
      handlers := new IoServer.CfioIo(n);
      clientNum, regionSize, exited, commDoneCnt, msgCltCnt := n, size, false, 0, 0;
      readAddrs, localLens, copyLens, msgCnts := Repeat(n, 0), Repeat(n, 0), Repeat(n, 0), Repeat(n, 0);
      readDones, commDones := Repeat(n, true), Repeat(n, false);
      addrs, signals, regions := Repeat(n, Addr(0, 0, 0)), Repeat(n, SIGNAL_CLEAR), Repeat(n, []);
      delivered, decoded, unseen := Repeat(n, []), Repeat(n, 0), Repeat(n, false);
      new;
      AllEmpty(recv.recvs);
      NoTrues(commDones);
      StartFacts(mems, recv.recvs, n, size);
      world := Programs.StartWorld(mems, BlocksOf(recv.recvs), NoFiles(), size);
    }

    // Takes and unpacks the first message of client i, and counts it.
    method Dequeue(i: nat) returns (call: Call)
      requires recv.Valid() && i == recv.clientGetIndex < clientNum == |recv.queues| == |recv.recvs| == |msgCnts| == |decoded|
      requires RecvQueue.Valid(recv.recvs[i]) && recv.recvs[i].q != [] && IsCall(RecvQueue.Queued(recv.recvs[i])[0])
      requires msgCnts[i] == |recv.recvs[i].q| && msgCltCnt == NonEmpty(recv.recvs)
      modifies this`decoded, this`msgCnts, this`msgCltCnt, recv, recv.queues, recv.Buffers(), recv.Datas()
      ensures recv.Valid() && recv.clientGetIndex == (i + 1) % clientNum
      ensures var r := old(recv.recvs[i]);
        && r.ring.Valid() && r.q[0].addr < r.ring.Size() && r.q[0].size <= r.ring.Size()
        && recv.recvs == old(recv.recvs)[i := RecvQueue.Pop(r)] && RecvQueue.Pop(r).ring.Valid() && call == CallOf(RecvQueue.Queued(r)[0])
      ensures decoded == old(decoded)[i := old(decoded[i]) + 1]
      ensures |recv.recvs| == clientNum && msgCnts == old(msgCnts)[i := |recv.recvs[i].q|] && msgCltCnt == NonEmpty(recv.recvs)
    {
      hide NonEmpty, RecvQueue.Valid, RecvQueue.Queued, RecvQueue.Pop, IsCall, Unpack, Receiver.RecvTable.Valid;
      Receiver.FirstMessage(recv.recvs[i]);
      CallUnpacks(RecvQueue.Queued(recv.recvs[i])[0]);
      NonEmptyUpdate(recv.recvs, i, RecvQueue.Pop(recv.recvs[i]));
      call := recv.GetFirst();
      decoded := decoded[i := decoded[i] + 1];
      msgCnts := msgCnts[i := msgCnts[i] - 1];
      if msgCnts[i] == 0 {
        msgCltCnt := msgCltCnt - 1;
      }
    }

    method TakeFirst(i: nat) returns (call: Call)
      requires Tables() && recv.Valid() && i == recv.clientGetIndex < clientNum
      requires RecvQueue.Valid(recv.recvs[i]) && recv.recvs[i].q != [] && IsCall(RecvQueue.Queued(recv.recvs[i])[0])
      modifies this`decoded, this`msgCnts, this`msgCltCnt, recv, recv.queues, recv.Buffers(), recv.Datas()
      ensures Tables() && recv.Valid() && recv.clientGetIndex == (i + 1) % clientNum
      ensures call == CallOf(RecvQueue.Queued(old(recv.recvs[i]))[0])
      ensures CanPop(old(Conn(i))) && Conn(i) == Popped(old(Conn(i)))
      ensures forall d :: 0 <= d < clientNum && d != i ==> Conn(d) == old(Conn(d))
    {
      hide NonEmpty, RecvQueue.Valid, RecvQueue.Queued, RecvQueue.Pop, IsCall, CallOf, Receiver.RecvTable.Valid;
      call := Dequeue(i);
    }

    // The first i clients of the round have been served: the tables have moved
    // from `before` to `after`, the program state from `start`.
    ghost predicate Mid(before: seq<Server>, after: seq<Server>, start: Io, calls: seq<Call>, i: nat)
      reads this, handlers, recv, recv.queues, recv.Buffers(), recv.Datas()
    {
      && Tables() && recv.Valid() && handlers.clientNum == clientNum && i <= clientNum == |before| == |after| == |calls| && recv.clientGetIndex == (if i < clientNum then i else 0)
      && (forall d :: 0 <= d < i ==> Conn(d) == after[d])
      && (forall d :: i <= d < clientNum ==> Conn(d) == before[d])
      && Sized(start, clientNum) && handlers.Abs() == Round(start, clientNum, calls, i)
    }

    method DecodeSlot(i: nat, ghost c: Call)
      requires Tables() && recv.Valid() && recv.clientGetIndex == i < clientNum && RecvQueue.Valid(recv.recvs[i]) && recv.recvs[i].q != []
      requires IsCall(RecvQueue.Queued(recv.recvs[i])[0]) && CallOf(RecvQueue.Queued(recv.recvs[i])[0]) == c
      requires Sized(handlers.Abs(), clientNum) && handlers.clientNum == clientNum && CanPop(Conn(i))
      modifies this`decoded, this`msgCnts, this`msgCltCnt, recv, recv.queues, recv.Buffers(), recv.Datas(), handlers
      ensures Tables() && recv.Valid() && recv.clientGetIndex == (i + 1) % clientNum
      ensures Conn(i) == Popped(old(Conn(i))) && handlers.Abs() == Handle(old(handlers.Abs()), clientNum, i, c)
      ensures forall d :: 0 <= d < clientNum && d != i ==> Conn(d) == old(Conn(d))
    {
      hide Handle, Sized, NonEmpty, IsCall, RecvQueue.Valid, RecvQueue.Queued, RecvQueue.Pop, Popped, Conn, Tables, Receiver.RecvTable.Valid, CallOf;
      var call := TakeFirst(i);
      handlers.Decode(call, i);
    }

    lemma ConnFields(c: nat)
      requires Tables() && c < clientNum
      ensures Conn(c).recv == recv.recvs[c] && Conn(c).commDone == commDones[c]
    {
    }

    method DecodeNext(ghost before: seq<Server>, ghost after: seq<Server>, ghost start: Io, ghost calls: seq<Call>, i: nat)
      requires Mid(before, after, start, calls, i) && i < clientNum && Served(before[i], after[i], calls[i])
      modifies this`decoded, this`msgCnts, this`msgCltCnt, handlers, recv, recv.queues, recv.Buffers(), recv.Datas()
      ensures Mid(before, after, start, calls, i + 1)
    {
      hide Handle, Sized, IsCall, RecvQueue.Valid, RecvQueue.Queued, Round, Popped, CallOf, CanPop, Tables, Conn, Receiver.RecvTable.Valid;
      ModCase(i + 1, clientNum);
      RoundStep(start, clientNum, calls, i);
      ConnFields(i);
      DecodeSlot(i, calls[i]);
    }

    method DecodeAll(ghost before: seq<Server>, ghost after: seq<Server>, ghost start: Io, ghost calls: seq<Call>)
      requires Mid(before, after, start, calls, 0)
      requires forall i :: 0 <= i < clientNum ==> Served(before[i], after[i], calls[i])
      modifies this`decoded, this`msgCnts, this`msgCltCnt, handlers, recv, recv.queues, recv.Buffers(), recv.Datas()
      ensures Mid(before, after, start, calls, clientNum)
    {
      hide Mid, Served, Sized, Round, Tables, Conn;
      for i := 0 to clientNum
        invariant Mid(before, after, start, calls, i)
      {
        DecodeNext(before, after, start, calls, i);
      }
    }

    method DecodeServed(ghost pairs: seq<Pair>, ghost pairs': seq<Pair>, ghost calls: seq<Call>)
      requires Tables() && recv.Valid() && handlers.clientNum == clientNum && recv.clientGetIndex == 0 && |pairs| == |pairs'| == |calls| == clientNum
      requires forall c :: 0 <= c < clientNum ==> Conn(c) == pairs[c].s && Served(pairs[c].s, pairs'[c].s, calls[c])
      requires Sized(handlers.Abs(), clientNum)
      modifies this`decoded, this`msgCnts, this`msgCltCnt, handlers, recv, recv.queues, recv.Buffers(), recv.Datas()
      ensures Tables() && recv.Valid() && recv.clientGetIndex == 0
      ensures handlers.Abs() == Round(old(handlers.Abs()), clientNum, calls, clientNum)
      ensures forall c :: 0 <= c < clientNum ==> Conn(c) == pairs'[c].s
    {
      hide Sized, Round, Tables, Conn, Served;
      RoundZero(handlers.Abs(), clientNum, calls);
      DecodeAll(Servers(pairs), Servers(pairs'), handlers.Abs(), calls);
    }

    /** One round: a message of every client, in slot order. When the clients'
        calls match, the handlers have performed the call once. */
    method DecodeOneRound(ghost io0: Io)
      requires Agree() && WorldInv(world, io0, regionSize) && AllWaiting(world.pairs)
      modifies this`decoded, this`msgCnts, this`msgCltCnt, this`world,
               handlers, recv, recv.queues, recv.Buffers(), recv.Datas()
      ensures Agree() && world == DecodeRound(old(world), io0, regionSize)
      ensures Performed(old(handlers.Abs()), handlers.Abs(), Heads(old(world).pairs, old(world).rounds, regionSize))
    {
      hide WorldInv, PairsOk, PairOk, Inv, Talks, DecodeRound, Decoded, Heads, AllWaiting, Served, Sized, Round, ServerRun, Columns, Conn, Tables, Performed;
      ghost var w, w' := world, DecodeRound(world, io0, regionSize);
      RoundFacts(w, io0, regionSize);
      RoundPerformed(w.io, clientNum, Heads(w.pairs, w.rounds, regionSize));
      DecodeServed(w.pairs, w'.pairs, Heads(w.pairs, w.rounds, regionSize));
      world := w';
    }

    // ---------- the loop body ----------

    // Every client has a message queued exactly when the counter says so.
    lemma CountersTell()
      requires Agree()
      ensures msgCltCnt == clientNum <==> AllWaiting(world.pairs)
    {
      NonEmptyAll(recv.recvs);
      assert forall c :: 0 <= c < clientNum ==> world.pairs[c].s.recv == recv.recvs[c];
    }

    /** Decodes rounds as long as every client has a message queued. */
    method DecodeRounds(ghost io0: Io)
      requires Agree() && WorldInv(world, io0, regionSize)
      modifies this`decoded, this`msgCnts, this`msgCltCnt, this`world,
               handlers, recv, recv.queues, recv.Buffers(), recv.Datas()
      ensures Agree() && world == Drain(old(world), io0, regionSize)
    {
      hide WorldInv, Agree, Drain, DecodeRound, AllWaiting;
      ghost var w := world;
      CountersTell();
      while clientNum == msgCltCnt
        invariant Agree() && WorldInv(world, io0, regionSize)
        invariant clientNum == msgCltCnt <==> AllWaiting(world.pairs)
        invariant Drain(world, io0, regionSize) == Drain(w, io0, regionSize)
        decreases FirstQueue(world)
      {
        DrainStep(world, io0, regionSize);
        DecodeOneRound(io0);
        CountersTell();
      }
      DrainEnd(world, io0, regionSize);
    }

    // The client's bytes, and its end; w1 is the state that gives.
    method ServeClient(clt: nat, polled: bool, ghost w1: World) returns (finished: bool)
      requires Agree() && clt < clientNum && !commDones[clt] && ReadReady(Pickup(Conn(clt)).1)
      requires w1.io == world.io && w1.pairs == world.pairs[clt := world.pairs[clt].(s := ServerVisit(Conn(clt), regionSize, polled))]
      requires !ZeroSize(ServerVisit(Conn(clt), regionSize, polled).region)
      modifies this, handlers, recv, recv.queues, recv.Buffers(), recv.Datas()
      ensures Agree() && world == w1 && finished == Pickup(old(Conn(clt))).0
      ensures commDones == (if finished then old(commDones)[clt := true] else old(commDones))
      ensures commDoneCnt == old(commDoneCnt) + if finished then 1 else 0
    {
      hide Pickup, ServerVisit, Tables, Conn, ZeroSize, Trues, Receiver.RecvTable.Valid;
      TruesUpdate(commDones, clt);
      finished := VisitClient(clt, polled);
      world := w1;
    }

    // The part of an iteration behind the choice of the client.
    method Turn(clt: nat, polled: bool, ghost io0: Io)
      requires Agree() && WorldInv(world, io0, regionSize) && CanDo(world, ServerTurn(clt, polled), regionSize)
      modifies this, handlers, recv, recv.queues, recv.Buffers(), recv.Datas()
      ensures Agree() && world == Do(old(world), ServerTurn(clt, polled), io0, regionSize)
      ensures commDoneCnt == old(commDoneCnt) + if old(world).pairs[clt].c.pc.Done? then 1 else 0
      ensures commDones == if old(world).pairs[clt].c.pc.Done? then old(commDones)[clt := true] else old(commDones)
    {
      hide WorldInv, CanDo, PairsOk, Enabled, Safe, Inv, Pickup, ServerVisit, Tables, Conn, StepPair, Do, Drain, ZeroSize, Trues,
           Receiver.RecvTable.Valid;
      TurnFacts(world, clt, polled, io0, regionSize);
      TurnIs(world, clt, polled, io0, regionSize);
      ConnFields(clt);
      ghost var w1 := StepPair(world, clt, Visit(polled), io0, regionSize);
      var finished := ServeClient(clt, polled, w1);
      if !finished {
        DecodeRounds(io0);
      }
    }

    // The loop's test tells whether every client is finished.
    lemma CountTells()
      requires Agree()
      ensures forall c :: 0 <= c < clientNum ==> world.pairs[c].s.commDone == commDones[c]
      ensures commDoneCnt == clientNum <==> forall c :: 0 <= c < clientNum ==> world.pairs[c].s.commDone
      ensures commDoneCnt != clientNum ==> exists c :: 0 <= c < clientNum && !commDones[c]
    {
      hide NonEmpty, Receiver.RecvTable.Valid;
      TruesAll(commDones);
      assert forall c :: 0 <= c < clientNum ==> Conn(c).commDone == commDones[c];
    }

    /** When the loop ends and the clients had flushed all their calls, every round
        has been decoded. */
    lemma ExitDecodesAll(io0: Io, calls: nat)
      requires Agree() && WorldInv(world, io0, regionSize) && !AllWaiting(world.pairs) && commDoneCnt == clientNum
      requires forall c :: 0 <= c < clientNum ==> world.pairs[c].c.flushed == |world.pairs[c].c.packed| == calls
      ensures world.rounds == calls
    {
      hide NonEmpty, Receiver.RecvTable.Valid, WorldInv, Tables, Conn, AllWaiting, Trues;
      CountTells();
      Programs.NothingLeft(world, io0, regionSize, calls);
    }

    /** One iteration of the server loop: the next unfinished client is served, and
        tables, queues, handlers and counters move as the protocol and the rounds say.
        A client that is done, and no other, is marked finished and counted. */
    method Iterate(clt: nat, polled: bool, ghost io0: Io) returns (next: nat)
      requires Agree() && WorldInv(world, io0, regionSize) && !world.io.failed
      requires clt < clientNum && commDoneCnt != clientNum
      modifies this, handlers, recv, recv.queues, recv.Buffers(), recv.Datas()
      ensures next < clientNum && CanDo(old(world), ServerTurn(next, polled), regionSize)
      ensures Agree() && world == Do(old(world), ServerTurn(next, polled), io0, regionSize)
      ensures commDoneCnt == old(commDoneCnt) + if old(world).pairs[next].c.pc.Done? then 1 else 0
      ensures commDones == if old(world).pairs[next].c.pc.Done? then old(commDones)[next := true] else old(commDones)
    {
      hide WorldInv, PairsOk, Tables, Conn, Do, Safe, Trues, NonEmpty;
      WorldPairs(world, io0, regionSize);
      CountTells();
      ghost var some :| 0 <= some < clientNum && !commDones[some];
      next := NextClient(clt, some);
      Turn(next, polled, io0);
    }

    /** Once the clients are done the loop ends, within one iteration a client; no
        call is decoded and no handler runs any more. */
    method LeaveLoop(clt: nat, polled: bool, ghost io0: Io) returns (iterations: nat)
      requires Agree() && WorldInv(world, io0, regionSize) && !world.io.failed
      requires clt < clientNum && Exit.AllDone(world.pairs)
      modifies this, handlers, recv, recv.queues, recv.Buffers(), recv.Datas()
      ensures Agree() && commDoneCnt == clientNum && forall c :: 0 <= c < clientNum ==> commDones[c]
      ensures WorldInv(world, io0, regionSize) && Exit.OnlyFinished(old(world), world) && Exit.AllFinished(world.pairs)
      ensures handlers.Abs() == old(handlers.Abs())
      ensures iterations == clientNum - old(commDoneCnt)
    {
      hide WorldInv, Tables, Conn, Do, NonEmpty, CanDo, Receiver.RecvTable.Valid;
      var next: nat := clt;
      iterations := 0;
      ghost var w := world;
      while commDoneCnt != clientNum
        invariant Agree() && WorldInv(world, io0, regionSize) && next < clientNum
        invariant commDoneCnt == old(commDoneCnt) + iterations <= clientNum
        invariant Exit.AllDone(world.pairs) && Exit.OnlyFinished(w, world)
        decreases clientNum - commDoneCnt
      {
        ghost var before := world;
        next := Iterate(next, polled, io0);
        Exit.DoneStep(before, ServerTurn(next, polled), io0, regionSize);
        iterations := iterations + 1;
      }
      CountTells();
    }

    /** The next client, in cyclic order, that is not finished. */
    method NextClient(clt: nat, ghost some: nat) returns (next: nat)
      requires |commDones| == clientNum && clt < clientNum && some < clientNum && !commDones[some]
      ensures next < clientNum && !commDones[next]
      ensures exists k: nat :: 0 < k <= clientNum && next == Ahead(clt, k, clientNum)
                               && forall j: nat :: 0 < j < k ==> commDones[Ahead(clt, j, clientNum)]
    {
      next := clt;
      ghost var k: nat := 0;
      ghost var steps: nat := if some > clt then some - clt else some - clt + clientNum;
      assert Ahead(clt, steps, clientNum) == some;
      while true
        invariant k < steps && next == Ahead(clt, k, clientNum)
        invariant forall j: nat :: 0 < j <= k ==> commDones[Ahead(clt, j, clientNum)]
        decreases steps - k
      {
        ModCase(next + 1, clientNum);
        next := (next + 1) % clientNum;
        k := k + 1;
        if !commDones[next] {
          break;
        }
      }
      assert next == Ahead(clt, k, clientNum);
    }
  }

  // The client k places behind clt, in cyclic order.
  function Ahead(clt: nat, k: nat, n: nat): (c: nat)
    requires clt < n && k <= n
    ensures c < n
  {
    if clt + k < n then clt + k else clt + k - n
  }

  lemma DrainStep(w: World, io0: Io, region: nat)
    requires WorldInv(w, io0, region) && AllWaiting(w.pairs)
    ensures WorldInv(DecodeRound(w, io0, region), io0, region)
    ensures Drain(DecodeRound(w, io0, region), io0, region) == Drain(w, io0, region)
    ensures FirstQueue(DecodeRound(w, io0, region)) < FirstQueue(w)
  {
    hide WorldInv, AllWaiting, DecodeRound, FirstQueue;
    DrainRound(w, io0, region);
  }

  lemma DrainEnd(w: World, io0: Io, region: nat)
    requires WorldInv(w, io0, region) && !AllWaiting(w.pairs)
    ensures Drain(w, io0, region) == w
  {
    hide WorldInv, AllWaiting;
  }

  lemma ReadIsReady(p: Pair, region: nat)
    requires Inv(p, region)
    ensures var s := Pickup(p.s).1;
      !s.readDone && |s.region| < region ==> s.readAddr <= if LowerPart(s) then s.addr.free else s.addr.end
  {
    hide RecvQueue.Valid, RecvQueue.Queued, Flat, PcInv;
    PickupInv(p, region);
  }

  lemma WorldPairs(w: World, io0: Io, region: nat)
    requires WorldInv(w, io0, region)
    ensures PairsOk(w.pairs, w.rounds, region)
  {
  }

  // What a turn of the loop finds, and leaves in the region.
  lemma TurnFacts(w: World, clt: nat, polled: bool, io0: Io, region: nat)
    requires WorldInv(w, io0, region) && CanDo(w, ServerTurn(clt, polled), region)
    ensures clt < |w.pairs| && !w.pairs[clt].s.commDone && w.pairs[clt].s.recv.ring.Valid()
    ensures var s := Pickup(w.pairs[clt].s).1;
      !s.readDone && |s.region| < region ==> s.readAddr <= if LowerPart(s) then s.addr.free else s.addr.end
    ensures Enabled(w.pairs[clt], Visit(polled)) && Safe(w.pairs[clt], Visit(polled)) && Inv(w.pairs[clt], region)
    ensures !ZeroSize(ServerVisit(w.pairs[clt].s, region, polled).region)
    ensures Pickup(w.pairs[clt].s).0 <==> w.pairs[clt].c.pc.Done?
  {
    hide Talks, ServerRun, Sized, Reaches, ServerVisit, ClientInv, ServerInv, LinkInv;
    var p := w.pairs[clt];
    assert PairOk(p, w.rounds, region);
    ReadIsReady(p, region);
    VisitInv(p, region, polled);
    VisitFinishes(p, region, polled);
    NoZeroSize(p.(s := ServerVisit(p.s, region, polled)), region);
  }

  // What a turn is, on the protocol state.
  lemma TurnIs(w: World, clt: nat, polled: bool, io0: Io, region: nat)
    requires WorldInv(w, io0, region) && CanDo(w, ServerTurn(clt, polled), region)
    requires Inv(w.pairs[clt], region) && Enabled(w.pairs[clt], Visit(polled)) && Safe(w.pairs[clt], Visit(polled))
    ensures var w1 := StepPair(w, clt, Visit(polled), io0, region);
      && w1.pairs == w.pairs[clt := w.pairs[clt].(s := ServerVisit(w.pairs[clt].s, region, polled))] && w1.io == w.io
      && Do(w, ServerTurn(clt, polled), io0, region) == if Pickup(w.pairs[clt].s).0 then w1 else Drain(w1, io0, region)
  {
    hide Inv, WorldInv, ServerVisit, Drain, PairsOk, Pickup;
  }

  ghost function Servers(pairs: seq<Pair>): (s: seq<Server>)
    ensures |s| == |pairs|
  {
    seq(|pairs|, i requires 0 <= i < |pairs| => pairs[i].s)
  }

  // The client's next message is the call c, and taking it gives `after`.
  ghost predicate Served(before: Server, after: Server, c: Call) {
    && CanPop(before) && RecvQueue.Valid(before.recv) && RecvQueue.Queued(before.recv) != []
    && IsCall(RecvQueue.Queued(before.recv)[0]) && CallOf(RecvQueue.Queued(before.recv)[0]) == c
    && after == Popped(before)
  }

  // What one round does to every client, seen from its tables.
  lemma RoundFacts(w: World, io0: Io, region: nat)
    requires WorldInv(w, io0, region) && AllWaiting(w.pairs)
    ensures Sized(w.io, |w.pairs|) && PairsOk(w.pairs, w.rounds, region)
    ensures forall i :: 0 <= i < |w.pairs| ==>
      Served(w.pairs[i].s, DecodeRound(w, io0, region).pairs[i].s, Heads(w.pairs, w.rounds, region)[i])
    ensures DecodeRound(w, io0, region).io == Round(w.io, |w.pairs|, Heads(w.pairs, w.rounds, region), |w.pairs|)
    ensures Round(w.io, |w.pairs|, Heads(w.pairs, w.rounds, region), 0) == w.io
  {
    hide PairOk, Sized, ServerRun, Columns, Reaches, IsCall, CallOf, RecvQueue.Valid, RecvQueue.Queued, Popped, CanPop;
    forall i | 0 <= i < |w.pairs|
      ensures Served(w.pairs[i].s, DecodeRound(w, io0, region).pairs[i].s, Heads(w.pairs, w.rounds, region)[i])
    {
      HeadOf(w.pairs[i], w.rounds, region);
      DecodedIsPopped(w.pairs[i], w.rounds, region);
    }
  }

  // Matching calls on a quiet server have had the effect of one call.
  ghost predicate Performed(io: Io, io': Io, calls: seq<Call>) {
    Sized(io, |calls|) && RoundOk(io, |calls|, calls) && Quiet(io, |calls|) ==> io' == RoundSpec(io, |calls|, calls)
  }

  lemma RoundPerformed(io: Io, n: nat, calls: seq<Call>)
    requires Sized(io, n) && |calls| == n
    ensures Performed(io, Round(io, n, calls, n), calls)
  {
    if RoundOk(io, n, calls) && Quiet(io, n) { RoundCorrect(io, n, calls); }
    hide Sized, RoundOk, Quiet, Round, RoundSpec;
  }

  lemma RoundZero(io: Io, n: nat, calls: seq<Call>)
    requires Sized(io, n) && |calls| == n
    ensures Round(io, n, calls, 0) == io
  {
  }

  lemma RoundStep(io: Io, n: nat, calls: seq<Call>, i: nat)
    requires Sized(io, n) && |calls| == n && i < n
    ensures Sized(Round(io, n, calls, i), n)
    ensures Round(io, n, calls, i + 1) == Handle(Round(io, n, calls, i), n, i, calls[i])
  {
    hide Handle, Sized;
  }
}
