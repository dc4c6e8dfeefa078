/** The server's ring and queue of one client as an object: adding, taking and
    unpacking messages in place. */
module Receiver {
  import opened Bytes
  import opened Wire
  import opened Rings
  import opened RecvQueue

  // ---------- a message being read ----------

  // `m` starts at used_addr of ring r and lies in its used part.
  ghost predicate Holds(r: Ring, m: seq<Byte>) {
    r.Valid() && r.used + |m| <= r.Size() && |m| <= UsedSize(r) && r.mem[r.used..r.used + |m|] == m
  }

  // Reading n more bytes after the first k.
  lemma ReadOn(r: Ring, m: seq<Byte>, k: nat, n: nat)
    requires Holds(r, m) && k + n <= |m|
    ensures n > 0 ==> FreeBuf(r, k).used + n <= r.Size() && r.mem[FreeBuf(r, k).used..FreeBuf(r, k).used + n] == m[k..k + n]
    ensures n == 0 || n <= UsedSize(FreeBuf(r, k))
    ensures FreeBuf(FreeBuf(r, k), n) == FreeBuf(r, k + n)
  {
    if n > 0 {
      assert m[k..k + n] == r.mem[r.used..r.used + |m|][k..k + n];
      assert r.mem[r.used..r.used + |m|][k..k + n] == r.mem[r.used + k..r.used + k + n];
    }
  }

  class CfioRecv {
    const buffer: CfioBuf
    var q: seq<Entry>

    ghost function Abs(): Recv
      reads this, buffer, buffer.data
    {
      Recv(buffer.Abs(), q)
    }

    constructor (size: nat)
      requires size > 0
      ensures fresh(buffer) && fresh(buffer.data) && RecvQueue.Valid(Abs()) && q == [] && buffer.data.Length == size
      ensures Abs() == Recv(Ring(buffer.data[..], 0, 0, 0), [])
    {
      buffer := new CfioBuf(size);
      q := [];
    }

    method AddMsg(b: seq<Byte>) returns (ok: bool)
      requires buffer.Valid() && |b| > 0
      modifies this, buffer, buffer.data
      ensures (ok, Abs()) == RecvQueue.AddMsg(old(Abs()), b)
    {
      if buffer.used == buffer.free {
        buffer.ClearBuf();
      }
      ghost var start := buffer.Abs();
      ok := buffer.IsEnough(|b|);
      if ok {
        EnoughFits(start, |b|);
        Memcpy(buffer.data, buffer.free, b);
        q := q + [Entry(buffer.free, |b|)];
        buffer.Use(|b|);
      }
    }

    // ---------- unpacking ----------

    ghost predicate Reading(r: Ring, m: seq<Byte>, k: nat)
      reads this, buffer, buffer.data
    {
      Holds(r, m) && k <= |m| && buffer.Abs() == FreeBuf(r, k)
    }

    method UnpackData(n: nat, ghost r: Ring, ghost m: seq<Byte>, ghost k: nat) returns (b: seq<Byte>)
      requires Reading(r, m, k) && k + n <= |m|
      modifies buffer
      ensures Reading(r, m, k + n) && b == m[k..k + n]
    {
      ReadOn(r, m, k, n);
      b := buffer.UnpackData(n);
    }

    method UnpackInt(ghost r: Ring, ghost m: seq<Byte>, ghost k: nat) returns (v: Int32)
      requires Reading(r, m, k) && TakeInt(m[k..]).Some?
      modifies buffer
      ensures Reading(r, m, k + 4) && TakeInt(m[k..]) == Some((v, m[k + 4..]))
    {
      var b := UnpackData(4, r, m, k);
      v := DecInt(b);
      assert m[k..][..4] == b && m[k..][4..] == m[k + 4..];
    }

    method UnpackSize(ghost r: Ring, ghost m: seq<Byte>, ghost k: nat) returns (v: SizeT)
      requires Reading(r, m, k) && TakeSize(m[k..]).Some?
      modifies buffer
      ensures Reading(r, m, k + 8) && TakeSize(m[k..]) == Some((v, m[k + 8..]))
    {
      var b := UnpackData(8, r, m, k);
      v := DecSize(b);
      assert m[k..][..8] == b && m[k..][8..] == m[k + 8..];
    }

    method UnpackDataArray(size: nat, ghost r: Ring, ghost m: seq<Byte>, ghost k: nat) returns (b: seq<Byte>, ghost next: nat)
      requires Reading(r, m, k) && TakeArray(m[k..], size).Some?
      modifies buffer
      ensures Reading(r, m, next) && TakeArray(m[k..], size) == Some((b, m[next..]))
    {
      var len := UnpackInt(r, m, k);
      next := k + 4 + len * size;
      assert m[k + 4..][..len * size] == m[k + 4..next] && m[k + 4..][len * size..] == m[next..];
      if len == 0 {
        b := [];
      } else {
        b := UnpackData(len * size, r, m, k + 4);
      }
    }
  
    method UnpackStr(ghost r: Ring, ghost m: seq<Byte>, ghost k: nat) returns (s: seq<Byte>, ghost next: nat)
      requires Reading(r, m, k) && TakeStr(m[k..]).Some?
      modifies buffer
      ensures Reading(r, m, next) && TakeStr(m[k..]) == Some((s, m[next..]))
    {
      var b;
      b, next := UnpackDataArray(1, r, m, k);
      s := UpToNul(b);
    }

    method UnpackInts(ghost r: Ring, ghost m: seq<Byte>, ghost k: nat) returns (s: seq<Int32>, ghost next: nat)
      requires Reading(r, m, k) && TakeInts(m[k..]).Some?
      modifies buffer
      ensures Reading(r, m, next) && TakeInts(m[k..]) == Some((s, m[next..]))
    {
      var b;
      b, next := UnpackDataArray(4, r, m, k);
      s := DecInts(b);
    }

    method UnpackSizes(ghost r: Ring, ghost m: seq<Byte>, ghost k: nat) returns (s: seq<SizeT>, ghost next: nat)
      requires Reading(r, m, k) && TakeSizes(m[k..]).Some?
      modifies buffer
      ensures Reading(r, m, next) && TakeSizes(m[k..]) == Some((s, m[next..]))
    {
      var b;
      b, next := UnpackDataArray(8, r, m, k);
      s := DecSizes(b);
    }

    // A type code, then an array whose element size depends on it.
    method UnpackTyped(ghost r: Ring, ghost m: seq<Byte>, ghost k: nat) returns (t: Int32, data: seq<Byte>, ghost next: nat)
      requires Reading(r, m, k) && TakeTyped(m[k..]).Some?
      modifies buffer
      ensures Reading(r, m, next) && TakeTyped(m[k..]) == Some(((t, data), m[next..]))
    {
      t := UnpackInt(r, m, k);
      data, next := UnpackDataArray(TypeSize(t), r, m, k + 4);
    }

    method UnpackCreate(ghost r: Ring, ghost m: seq<Byte>, ghost k: nat) returns (c: Call, ghost next: nat)
      requires Reading(r, m, k) && Wire.UnpackCreate(m[k..]).Some?
      modifies buffer
      ensures Reading(r, m, next) && Wire.UnpackCreate(m[k..]) == Some((c, m[next..]))
    {
      hide Reading, TakeStr, TakeInt;
      var path;
      path, next := UnpackStr(r, m, k);
      var cmode := UnpackInt(r, m, next);
      var ncid := UnpackInt(r, m, next + 4);
      next := next + 8;
      c := Create(path, cmode, ncid);
    }

    method UnpackDefDim(ghost r: Ring, ghost m: seq<Byte>, ghost k: nat) returns (c: Call, ghost next: nat)
      requires Reading(r, m, k) && Wire.UnpackDefDim(m[k..]).Some?
      modifies buffer
      ensures Reading(r, m, next) && Wire.UnpackDefDim(m[k..]) == Some((c, m[next..]))
    {
      hide Reading, TakeStr, TakeInt, TakeSize;
      var ncid := UnpackInt(r, m, k);
      var name;
      name, next := UnpackStr(r, m, k + 4);
      var len := UnpackSize(r, m, next);
      var dimid := UnpackInt(r, m, next + 8);
      next := next + 12;
      c := DefDim(ncid, name, len, dimid);
    }

    method UnpackDefVar(ghost r: Ring, ghost m: seq<Byte>, ghost k: nat) returns (c: Call, ghost next: nat)
      requires Reading(r, m, k) && Wire.UnpackDefVar(m[k..]).Some?
      modifies buffer
      ensures Reading(r, m, next) && Wire.UnpackDefVar(m[k..]) == Some((c, m[next..]))
    {
      hide Reading, TakeStr, TakeInt, TakeInts;
      var ncid := UnpackInt(r, m, k);
      var name;
      name, next := UnpackStr(r, m, k + 4);
      var xtype := UnpackInt(r, m, next);
      var ndims := UnpackInt(r, m, next + 4);
      next := next + 8;
      var dimids := [];
      if ndims != 0 {
        dimids, next := UnpackInts(r, m, next);
      }
      var varid := UnpackInt(r, m, next);
      next := next + 4;
      c := DefVar(ncid, name, xtype, dimids, varid);
    }

    method UnpackPutAtt(ghost r: Ring, ghost m: seq<Byte>, ghost k: nat) returns (c: Call, ghost next: nat)
      requires Reading(r, m, k) && Wire.UnpackPutAtt(m[k..]).Some?
      modifies buffer
      ensures Reading(r, m, next) && Wire.UnpackPutAtt(m[k..]) == Some((c, m[next..]))
    {
      hide Reading, TakeStr, TakeInt, TakeTyped;
      var ncid := UnpackInt(r, m, k);
      var varid := UnpackInt(r, m, k + 4);
      var name, xtype, data;
      name, next := UnpackStr(r, m, k + 8);
      xtype, data, next := UnpackTyped(r, m, next);
      c := PutAtt(ncid, varid, name, xtype, data);
    }

    method UnpackPutVara(ghost r: Ring, ghost m: seq<Byte>, ghost k: nat) returns (c: Call, ghost next: nat)
      requires Reading(r, m, k) && Wire.UnpackPutVara(m[k..]).Some?
      modifies buffer
      ensures Reading(r, m, next) && Wire.UnpackPutVara(m[k..]) == Some((c, m[next..]))
    {
      hide Reading, TakeInt, TakeSizes, TakeTyped;
      var ncid := UnpackInt(r, m, k);
      var varid := UnpackInt(r, m, k + 4);
      var start, count, fpType, data;
      start, next := UnpackSizes(r, m, k + 8);
      count, next := UnpackSizes(r, m, next);
      fpType, data, next := UnpackTyped(r, m, next);
      c := PutVara(ncid, varid, start, count, fpType, data);
    }

    // The decode switch of the server.
    method UnpackBody(code: Int32, ghost r: Ring, ghost m: seq<Byte>, ghost k: nat) returns (c: Call, ghost next: nat)
      requires Reading(r, m, k) && Wire.UnpackBody(code, m[k..]).Some?
      modifies buffer
      ensures Reading(r, m, next) && Wire.UnpackBody(code, m[k..]) == Some((c, m[next..]))
    {
      hide Reading, TakeInt, Wire.UnpackCreate, Wire.UnpackDefDim, Wire.UnpackDefVar, Wire.UnpackPutAtt, Wire.UnpackPutVara;
      if code == FUNC_NC_CREATE { c, next := UnpackCreate(r, m, k); }
      else if code == FUNC_NC_DEF_DIM { c, next := UnpackDefDim(r, m, k); }
      else if code == FUNC_NC_DEF_VAR { c, next := UnpackDefVar(r, m, k); }
      else if code == FUNC_PUT_ATT { c, next := UnpackPutAtt(r, m, k); }
      else if code == FUNC_NC_ENDDEF {
        var ncid := UnpackInt(r, m, k);
        c, next := EndDef(ncid), k + 4;
      }
      else if code == FUNC_NC_PUT_VARA { c, next := UnpackPutVara(r, m, k); }
      else {
        var ncid := UnpackInt(r, m, k);
        c, next := Close(ncid), k + 4;
      }
    }

    // ---------- the first message ----------

    /** get_first: the in-use assertion holds, the size read from the ring is the
        descriptor's, and reading goes on behind it. */
    method GetFirst() returns (found: bool, ghost r: Ring, ghost m: seq<Byte>)
      requires RecvQueue.Valid(Abs())
      modifies this, buffer
      ensures found <==> old(q) != []
      ensures !found ==> Abs() == old(Abs())
      ensures found ==> m == old(Queued(Abs())[0]) && Reading(r, m, 8) && q == old(q)[1..]
                        && FreeBuf(r, |m|) == old(Pop(Abs())).ring
    {
      found := q != [];
      r, m := buffer.Abs(), [];
      if found {
        PopCorrect(Abs());
        var msg := q[0];
        var inUse := buffer.CheckUsed(msg.addr);
        assert inUse;
        m := Slice(Abs(), 0);
        buffer.used := msg.addr;
        r := buffer.Abs();
        var size := UnpackSize(r, m, 0);
        // One message per descriptor: the splitting branch of the source is never taken.
        assert m[0..] == m;
        assert size == msg.size;
        q := q[1..];
      }
    }

    /** Decoding the first message of the queue: it is returned as the client
        packed it, its bytes are released, and the rest of the queue stays. */
    method Decode() returns (c: Call)
      requires RecvQueue.Valid(Abs()) && q != []
      requires Unpack(Queued(Abs())[0]).Some? && Unpack(Queued(Abs())[0]).value.1 == []
      modifies this, buffer
      ensures Unpack(old(Queued(Abs())[0])) == Some((c, [])) && Abs() == old(Pop(Abs()))
      ensures RecvQueue.Valid(Abs()) && Queued(Abs()) == old(Queued(Abs()))[1..]
    {
      PopCorrect(Abs());
      ghost var all := Abs();
      var found;
      ghost var r, m;
      found, r, m := GetFirst();
      var code := UnpackInt(r, m, 8);
      ghost var k;
      c, k := UnpackBody(code, r, m, 12);
      assert m[k..] == [];
    }
  }

  lemma FirstMessage(r: Recv)
    requires RecvQueue.Valid(r) && r.q != []
    ensures r.ring.Valid() && r.q[0].addr < r.ring.Size() && r.q[0].addr + r.q[0].size <= r.ring.Size()
    ensures InBlock(r) && Queued(r) != []
    ensures Queued(r)[0] == r.ring.mem[r.q[0].addr..r.q[0].addr + r.q[0].size]
    ensures Pop(r).ring.Valid() && Pop(r).q == r.q[1..]
  {
    PopCorrect(r);
  }

  // ---------- all clients ----------

  // The receive side of every client, and whose turn it is.
  class RecvTable {
    const queues: seq<CfioRecv>
    var clientGetIndex: nat
    // What the queues hold, as values.
    ghost var recvs: seq<Recv>

    ghost function Buffers(): (b: seq<CfioBuf>) { seq(|queues|, c requires 0 <= c < |queues| => queues[c].buffer) }

    ghost function Datas(): (d: seq<array<Byte>>) { seq(|queues|, c requires 0 <= c < |queues| => queues[c].buffer.data) }

    // The queues share nothing.
    ghost predicate Separate() {
      forall c, d :: 0 <= c < d < |queues| ==>
        queues[c] != queues[d] && queues[c].buffer != queues[d].buffer && queues[c].buffer.data != queues[d].buffer.data
    }

    ghost predicate Valid()
      reads this, queues, Buffers(), Datas()
    {
      && |recvs| == |queues| && clientGetIndex < |queues| && Separate()
      && forall c :: 0 <= c < |queues| ==> queues[c].buffer in Buffers() && queues[c].buffer.data in Datas() && queues[c].Abs() == recvs[c]
    }

    constructor (n: nat, size: nat)
      requires n > 0 && size > 0
      ensures Valid() && |queues| == n && clientGetIndex == 0
      ensures fresh(queues) && fresh(Buffers()) && fresh(Datas())
      ensures forall c :: 0 <= c < n ==> |recvs[c].ring.mem| == size && recvs[c] == Recv(Ring(recvs[c].ring.mem, 0, 0, 0), [])
    {
      var qs: seq<CfioRecv> := [];
      ghost var held: seq<Recv> := [];
      for i := 0 to n
        invariant |qs| == |held| == i && fresh(qs)
        invariant forall c :: 0 <= c < i ==> fresh(qs[c].buffer) && fresh(qs[c].buffer.data)
        invariant forall c :: 0 <= c < i ==> qs[c].Abs() == held[c]
        invariant forall c :: 0 <= c < i ==> |held[c].ring.mem| == size && held[c] == Recv(Ring(held[c].ring.mem, 0, 0, 0), [])
        invariant forall c, d :: 0 <= c < d < i ==>
          qs[c] != qs[d] && qs[c].buffer != qs[d].buffer && qs[c].buffer.data != qs[d].buffer.data
      {
        var q := new CfioRecv(size);
        qs, held := qs + [q], held + [q.Abs()];
      }
      queues, recvs, clientGetIndex := qs, held, 0;
      new;
      assert forall c :: 0 <= c < n ==> Buffers()[c] == queues[c].buffer && Datas()[c] == queues[c].buffer.data;
    }

    method AddMsg(c: nat, msg: seq<Byte>) returns (ok: bool)
      requires Valid() && c < |queues| && recvs[c].ring.Valid() && |msg| > 0
      modifies this`recvs, queues, Buffers(), Datas()
      ensures Valid() && recvs == old(recvs)[c := recvs[c]]
      ensures (ok, recvs[c]) == RecvQueue.AddMsg(old(recvs[c]), msg)
    {
      hide RecvQueue.AddMsg;
      ok := queues[c].AddMsg(msg);
      recvs := recvs[c := queues[c].Abs()];
    }

    /** The first message of the client whose turn it is, as a call; the turn moves on. */
    method GetFirst() returns (call: Call)
      requires Valid() && RecvQueue.Valid(recvs[clientGetIndex]) && recvs[clientGetIndex].q != []
      requires Unpack(Queued(recvs[clientGetIndex])[0]).Some? && Unpack(Queued(recvs[clientGetIndex])[0]).value.1 == []
      modifies this, queues, Buffers(), Datas()
      ensures Valid() && clientGetIndex == (old(clientGetIndex) + 1) % |queues|
      ensures var i := old(clientGetIndex); var r := old(recvs)[i];
        && r.ring.Valid() && r.q[0].addr < r.ring.Size() && r.q[0].size <= r.ring.Size()
        && recvs == old(recvs)[i := Pop(r)] && Unpack(Queued(r)[0]) == Some((call, []))
    {
      hide RecvQueue.Valid, Queued, Pop, Unpack;
      var i := clientGetIndex;
      FirstMessage(recvs[i]);
      call := queues[i].Decode();
      recvs := recvs[i := queues[i].Abs()];
      clientGetIndex := (clientGetIndex + 1) % |queues|;
    }
  }
}
