/** The server's receive side of one client: a ring of whole messages and the
    queue of descriptors into it. */
module RecvQueue {
  import opened Bytes
  import opened Rings

  // A queued message: where it starts in the ring, and its length.
  datatype Entry = Entry(addr: nat, size: nat)

  datatype Recv = Recv(ring: Ring, q: seq<Entry>)

  // Self-delimiting: the first eight bytes hold the length of the whole.
  ghost predicate Delimited(m: seq<Byte>) {
    |m| >= 12 && DecSize(m[..8]) == |m|
  }

  // ---------- layout ----------

  // The entries lie back to back from `at` to `to`.
  ghost predicate Chain(q: seq<Entry>, at: nat, to: nat) {
    if q == [] then at == to
    else q[0].addr == at && q[0].size > 0 && Chain(q[1..], at + q[0].size, to)
  }

  // Back to back from `at`, then, at one point of the queue, continuing at 0.
  ghost predicate WrappedChain(q: seq<Entry>, at: nat, to: nat, size: nat) {
    || Chain(q, 0, to)
    || (q != [] && q[0].addr == at && q[0].size > 0 && at + q[0].size <= size
        && WrappedChain(q[1..], at + q[0].size, to, size))
  }

  ghost predicate Tiles(q: seq<Entry>, r: Ring) {
    if r.used <= r.free then Chain(q, r.used, r.free)
    else WrappedChain(q, r.used, r.free, r.Size())
  }

  function Total(q: seq<Entry>): nat {
    if q == [] then 0 else q[0].size + Total(q[1..])
  }

  // After a tail skip, or a message that ended at the block's end, the
  // remaining upper part reaches far enough to leave room below it.
  ghost predicate RoomBelow(r: Recv) {
    r.ring.free == 0 && 0 < r.ring.used ==>
      r.ring.used + Total(r.q) == r.ring.Size() || 2 * (r.ring.used + Total(r.q)) >= r.ring.Size() + 3
  }

  ghost predicate InBlock(r: Recv) {
    forall i :: 0 <= i < |r.q| ==> r.q[i].addr + r.q[i].size <= r.ring.Size()
  }

  function Slice(r: Recv, i: nat): seq<Byte>
    requires i < |r.q| && r.q[i].addr + r.q[i].size <= r.ring.Size()
  {
    r.ring.mem[r.q[i].addr..r.q[i].addr + r.q[i].size]
  }

  // The queued messages, first to last.
  ghost function Queued(r: Recv): (ms: seq<seq<Byte>>)
    requires InBlock(r)
    ensures |ms| == |r.q|
  {
    seq(|r.q|, i requires 0 <= i < |r.q| => Slice(r, i))
  }

  ghost predicate Valid(r: Recv) {
    && r.ring.Valid() && Tiles(r.q, r.ring) && InBlock(r) && RoomBelow(r)
    && forall i :: 0 <= i < |r.q| ==> Delimited(Queued(r)[i])
  }

  // ---------- operations ----------

  // A memcpy at free_addr, use_buf, and a new descriptor at the tail.
  function Store(r: Recv, m: seq<Byte>): (r': Recv)
    requires r.ring.Valid() && Fits(r.ring, |m|)
  {
    Recv(UseBuf(r.ring.(mem := Splice(r.ring.mem, r.ring.free, m)), |m|), r.q + [Entry(r.ring.free, |m|)])
  }

  // cfio_recv_add_msg: an empty ring restarts at 0; a message that does not fit
  // leaves the (possibly skipped) ring without it.
  function AddMsg(r: Recv, m: seq<Byte>): (res: (bool, Recv))
    requires r.ring.Valid() && |m| > 0
    ensures res.1.ring.Valid()
  {
    var start := if r.ring.used == r.ring.free then Clear(r.ring) else r.ring;
    var (enough, ring) := IsFreeSpaceEnough(start, |m|);
    if !enough then (false, Recv(ring, r.q))
    else
      EnoughFits(start, |m|);
      (true, Store(Recv(ring, r.q), m))
  }

  // cfio_recv_get_first followed by unpacking the whole message.
  function Pop(r: Recv): (r': Recv)
    requires r.ring.Valid() && r.q != [] && r.q[0].addr < r.ring.Size() && r.q[0].size <= r.ring.Size()
  {
    Recv(FreeBuf(r.ring.(used := r.q[0].addr), r.q[0].size), r.q[1..])
  }

  lemma EnoughFits(r: Ring, n: nat)
    requires r.Valid() && n > 0 && IsFreeSpaceEnough(r, n).0
    ensures Fits(IsFreeSpaceEnough(r, n).1, n)
  {
  }

  // ---------- proofs ----------

  lemma {:induction false} ChainRange(q: seq<Entry>, at: nat, to: nat)
    requires Chain(q, at, to)
    ensures at <= to && to == at + Total(q)
    ensures forall i :: 0 <= i < |q| ==> at <= q[i].addr && q[i].size > 0 && q[i].addr + q[i].size <= to
  {
    if q != [] {
      ChainRange(q[1..], at + q[0].size, to);
      forall i | 0 <= i < |q| ensures at <= q[i].addr && q[i].size > 0 && q[i].addr + q[i].size <= to {
        if i > 0 { assert q[i] == q[1..][i - 1]; }
      }
    }
  }

  lemma {:induction false} WrappedRange(q: seq<Entry>, at: nat, to: nat, size: nat)
    requires WrappedChain(q, at, to, size)
    ensures forall i :: 0 <= i < |q| ==>
      q[i].size > 0 && ((at <= q[i].addr && q[i].addr + q[i].size <= size) || q[i].addr + q[i].size <= to)
  {
    if Chain(q, 0, to) {
      ChainRange(q, 0, to);
    } else {
      WrappedRange(q[1..], at + q[0].size, to, size);
      forall i | 0 <= i < |q|
        ensures q[i].size > 0 && ((at <= q[i].addr && q[i].addr + q[i].size <= size) || q[i].addr + q[i].size <= to)
      {
        if i > 0 { assert q[i] == q[1..][i - 1]; }
      }
    }
  }

  lemma {:induction false} ChainAppend(q: seq<Entry>, at: nat, to: nat, n: nat)
    requires Chain(q, at, to) && n > 0
    ensures Chain(q + [Entry(to, n)], at, to + n)
  {
    var q' := q + [Entry(to, n)];
    if q == [] {
      assert q'[1..] == [];
    } else {
      ChainAppend(q[1..], at + q[0].size, to, n);
      assert q'[1..] == q[1..] + [Entry(to, n)];
    }
  }

  lemma {:induction false} WrappedAppend(q: seq<Entry>, at: nat, to: nat, size: nat, n: nat)
    requires WrappedChain(q, at, to, size) && n > 0
    ensures WrappedChain(q + [Entry(to, n)], at, to + n, size)
  {
    if Chain(q, 0, to) {
      ChainAppend(q, 0, to, n);
    } else {
      WrappedAppend(q[1..], at + q[0].size, to, size, n);
      assert (q + [Entry(to, n)])[1..] == q[1..] + [Entry(to, n)];
    }
  }

  // A contiguous queue seen from a ring whose free_addr has moved to 0.
  lemma {:induction false} ChainWraps(q: seq<Entry>, at: nat, to: nat, size: nat)
    requires Chain(q, at, to) && to <= size
    ensures WrappedChain(q, at, 0, size)
  {
    if q != [] {
      ChainRange(q, at, to);
      ChainWraps(q[1..], at + q[0].size, to, size);
    }
  }

  lemma {:induction false} TotalAppend(q: seq<Entry>, e: Entry)
    ensures Total(q + [e]) == Total(q) + e.size
  {
    if q == [] {
      assert (q + [e])[1..] == [];
    } else {
      TotalAppend(q[1..], e);
      assert (q + [e])[1..] == q[1..] + [e];
    }
  }

  // Every queued byte lies in the used part of the ring.
  lemma EntriesInUse(r: Recv, i: nat)
    requires r.ring.Valid() && Tiles(r.q, r.ring) && i < |r.q|
    ensures r.q[i].size > 0
    ensures if r.ring.used <= r.ring.free
            then r.ring.used <= r.q[i].addr && r.q[i].addr + r.q[i].size <= r.ring.free
            else (r.ring.used <= r.q[i].addr && r.q[i].addr + r.q[i].size <= r.ring.Size())
                 || r.q[i].addr + r.q[i].size <= r.ring.free
  {
    if r.ring.used <= r.ring.free {
      ChainRange(r.q, r.ring.used, r.ring.free);
    } else {
      WrappedRange(r.q, r.ring.used, r.ring.free, r.ring.Size());
    }
  }

  // Restarting an empty ring changes no message.
  lemma RestartValid(r: Recv)
    requires Valid(r) && r.ring.used == r.ring.free
    ensures r.q == [] && Valid(Recv(Clear(r.ring), r.q))
  {
    ChainRange(r.q, r.ring.used, r.ring.free);
  }

  lemma SkipValid(r: Recv, n: nat)
    requires Valid(r) && 2 * n < r.ring.Size() && FreeSize(r.ring) >= n > LeftSpace(r.ring)
    ensures Valid(Recv(SkipTail(r.ring, n), r.q)) && Queued(Recv(SkipTail(r.ring, n), r.q)) == Queued(r)
  {
    ChainRange(r.q, r.ring.used, r.ring.free);
    ChainWraps(r.q, r.ring.used, r.ring.free, r.ring.Size());
    var r' := Recv(SkipTail(r.ring, n), r.q);
    assert r'.ring.mem == r.ring.mem;
    assert Queued(r') == Queued(r);
  }

  lemma StoreLayout(r: Recv, m: seq<Byte>)
    requires r.ring.Valid() && Tiles(r.q, r.ring) && InBlock(r) && Fits(r.ring, |m|) && |m| > 0
    ensures Tiles(Store(r, m).q, Store(r, m).ring) && InBlock(Store(r, m)) && RoomBelow(Store(r, m))
  {
    var n, q' := |m|, Store(r, m).q;
    TotalAppend(r.q, Entry(r.ring.free, n));
    if r.ring.used <= r.ring.free {
      ChainRange(r.q, r.ring.used, r.ring.free);
      ChainAppend(r.q, r.ring.used, r.ring.free, n);
      if r.ring.free + n == r.ring.Size() {
        ChainWraps(q', r.ring.used, r.ring.free + n, r.ring.Size());
      }
    } else {
      WrappedAppend(r.q, r.ring.used, r.ring.free, r.ring.Size(), n);
    }
  }

  lemma StoreValid(r: Recv, m: seq<Byte>)
    requires Valid(r) && Delimited(m) && Fits(r.ring, |m|)
    ensures Valid(Store(r, m)) && Queued(Store(r, m)) == Queued(r) + [m]
  {
    StoreLayout(r, m);
    var r' := Store(r, m);
    forall i | 0 <= i < |r.q| ensures r'.q[i] == r.q[i] && Slice(r', i) == Slice(r, i) {
      EntriesInUse(r, i);
      SpliceElsewhere(r.ring.mem, r.ring.free, m, r.q[i].addr, r.q[i].addr + r.q[i].size);
    }
    assert Queued(r') == Queued(r) + [m];
  }

  /** Adding keeps every queued message byte for byte and in order, and appends
      the new one unless the ring is full, which it never is on an empty queue. */
  lemma AddMsgCorrect(r: Recv, m: seq<Byte>)
    requires Valid(r) && Delimited(m) && 2 * |m| < r.ring.Size()
    ensures var (ok, r') := AddMsg(r, m);
      && Valid(r')
      && r'.ring.Size() == r.ring.Size()
      && Queued(r') == (if ok then Queued(r) + [m] else Queued(r))
      && (r.q == [] ==> ok)
  {
    var n := |m|;
    var start := if r.ring.used == r.ring.free then Clear(r.ring) else r.ring;
    var s := Recv(start, r.q);
    if r.ring.used == r.ring.free { RestartValid(r); }
    assert Queued(s) == Queued(r);
    if FreeSize(start) >= n {
      if n > LeftSpace(start) { SkipValid(s, n); }
      var skipped := Recv(SkipTail(start, n), r.q);
      assert Valid(skipped) && Queued(skipped) == Queued(r);
      if FreeSize(skipped.ring) >= n { StoreValid(skipped, m); }
    }
  }

  /** A message is taken exactly when the ring has that many free bytes in a row;
      an empty ring restarts, and takes all that is smaller than itself. */
  lemma AddMsgAcceptsIff(r: Recv, m: seq<Byte>)
    requires r.ring.Valid() && |m| > 0
    ensures r.ring.used != r.ring.free ==> (AddMsg(r, m).0 <==> exists at :: FreeRange(r.ring, at, |m|))
    ensures r.ring.used == r.ring.free ==> (AddMsg(r, m).0 <==> |m| < r.ring.Size())
  {
    EnoughIff(if r.ring.used == r.ring.free then Clear(r.ring) else r.ring, |m|);
    hide FreeRange;
  }

  lemma {:induction false} WrappedEnd(q: seq<Entry>, to: nat, size: nat)
    requires WrappedChain(q, size, to, size)
    ensures Chain(q, 0, to)
  {
  }

  lemma PopLayout(r: Recv)
    requires r.ring.Valid() && Tiles(r.q, r.ring) && InBlock(r) && RoomBelow(r) && r.q != []
    ensures r.q[0].addr < r.ring.Size() && 0 < r.q[0].size <= r.ring.Size()
    ensures CheckUsedAddr(r.ring, r.q[0].addr)
    ensures UsedSize(r.ring.(used := r.q[0].addr)) >= r.q[0].size
    ensures Tiles(Pop(r).q, Pop(r).ring) && RoomBelow(Pop(r))
  {
    EntriesInUse(r, 0);
    var e := r.q[0];
    if r.ring.used <= r.ring.free {
      ChainRange(r.q, r.ring.used, r.ring.free);
    } else if Chain(r.q, 0, r.ring.free) {
      ChainRange(r.q, 0, r.ring.free);
    } else if e.addr + e.size == r.ring.Size() {
      WrappedEnd(r.q[1..], r.ring.free, r.ring.Size());
    }
  }

  /** Taking the first message: its address passes the in-use assertion, what is
      read there is the first queued message, and the rest stays queued. */
  lemma PopCorrect(r: Recv)
    requires Valid(r) && r.q != []
    ensures r.q[0].addr < r.ring.Size() && CheckUsedAddr(r.ring, r.q[0].addr)
    ensures |Slice(r, 0)| == r.q[0].size >= 12 && DecSize(Slice(r, 0)[..8]) == r.q[0].size
    ensures UsedSize(r.ring.(used := r.q[0].addr)) >= r.q[0].size
    ensures Valid(Pop(r)) && |Queued(r)| > 0 && Queued(r)[0] == Slice(r, 0) && Queued(Pop(r)) == Queued(r)[1..]
  {
    PopLayout(r);
    assert Delimited(Queued(r)[0]);
    var r' := Pop(r);
    assert forall i :: 0 <= i < |r'.q| ==> r'.q[i] == r.q[i + 1];
    forall i | 0 <= i < |r'.q| ensures Slice(r', i) == Queued(r)[i + 1] {
      assert Slice(r', i) == Slice(r, i + 1);
    }
    assert Queued(r') == Queued(r)[1..];
  }
}
