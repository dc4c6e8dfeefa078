/** Merging the boxes of all clients of a server into one array. */
module Merge {
  import opened Bytes
  import opened Boxes

  // A client's slot of a variable: what cfio_id_put_var stored there.
  datatype Slot = Empty | Full(box: Box, buf: seq<Byte>)

  // ---------- hull ----------

  function Min(a: nat, b: nat): nat { if a < b then a else b }
  function Max(a: nat, b: nat): nat { if a > b then a else b }

  // The smallest box around two boxes of equal rank.
  function Join(a: Box, b: Box): (r: Box)
    requires |a.start| == |a.count| == |b.start| == |b.count|
  {
    var start := seq(|a.start|, i requires 0 <= i < |a.start| => Min(a.start[i], b.start[i]));
    Box(start, seq(|a.start|, i requires 0 <= i < |a.start| =>
      Max(a.start[i] + a.count[i], b.start[i] + b.count[i]) - Min(a.start[i], b.start[i])))
  }

  predicate SameRank(boxes: seq<Box>, ndims: nat) {
    forall i :: 0 <= i < |boxes| ==> boxes[i].Valid() && |boxes[i].start| == ndims
  }

  function Hull(boxes: seq<Box>, ghost ndims: nat): (h: Box)
    requires boxes != [] && SameRank(boxes, ndims)
    ensures h.Valid() && |h.start| == ndims
  {
    var last := |boxes| - 1;
    if last == 0 then boxes[0] else Join(Hull(boxes[..last], ndims), boxes[last])
  }

  /** The hull holds every client's box, and every box that does so holds the hull. */
  lemma {:induction false} HullIsLeast(boxes: seq<Box>, ndims: nat)
    requires boxes != [] && SameRank(boxes, ndims)
    ensures forall i :: 0 <= i < |boxes| ==> Inside(boxes[i], Hull(boxes, ndims))
    ensures forall h: Box :: (forall i :: 0 <= i < |boxes| ==> Inside(boxes[i], h)) ==> Inside(Hull(boxes, ndims), h)
  {
    var last := |boxes| - 1;
    if last > 0 {
      var front := boxes[..last];
      HullIsLeast(front, ndims);
      JoinIsLeast(Hull(front, ndims), boxes[last]);
      assert Hull(boxes, ndims) == Join(Hull(front, ndims), boxes[last]);
      hide Hull, Join, Inside;
      forall i | 0 <= i < |boxes| ensures Inside(boxes[i], Hull(boxes, ndims)) {
        if i < last { assert Inside(front[i], Hull(front, ndims)); }
      }
      forall h: Box | forall i :: 0 <= i < |boxes| ==> Inside(boxes[i], h)
        ensures Inside(Hull(boxes, ndims), h)
      {
        forall i | 0 <= i < |front| ensures Inside(front[i], h) {
          assert Inside(boxes[i], h);
        }
        assert Inside(boxes[last], h);
      }
    }
  }

  lemma JoinIsLeast(a: Box, b: Box)
    requires a.Valid() && b.Valid() && |a.start| == |b.start|
    ensures Inside(a, Join(a, b)) && Inside(b, Join(a, b))
    ensures forall c: Box :: Inside(c, a) || Inside(c, b) ==> Inside(c, Join(a, b))
    ensures forall h: Box :: Inside(a, h) && Inside(b, h) ==> Inside(Join(a, b), h)
  {
    var j := Join(a, b);
    assert Inside(a, j) && Inside(b, j);
    forall c: Box | Inside(c, a) || Inside(c, b) ensures Inside(c, j) {
      if Inside(c, a) { InsideTrans(c, a, j); } else { InsideTrans(c, b, j); }
    }
  }

  lemma InsideTrans(a: Box, b: Box, c: Box)
    requires Inside(a, b) && Inside(b, c)
    ensures Inside(a, c)
  {
  }

  method UpdateStartAndCount(curStart: array<nat>, curCount: array<nat>, b: Box)
    requires curStart != curCount && b.Valid()
    requires curStart.Length == curCount.Length == |b.start|
    modifies curStart, curCount
    ensures Box(curStart[..], curCount[..]) == Join(Box(old(curStart[..]), old(curCount[..])), b)
  {
    ghost var a := Box(curStart[..], curCount[..]);
    ghost var j := Join(a, b);
    for i := 0 to curStart.Length
      invariant curStart[..i] == j.start[..i] && curCount[..i] == j.count[..i]
      invariant curStart[i..] == a.start[i..] && curCount[i..] == a.count[i..]
    {
      assert curStart[i] == a.start[i..][0] && curCount[i] == a.count[i..][0];
      var minStart := if curStart[i] < b.start[i] then curStart[i] else b.start[i];
      var maxEnd := if curStart[i] + curCount[i] > b.start[i] + b.count[i]
                    then curStart[i] + curCount[i] else b.start[i] + b.count[i];
      curStart[i] := minStart;
      curCount[i] := maxEnd - minStart;
    }
    assert curStart[..] == curStart[..curStart.Length] && curCount[..] == curCount[..curStart.Length];
  }

  // ---------- overlay ----------

  // The last of the first n clients whose box holds the global index g.
  ghost function LastCover(boxes: seq<Box>, g: seq<nat>, n: nat): (c: Option<nat>)
    requires n <= |boxes|
    ensures c.None? ==> forall i :: 0 <= i < n ==> !Contains(boxes[i], g)
    ensures c.Some? ==> c.value < n && Contains(boxes[c.value], g)
    ensures c.Some? ==> forall i :: c.value < i < n ==> !Contains(boxes[i], g)
  {
    if n == 0 then None
    else if Contains(boxes[n - 1], g) then Some(n - 1)
    else LastCover(boxes, g, n - 1)
  }

  predicate Payloads(boxes: seq<Box>, bufs: seq<seq<Byte>>, ele: nat) {
    && |boxes| == |bufs|
    && forall i :: 0 <= i < |boxes| ==> boxes[i].Valid() && |bufs[i]| >= boxes[i].Cells() * ele
  }

  // What the merge says about cell o: the payload byte group of its last
  // writer, or nothing when no client covers the cell.
  ghost function Expected(hull: Box, boxes: seq<Box>, bufs: seq<seq<Byte>>, ele: nat, n: nat, o: nat): (c: Option<seq<Byte>>)
    requires Payloads(boxes, bufs, ele) && hull.Valid() && o < hull.Cells() && n <= |boxes|
  {
    var g := Global(hull, o);
    match LastCover(boxes, g, n)
    case None => None
    case Some(i) =>
      ContainedGlobal(boxes[i], g);
      CellFits(Offset(boxes[i], g), boxes[i].Cells(), ele);
      Some(Cell(bufs[i], Offset(boxes[i], g), ele))
  }

  ghost predicate CellMerged(data: seq<Byte>, hull: Box, boxes: seq<Box>, bufs: seq<seq<Byte>>, ele: nat, n: nat, o: nat)
    requires Payloads(boxes, bufs, ele) && hull.Valid() && o < hull.Cells() && n <= |boxes|
  {
    var c := Expected(hull, boxes, bufs, ele, n, o);
    c.Some? ==> CellIs(data, o, ele, c.value)
  }

  /** `data` holds, in row-major order of the hull, the last-writer-wins overlay
      of the first n clients. */
  ghost predicate Merged(data: seq<Byte>, hull: Box, boxes: seq<Box>, bufs: seq<seq<Byte>>, ele: nat, n: nat) {
    && Payloads(boxes, bufs, ele) && hull.Valid() && n <= |boxes|
    && |data| == hull.Cells() * ele
    && forall o: nat :: o < hull.Cells() ==> CellMerged(data, hull, boxes, bufs, ele, n, o)
  }

  lemma OverlayStep(before: seq<Byte>, after: seq<Byte>, hull: Box, boxes: seq<Box>, bufs: seq<seq<Byte>>, ele: nat, n: nat)
    requires Merged(before, hull, boxes, bufs, ele, n) && n < |boxes|
    requires Assigned(before, after, ele, hull, boxes[n], bufs[n])
    ensures Merged(after, hull, boxes, bufs, ele, n + 1)
  {
    var m := n + 1;
    forall o: nat | o < hull.Cells()
      ensures CellMerged(after, hull, boxes, bufs, ele, m, o)
    {
      assert CellMerged(before, hull, boxes, bufs, ele, n, o);
      assert CellAssigned(before, after, ele, hull, boxes[n], bufs[n], o);
    }
  }

  function BoxesOf(slots: seq<Slot>): seq<Box>
    requires forall i :: 0 <= i < |slots| ==> slots[i].Full?
  {
    seq(|slots|, i requires 0 <= i < |slots| => slots[i].box)
  }

  function BufsOf(slots: seq<Slot>): seq<seq<Byte>>
    requires forall i :: 0 <= i < |slots| ==> slots[i].Full?
  {
    seq(|slots|, i requires 0 <= i < |slots| => slots[i].buf)
  }

  predicate Ready(slots: seq<Slot>, ndims: nat, ele: nat) {
    && slots != []
    && (forall i :: 0 <= i < |slots| ==> slots[i].Full?)
    && SameRank(BoxesOf(slots), ndims)
    && Payloads(BoxesOf(slots), BufsOf(slots), ele)
  }

  method HullOfSlots(ndims: nat, recvData: array<Slot>, start: array<nat>, count: array<nat>, ghost ele: nat)
    requires Ready(recvData[..], ndims, ele)
    requires start != count && start.Length == count.Length == ndims
    modifies start, count
    ensures Box(start[..], count[..]) == Hull(BoxesOf(recvData[..]), ndims)
  {
    ghost var boxes := BoxesOf(recvData[..]);
    assert boxes[0] == recvData[0].box;
    for i := 0 to ndims
      invariant start[..i] == boxes[0].start[..i] && count[..i] == boxes[0].count[..i]
    {
      start[i] := recvData[0].box.start[i];
      count[i] := recvData[0].box.count[i];
    }
    assert start[..] == start[..ndims] && count[..] == count[..ndims];
    assert boxes[..1] == [boxes[0]];
    for i := 1 to recvData.Length
      invariant Box(start[..], count[..]) == Hull(boxes[..i], ndims)
    {
      assert boxes[..i + 1][..i] == boxes[..i] && boxes[i] == recvData[i].box;
      UpdateStartAndCount(start, count, recvData[i].box);
    }
    assert boxes[..recvData.Length] == boxes;
  }

  method OverlaySlots(ghost ndims: nat, ele: nat, hull: Box, data: array<Byte>, recvData: array<Slot>)
    requires Ready(recvData[..], ndims, ele)
    requires hull == Hull(BoxesOf(recvData[..]), ndims) && data.Length == hull.Cells() * ele
    modifies data, recvData
    ensures Merged(data[..], hull, BoxesOf(old(recvData[..])), BufsOf(old(recvData[..])), ele, recvData.Length)
    ensures forall i :: 0 <= i < recvData.Length ==> recvData[i] == Empty
  {
    ghost var slots := recvData[..];
    ghost var boxes, bufs := BoxesOf(slots), BufsOf(slots);
    HullIsLeast(boxes, ndims);
    for i := 0 to recvData.Length
      invariant forall j :: i <= j < recvData.Length ==> recvData[j] == slots[j]
      invariant forall j :: 0 <= j < i ==> recvData[j] == Empty
      invariant Merged(data[..], hull, boxes, bufs, ele, i)
    {
      ghost var before := data[..];
      assert boxes[i] == recvData[i].box && Inside(boxes[i], hull);
      PutVar(ele, hull, data, recvData[i].box, recvData[i].buf);
      OverlayStep(before, data[..], hull, boxes, bufs, ele, i);
      recvData[i] := Empty;
    }
  }

  /** Computes the hull in place, overlays every client's payload, empties the slots. */
  method MergeVarData(ndims: nat, ele: nat, recvData: array<Slot>, start: array<nat>, count: array<nat>)
    returns (data: array<Byte>)
    requires Ready(recvData[..], ndims, ele)
    requires start != count && start.Length == count.Length == ndims
    modifies start, count, recvData
    ensures fresh(data)
    ensures Box(start[..], count[..]) == Hull(BoxesOf(old(recvData[..])), ndims)
    ensures Merged(data[..], Box(start[..], count[..]), BoxesOf(old(recvData[..])), BufsOf(old(recvData[..])), ele, recvData.Length)
    ensures forall i :: 0 <= i < recvData.Length ==> recvData[i] == Empty
  {
    hide Ready, Merged, Hull;
    HullOfSlots(ndims, recvData, start, count, ele);
    var hull := Box(start[..], count[..]);
    var dataSize := Extent(hull.count);
    data := new Byte[dataSize * ele];
    OverlaySlots(ndims, ele, hull, data, recvData);
  }
}
