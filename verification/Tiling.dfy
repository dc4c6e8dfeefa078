/** When every client writes the block of its grid position, the blocks of one
    server's clients tile their hull: each cell of the merged array has exactly
    one writer. */
module Tiling {
  import opened Bytes
  import opened Boxes
  import opened Merge
  import opened Grid

  // The block of client r, of wx by wy cells, at its grid position.
  function ClientBox(d: Decomposition, r: nat, wx: nat, wy: nat): (b: Box)
    requires d.x > 0
    ensures b.Valid() && |b.start| == 2
  {
    Box([Column(r, d.x) * wx, Row(r, d.x) * wy], [wx, wy])
  }

  function ServerBoxes(d: Decomposition, s: nat, wx: nat, wy: nat): (boxes: seq<Box>)
    requires d.x > 0 && d.sx > 0 && d.sy > 0 && d.PerX() > 0 && s >= d.Clients() && d.Servers() > 0
  {
    seq(ClientNumOfServer(d), i requires 0 <= i < ClientNumOfServer(d) => ClientBox(d, ClientAt(d, s, i), wx, wy))
  }

  // The rectangle of cells that belongs to server s.
  function ServerBox(d: Decomposition, s: nat, wx: nat, wy: nat): (b: Box)
    requires d.sx > 0 && d.sy > 0 && s >= d.Clients()
    ensures b.Valid() && |b.start| == 2
  {
    var index := s - d.Clients();
    Box([(Column(index, d.sx) * d.PerX()) * wx, (Row(index, d.sx) * d.PerY()) * wy], [d.PerX() * wx, d.PerY() * wy])
  }

  ghost predicate Served(d: Decomposition, s: nat) {
    d.Accepted() && d.Servers() >= 1 && d.IsServer(s) && d.PerX() >= 1 && d.PerY() >= 1
  }

  lemma SlotPosition(d: Decomposition, s: nat, i: nat)
    requires Served(d, s) && i < ClientNumOfServer(d)
    ensures var r, index := ClientAt(d, s, i), s - d.Clients();
      && Column(r, d.x) == Column(index, d.sx) * d.PerX() + Column(i, d.PerX())
      && Row(r, d.x) == Row(index, d.sx) * d.PerY() + Row(i, d.PerX())
      && Column(i, d.PerX()) < d.PerX() && Row(i, d.PerX()) < d.PerY()
  {
    AcceptedSides(d);
    var p, q, index := d.PerX(), d.PerY(), s - d.Clients();
    MulComm(d.sx, d.sy);
    RowColumn(index, d.sy, d.sx);
    MulComm(p, q);
    RowColumn(i, q, p);
    AtInverse(Column(index, d.sx), p, Column(i, p), d.sx);
    AtInverse(Row(index, d.sx), q, Row(i, p), d.sy);
    AtInverse(At(Row(index, d.sx), q, Row(i, p)), d.x, At(Column(index, d.sx), p, Column(i, p)), d.y);
  }

  lemma Interval(base: nat, k: nat, n: nat, w: nat)
    requires k < n
    ensures base * w <= (base + k) * w && (base + k) * w + w <= base * w + n * w
  {
    MulMono(base, base + k, w);
    MulMono(base + k + 1, base + n, w);
  }

  lemma ClientInServer(d: Decomposition, s: nat, i: nat, wx: nat, wy: nat)
    requires Served(d, s) && i < ClientNumOfServer(d)
    ensures Inside(ServerBoxes(d, s, wx, wy)[i], ServerBox(d, s, wx, wy))
  {
    SlotPosition(d, s, i);
    var index := s - d.Clients();
    Interval(Column(index, d.sx) * d.PerX(), Column(i, d.PerX()), d.PerX(), wx);
    Interval(Row(index, d.sx) * d.PerY(), Row(i, d.PerX()), d.PerY(), wy);
  }

  lemma InsideBothWays(a: Box, b: Box)
    requires Inside(a, b) && Inside(b, a)
    ensures a == b
  {
    assert a.start == b.start;
    assert a.count == b.count;
  }

  lemma SlotCount(d: Decomposition)
    requires d.Accepted()
    ensures d.Servers() >= 1 && d.PerX() >= 1 && d.PerY() >= 1
    ensures ClientNumOfServer(d) == d.PerX() * d.PerY() >= 1
    ensures At(d.PerY() - 1, d.PerX(), d.PerX() - 1) < ClientNumOfServer(d)
    ensures Row(At(d.PerY() - 1, d.PerX(), d.PerX() - 1), d.PerX()) == d.PerY() - 1
    ensures Column(At(d.PerY() - 1, d.PerX(), d.PerX() - 1), d.PerX()) == d.PerX() - 1
  {
    AcceptedSides(d);
    MulMono(1, d.PerX(), d.PerY());
    MulComm(d.PerX(), d.PerY());
    AtInverse(d.PerY() - 1, d.PerX(), d.PerX() - 1, d.PerY());
  }

  lemma LastInterval(base: nat, n: nat, w: nat)
    requires n >= 1
    ensures (base + (n - 1)) * w + w == base * w + n * w
  {
    Distribute2(w, base + (n - 1), 1);
    Distribute2(w, base, n);
  }

  // The first slot starts where the rectangle starts, the last ends where it ends.
  lemma Corners(d: Decomposition, s: nat, wx: nat, wy: nat)
    requires Served(d, s)
    ensures ClientNumOfServer(d) >= 1
    ensures var boxes, whole := ServerBoxes(d, s, wx, wy), ServerBox(d, s, wx, wy);
      var last := boxes[At(d.PerY() - 1, d.PerX(), d.PerX() - 1)];
      && At(d.PerY() - 1, d.PerX(), d.PerX() - 1) < |boxes|
      && boxes[0].start == whole.start
      && last.start[0] + last.count[0] == whole.start[0] + whole.count[0]
      && last.start[1] + last.count[1] == whole.start[1] + whole.count[1]
  {
    SlotCount(d);
    var p, q, index := d.PerX(), d.PerY(), s - d.Clients();
    SlotPosition(d, s, 0);
    DivModUnique(0, 0, p);
    SlotPosition(d, s, At(q - 1, p, p - 1));
    LastInterval(Column(index, d.sx) * p, p, wx);
    LastInterval(Row(index, d.sx) * q, q, wy);
  }

  /** The hull of a server's clients is the server's rectangle. */
  lemma HullIsServerBox(d: Decomposition, s: nat, wx: nat, wy: nat)
    requires Served(d, s)
    ensures ClientNumOfServer(d) >= 1 && SameRank(ServerBoxes(d, s, wx, wy), 2)
    ensures Hull(ServerBoxes(d, s, wx, wy), 2) == ServerBox(d, s, wx, wy)
  {
    Corners(d, s, wx, wy);
    var boxes, whole := ServerBoxes(d, s, wx, wy), ServerBox(d, s, wx, wy);
    var last := At(d.PerY() - 1, d.PerX(), d.PerX() - 1);
    HullIsLeast(boxes, 2);
    forall i | 0 <= i < |boxes| ensures Inside(boxes[i], whole) {
      ClientInServer(d, s, i, wx, wy);
    }
    var h := Hull(boxes, 2);
    assert Inside(h, whole);
    assert Inside(boxes[0], h) && Inside(boxes[last], h);
    assert Inside(whole, h);
    InsideBothWays(h, whole);
  }

  lemma QuotientIn(g: nat, base: nat, n: nat, w: nat)
    requires base * w <= g < base * w + n * w
    ensures w > 0 && base <= g / w < base + n && (g / w) * w <= g < (g / w) * w + w
  {
    Distribute2(w, base, n);
    DivModBounds(g, base + n, w);
    if g / w < base {
      RowBelow(g / w, g % w, base, w);
    }
  }

  lemma QuotientIs(g: nat, k: nat, w: nat)
    requires k * w <= g < k * w + w
    ensures w > 0 && g / w == k
  {
    DivModUnique(k, g - k * w, w);
  }

  // The slot whose block holds cell g of the server's rectangle.
  ghost function Owner(d: Decomposition, s: nat, wx: nat, wy: nat, g: seq<nat>): (i: nat)
    requires Served(d, s) && Contains(ServerBox(d, s, wx, wy), g)
  {
    var index := s - d.Clients();
    QuotientIn(g[0], Column(index, d.sx) * d.PerX(), d.PerX(), wx);
    QuotientIn(g[1], Row(index, d.sx) * d.PerY(), d.PerY(), wy);
    At(g[1] / wy - Row(index, d.sx) * d.PerY(), d.PerX(), g[0] / wx - Column(index, d.sx) * d.PerX())
  }

  /** Every cell of the rectangle is in the block of its owner, and of nobody else. */
  lemma TilesOnce(d: Decomposition, s: nat, wx: nat, wy: nat, g: seq<nat>)
    requires Served(d, s) && Contains(ServerBox(d, s, wx, wy), g)
    ensures Owner(d, s, wx, wy, g) < ClientNumOfServer(d)
    ensures forall i :: 0 <= i < ClientNumOfServer(d) ==>
      (Contains(ServerBoxes(d, s, wx, wy)[i], g) <==> i == Owner(d, s, wx, wy, g))
  {
    AcceptedSides(d);
    var p, q, index, o := d.PerX(), d.PerY(), s - d.Clients(), Owner(d, s, wx, wy, g);
    var c0, r0 := Column(index, d.sx) * p, Row(index, d.sx) * q;
    QuotientIn(g[0], c0, p, wx);
    QuotientIn(g[1], r0, q, wy);
    MulComm(p, q);
    AtInverse(g[1] / wy - r0, p, g[0] / wx - c0, q);
    SlotPosition(d, s, o);
    var boxes := ServerBoxes(d, s, wx, wy);
    assert Contains(boxes[o], g);
    forall i | 0 <= i < |boxes| && Contains(boxes[i], g) ensures i == o {
      SlotPosition(d, s, i);
      var r := ClientAt(d, s, i);
      assert boxes[i] == ClientBox(d, r, wx, wy);
      QuotientIs(g[0], Column(r, d.x), wx);
      QuotientIs(g[1], Row(r, d.x), wy);
      RowColumn(i, q, p);
      assert i == At(Row(i, p), p, Column(i, p));
    }
  }

  ghost predicate WrittenBy(data: seq<Byte>, o: nat, ele: nat, b: Box, buf: seq<Byte>, g: seq<nat>) {
    && Contains(b, g) && (Offset(b, g) + 1) * ele <= |buf|
    && CellIs(data, o, ele, Cell(buf, Offset(b, g), ele))
  }

  /** Gap-free merge: in the array the server writes, every cell is the value its
      one and only writer packed for it. */
  lemma TiledMerge(d: Decomposition, s: nat, wx: nat, wy: nat, bufs: seq<seq<Byte>>, ele: nat, data: seq<Byte>, o: nat)
    requires Served(d, s)
    requires Merged(data, ServerBox(d, s, wx, wy), ServerBoxes(d, s, wx, wy), bufs, ele, ClientNumOfServer(d))
    requires o < ServerBox(d, s, wx, wy).Cells()
    ensures Contains(ServerBox(d, s, wx, wy), Global(ServerBox(d, s, wx, wy), o))
    ensures var g := Global(ServerBox(d, s, wx, wy), o); var i := Owner(d, s, wx, wy, g);
      i < |bufs| && WrittenBy(data, o, ele, ClientBox(d, ClientAt(d, s, i), wx, wy), bufs[i], g)
  {
    var whole, boxes := ServerBox(d, s, wx, wy), ServerBoxes(d, s, wx, wy);
    GlobalContained(whole, o);
    var g := Global(whole, o);
    TilesOnce(d, s, wx, wy, g);
    var i := Owner(d, s, wx, wy, g);
    assert boxes[i] == ClientBox(d, ClientAt(d, s, i), wx, wy);
    OnlyWriter(data, whole, boxes, bufs, ele, o, i);
  }

  lemma OnlyWriter(data: seq<Byte>, hull: Box, boxes: seq<Box>, bufs: seq<seq<Byte>>, ele: nat, o: nat, w: nat)
    requires Merged(data, hull, boxes, bufs, ele, |boxes|) && o < hull.Cells() && w < |boxes|
    requires forall i :: 0 <= i < |boxes| ==> (Contains(boxes[i], Global(hull, o)) <==> i == w)
    ensures WrittenBy(data, o, ele, boxes[w], bufs[w], Global(hull, o))
  {
    var g := Global(hull, o);
    assert Contains(boxes[w], g);
    ContainedGlobal(boxes[w], g);
    CellFits(Offset(boxes[w], g), boxes[w].Cells(), ele);
    assert CellMerged(data, hull, boxes, bufs, ele, |boxes|, o);
    assert LastCover(boxes, g, |boxes|) == Some(w);
  }
}
