/** The process grid: divisors, the search for a server grid, and the mapping
    between client ranks and (server, slot) pairs. */
module Grid {
  import opened Boxes

  // ---------- divisors ----------

  ghost predicate Divides(d: int, n: nat) {
    d >= 1 && n % d == 0
  }

  ghost predicate Increasing(s: seq<int>) {
    forall i, j :: 0 <= i < j < |s| ==> s[i] < s[j]
  }

  /** Exactly the divisors of n, in strictly increasing order. */
  ghost predicate DivisorList(s: seq<int>, n: nat) {
    Increasing(s) && forall d :: d in s <==> Divides(d, n)
  }

  lemma Exact(d: nat, n: nat)
    requires Divides(d, n)
    ensures d * (n / d) == n
  {
  }

  lemma SquareMono(a: nat, b: nat)
    requires a <= b
    ensures a * a <= b * b && a * b <= b * b && a * a <= a * b
  {
    MulMono(a, b, b);
    MulMono(a, b, a);
  }

  lemma CofactorDivides(d: nat, n: nat)
    requires Divides(d, n) && n >= 1
    ensures Divides(n / d, n) && n / (n / d) == d && n / d <= n
  {
    Exact(d, n);
    var e := n / d;
    assert e >= 1;
    DivModUnique(d, 0, e);
    MulMono(1, d, e);
  }

  lemma CofactorDecreases(s: nat, t: nat, n: nat)
    requires Divides(s, n) && Divides(t, n) && s < t && n >= 1
    ensures n / t < n / s
  {
    Exact(s, n);
    Exact(t, n);
    if n / t >= n / s {
      ProductsDiffer(s, t, n / s, n / t);
    }
  }

  lemma ProductsDiffer(s: nat, t: nat, a: nat, b: nat)
    requires s < t && a <= b && s * a >= 1
    ensures s * a < t * b
  {
    MulMono(s + 1, t, b);
    MulMono(a, b, s);
  }

  // A divisor beyond every i with i*i <= n has a cofactor below i.
  lemma LargeDivisor(d: nat, i: nat, n: nat)
    requires Divides(d, n) && n >= 1 && i <= d && i * i > n
    ensures n / d < i && (n / d) * (n / d) < n
  {
    Exact(d, n);
    var e := n / d;
    if e >= i {
      MulMono(i, e, i);
      MulMono(i, d, e);
      assert false;
    }
    MulMono(e, d, e);
    if e * e >= n {
      ProductsDiffer(e, d, e, e);
    }
  }

  lemma BelowSquare(s: nat, r: nat, n: nat)
    requires Divides(s, n) && n >= 1
    requires (r * r == n && s < r) || (r == s && s * s < n)
    ensures r < n / s
  {
    Exact(s, n);
    if n / s <= r {
      MulMono(n / s, r, s);
      if s < r { ProductsDiffer(s, r, r, r); }
    }
  }

  // The divisors of n below i, in order; all of them at most the square root.
  ghost predicate SmallDivisors(s: seq<int>, n: nat, i: nat) {
    && Increasing(s)
    && (forall j :: 0 <= j < |s| ==> Divides(s[j], n) && s[j] < i && s[j] * s[j] <= n)
    && (forall d :: 1 <= d < i && Divides(d, n) ==> d in s)
  }

  lemma SmallStep(s: seq<int>, n: nat, i: nat)
    requires SmallDivisors(s, n, i) && 1 <= i && i * i <= n
    ensures SmallDivisors(if n % i == 0 then s + [i] else s, n, i + 1)
  {
    if n % i == 0 {
      var t := s + [i];
      forall d | 1 <= d < i + 1 && Divides(d, n) ensures d in t {
        if d == i { assert t[|s|] == i; } else { assert d in s; }
      }
    }
  }

  lemma {:induction false} IncreasingFits(s: seq<int>, n: nat)
    requires Increasing(s) && forall j :: 0 <= j < |s| ==> 1 <= s[j] <= n
    ensures |s| <= n
    decreases n
  {
    if s != [] {
      var last := |s| - 1;
      assert 1 <= s[last] <= n;
      IncreasingFits(s[..last], n - 1);
    }
  }

  // The cofactors of s[top], s[top - 1], ... , `len` of them.
  ghost function Cofactors(s: seq<int>, n: nat, top: int, len: nat): (c: seq<int>)
    requires len <= top + 1 <= |s| && forall j :: 0 <= j < |s| ==> s[j] >= 1
    ensures |c| == len && forall t :: 0 <= t < len ==> c[t] == n / s[top - t]
  {
    if len == 0 then [] else Cofactors(s, n, top, len - 1) + [n / s[top - (len - 1)]]
  }

  // Where the second pass starts: a perfect square's root is not mirrored.
  ghost predicate Top(s: seq<int>, n: nat, top: int) {
    s != [] && top == (if s[|s| - 1] * s[|s| - 1] == n then |s| - 2 else |s| - 1)
  }

  lemma MirrorIncreases(s: seq<int>, n: nat, i: nat, top: int, len: nat)
    requires n >= 1 && SmallDivisors(s, n, i) && Top(s, n, top) && len <= top + 1
    ensures var u := s + Cofactors(s, n, top, len);
      && Increasing(u) && (forall j :: 0 <= j < |u| ==> Divides(u[j], n) && 1 <= u[j] <= n) && |u| <= n
  {
    var c := Cofactors(s, n, top, len);
    var u := s + c;
    forall j | 0 <= j < |u| ensures Divides(u[j], n) && 1 <= u[j] <= n {
      if j < |s| {
        SquareMono(1, s[j]);
      } else {
        CofactorDivides(s[top - (j - |s|)], n);
      }
    }
    if len > 0 { BelowSquare(s[top], s[|s| - 1], n); }
    forall t | 0 < t < len ensures c[t - 1] < c[t] {
      CofactorDecreases(s[top - t], s[top - t + 1], n);
    }
    assert forall j :: 0 < j < |u| ==> u[j - 1] < u[j];
    StepsIncrease(u);
    IncreasingFits(u, n);
  }

  lemma {:induction false} StepsIncrease(s: seq<int>)
    requires forall j :: 0 < j < |s| ==> s[j - 1] < s[j]
    ensures Increasing(s)
  {
    if |s| > 1 {
      var front := s[..|s| - 1];
      StepsIncrease(front);
      forall i, j | 0 <= i < j < |s| ensures s[i] < s[j] {
        if j == |s| - 1 {
          assert i < |s| - 2 ==> front[i] < front[|s| - 2];
        } else {
          assert front[i] < front[j];
        }
      }
    }
  }

  lemma MirrorComplete(s: seq<int>, n: nat, i: nat, top: int, d: nat)
    requires n >= 1 && SmallDivisors(s, n, i) && i * i > n && Top(s, n, top) && Divides(d, n)
    ensures d in s + Cofactors(s, n, top, top + 1)
  {
    if d < i {
      assert d in s;
    } else {
      LargeDivisor(d, i, n);
      CofactorDivides(d, n);
      assert n / d in s;
      var t :| 0 <= t < |s| && s[t] == n / d;
      assert t <= top;
      assert Cofactors(s, n, top, top + 1)[top - t] == n / s[t];
    }
  }

  // There is a free slot for each cofactor still to come.
  lemma MirrorFits(s: seq<int>, n: nat, i: nat, top: int, index: int)
    requires n >= 1 && SmallDivisors(s, n, i) && Top(s, n, top) && 0 <= index <= top
    ensures |s| + (top - index) < n && s[index] >= 1
    ensures Cofactors(s, n, top, top - index + 1) == Cofactors(s, n, top, top - index) + [n / s[index]]
  {
    MirrorIncreases(s, n, i, top, top - index + 1);
  }

  lemma MirrorLists(s: seq<int>, n: nat, i: nat, top: int)
    requires n >= 1 && SmallDivisors(s, n, i) && i * i > n && Top(s, n, top)
    ensures DivisorList(s + Cofactors(s, n, top, top + 1), n)
  {
    MirrorIncreases(s, n, i, top, top + 1);
    var u := s + Cofactors(s, n, top, top + 1);
    forall d ensures d in u <==> Divides(d, n) {
      if Divides(d, n) { MirrorComplete(s, n, i, top, d); }
    }
  }

  lemma OneIsSmall(s: seq<int>, n: nat, i: nat)
    requires n >= 1 && i > 1 && SmallDivisors(s, n, i)
    ensures s != [] && forall j :: 0 <= j < |s| ==> s[j] >= 1
  {
    assert Divides(1, n) && 1 in s;
  }

  lemma NoCofactors(s: seq<int>, n: nat, top: int)
    requires Top(s, n, top) && forall j :: 0 <= j < |s| ==> s[j] >= 1
    ensures s + Cofactors(s, n, top, 0) == s
  {
  }

  // The second pass: mirrors the small divisors to their cofactors.
  method AppendCofactors(n: nat, factor: array<int>, small: nat, ghost i: nat) returns (factorNum: nat)
    requires 1 <= n <= factor.Length && small <= n && i * i > n && i > 1
    requires SmallDivisors(factor[..small], n, i)
    modifies factor
    ensures factorNum <= n
    ensures DivisorList(factor[..factorNum], n)
  {
    hide SmallDivisors, Divides, DivisorList, Cofactors;
    ghost var s := factor[..small];
    factorNum := small;
    OneIsSmall(s, n, i);
    var index := factorNum - 1;
    if factor[index] * factor[index] == n {
      index := index - 1;
    }
    ghost var top := index;
    NoCofactors(s, n, top);
    while index >= 0
      invariant -1 <= index <= top
      invariant factorNum == |s| + (top - index) <= n
      invariant factor[..factorNum] == s + Cofactors(s, n, top, top - index)
    {
      MirrorFits(s, n, i, top, index);
      ghost var u := factor[..factorNum];
      assert factor[index] == u[index] == s[index];
      factor[factorNum] := n / factor[index];
      index := index - 1;
      factorNum := factorNum + 1;
      assert factor[..factorNum] == u + [n / s[index + 1]];
      assert u + [n / s[index + 1]] == s + Cofactors(s, n, top, top - index);
    }
    MirrorLists(s, n, i, top);
  }

  /** Writes exactly the divisors of n in increasing order, never more than n of them. */
  method GetFactor(n: nat, factor: array<int>) returns (factorNum: nat)
    requires n >= 1 && factor.Length >= n
    modifies factor
    ensures factorNum <= n
    ensures DivisorList(factor[..factorNum], n)
  {
    factorNum := 0;
    var i := 1;
    while i * i <= n
      invariant 1 <= i && factorNum <= i - 1 && factorNum <= n
      invariant SmallDivisors(factor[..factorNum], n, i)
      decreases n + 1 - i
    {
      MulMono(1, i, i);
      SmallStep(factor[..factorNum], n, i);
      if n % i == 0 {
        ghost var s := factor[..factorNum];
        factor[factorNum] := i;
        factorNum := factorNum + 1;
        assert factor[..factorNum] == s + [i];
      }
      i := i + 1;
    }
    factorNum := AppendCofactors(n, factor, factorNum, i);
  }

  // ---------- the server grid ----------

  // Some divisor of x times some divisor of y is `best`.
  ghost predicate Factors(x: nat, y: nat, best: nat) {
    exists dx: nat, dy: nat :: Divides(dx, x) && Divides(dy, y) && dx * dy == best
  }

  // No product of the list's rows below ix, or of its columns above iy, hits `best`.
  ghost predicate Excluded(fx: seq<int>, fy: seq<int>, best: nat, ix: int, iy: int) {
    forall p, q :: 0 <= p < |fx| && 0 <= q < |fy| && (p < ix || q > iy) ==> fx[p] * fy[q] != best
  }

  lemma RowExcluded(fx: seq<int>, fy: seq<int>, best: nat, ix: int, iy: int)
    requires Excluded(fx, fy, best, ix, iy) && 0 <= ix < |fx| && 0 <= iy < |fy|
    requires Increasing(fx) && Increasing(fy)
    requires (forall j :: 0 <= j < |fx| ==> fx[j] >= 1) && (forall j :: 0 <= j < |fy| ==> fy[j] >= 1)
    ensures fx[ix] * fy[iy] < best ==> Excluded(fx, fy, best, ix + 1, iy)
    ensures fx[ix] * fy[iy] > best ==> Excluded(fx, fy, best, ix, iy - 1)
  {
    forall q | 0 <= q <= iy ensures fx[ix] * fy[q] <= fx[ix] * fy[iy] {
      assert fy[q] <= fy[iy];
      MulMono(fy[q], fy[iy], fx[ix]);
    }
    forall p | ix <= p < |fx| ensures fx[ix] * fy[iy] <= fx[p] * fy[iy] {
      assert fx[ix] <= fx[p];
      MulMono(fx[ix], fx[p], fy[iy]);
    }
  }

  lemma FirstHit(fx: seq<int>, fy: seq<int>, best: nat, ix: int, iy: int)
    requires Excluded(fx, fy, best, ix, iy)
    ensures forall p, q :: 0 <= p < |fx| && 0 <= q < |fy| && fx[p] * fy[q] == best ==> ix <= p
  {
  }

  // The least position in the lists is the least divisor.
  lemma LeastDivisor(fx: seq<int>, fy: seq<int>, best: nat, ix: nat, x: nat, y: nat)
    requires DivisorList(fx, x) && DivisorList(fy, y) && ix < |fx|
    requires forall p, q :: 0 <= p < |fx| && 0 <= q < |fy| && fx[p] * fy[q] == best ==> ix <= p
    ensures forall dx: nat, dy: nat :: Divides(dx, x) && Divides(dy, y) && dx * dy == best ==> fx[ix] <= dx
  {
    forall dx: nat, dy: nat | Divides(dx, x) && Divides(dy, y) && dx * dy == best ensures fx[ix] <= dx {
      assert dx in fx && dy in fy;
      var p :| 0 <= p < |fx| && fx[p] == dx;
      var q :| 0 <= q < |fy| && fy[q] == dy;
      assert fx[p] * fy[q] == best;
    }
  }

  lemma NoFactors(fx: seq<int>, fy: seq<int>, best: nat, ix: int, iy: int, x: nat, y: nat)
    requires DivisorList(fx, x) && DivisorList(fy, y) && Excluded(fx, fy, best, ix, iy)
    requires ix >= |fx| || iy < 0
    ensures !Factors(x, y, best)
  {
    forall dx: nat, dy: nat | Divides(dx, x) && Divides(dy, y) ensures dx * dy != best {
      assert dx in fx && dy in fy;
      var p :| 0 <= p < |fx| && fx[p] == dx;
      var q :| 0 <= q < |fy| && fy[q] == dy;
    }
  }

  // The first hit of the search, if there is one: positions in the two lists, of
  // which the first is the least of any hit.
  method Saddleback(fx: array<int>, nx: nat, fy: array<int>, ny: nat, x: nat, y: nat, best: nat)
    returns (minSub: int, minIndexX: int, minIndexY: int)
    requires nx <= fx.Length && ny <= fy.Length && 1 <= best && 1 <= x * y
    requires DivisorList(fx[..nx], x) && DivisorList(fy[..ny], y)
    ensures minSub == if Factors(x, y, best) then 0 else x * y
    ensures minSub == 0 ==> 0 <= minIndexX < nx && 0 <= minIndexY < ny && fx[minIndexX] * fy[minIndexY] == best
    ensures minSub == 0 ==> forall p, q :: 0 <= p < nx && 0 <= q < ny && fx[p] * fy[q] == best ==> minIndexX <= p
  {
    ghost var sx, sy := fx[..nx], fy[..ny];
    assert forall j :: 0 <= j < nx ==> sx[j] in sx && Divides(sx[j], x);
    assert forall j :: 0 <= j < ny ==> sy[j] in sy && Divides(sy[j], y);
    var indexX, indexY := 0, ny - 1;
    minSub, minIndexX, minIndexY := x * y, 0, 0;
    while indexX < nx && indexY >= 0
      invariant 0 <= indexX <= nx && -1 <= indexY < ny
      invariant Excluded(sx, sy, best, indexX, indexY)
      invariant minSub == x * y
      decreases nx - indexX + indexY
    {
      RowExcluded(sx, sy, best, indexX, indexY);
      var mul := fx[indexX] * fy[indexY];
      var sub := best - mul;
      if sub == 0 {
        minSub, minIndexX, minIndexY := sub, indexX, indexY;
        assert Divides(sx[indexX], x) && Divides(sy[indexY], y);
        FirstHit(sx, sy, best, indexX, indexY);
        assert forall p :: 0 <= p < nx ==> fx[p] == sx[p];
        assert forall q :: 0 <= q < ny ==> fy[q] == sy[q];
        return;
      } else if sub > 0 {
        indexX := indexX + 1;
      } else {
        indexY := indexY - 1;
        sub := -sub;
      }
      if sub < minSub {
        minIndexX, minIndexY := indexX, indexY;
      }
    }
    NoFactors(sx, sy, best, indexX, indexY, x, y);
  }

  class GridMap {
    var clientX: nat
    var clientY: nat
    var serverAmount: nat
    var serverX: nat
    var serverY: nat

    constructor (x: nat, y: nat, servers: nat)
      ensures clientX == x && clientY == y && serverAmount == servers
    {
      clientX, clientY, serverAmount := x, y, servers;
    }

    /** Initialization succeeds exactly when `best` factors over the two grid
        sides and enough servers were started; it then fixes the server grid, of all
        that have `best` servers the one with the fewest columns.
        For a larger `best` the initial distance passes the tolerance and the
        source uses two indices it never set. */
    method GenServerXAndY(best: nat) returns (ok: bool)
      requires clientX >= 1 && clientY >= 1 && 1 <= best && best as real * 0.4 <= (clientX * clientY) as real
      modifies this
      ensures clientX == old(clientX) && clientY == old(clientY)
      ensures ok <==> Factors(clientX, clientY, best) && old(serverAmount) >= best
      ensures ok ==> best <= clientX * clientY
      ensures ok ==> Divides(serverX, clientX) && Divides(serverY, clientY) && serverX * serverY == serverAmount == best
      ensures ok ==> forall dx: nat, dy: nat :: Divides(dx, clientX) && Divides(dy, clientY) && dx * dy == best ==> serverX <= dx
      ensures !ok ==> serverAmount == old(serverAmount) && serverX == old(serverX) && serverY == old(serverY)
    {
      var factorX := new int[clientX];
      var factorY := new int[clientY];
      var nx := GetFactor(clientX, factorX);
      var ny := GetFactor(clientY, factorY);
      var minSub, minIndexX, minIndexY := Saddleback(factorX, nx, factorY, ny, clientX, clientY, best);
      if (minSub as real) / (best as real) < 0.4 {
        WithinTolerance(minSub, clientX * clientY, best);
        FactorsBound(clientX, clientY, best);
        assert factorX[minIndexX] in factorX[..nx] && factorY[minIndexY] in factorY[..ny];
        LeastDivisor(factorX[..nx], factorY[..ny], best, minIndexX, clientX, clientY);
        var amount := factorX[minIndexX] * factorY[minIndexY];
        if serverAmount < amount {
          return false;
        }
        serverAmount := amount;
        serverX := factorX[minIndexX];
        serverY := factorY[minIndexY];
        return true;
      }
      return false;
    }
  }

  // Divisors above the product cannot factor it.
  lemma FactorsBound(x: nat, y: nat, best: nat)
    requires x >= 1 && y >= 1 && Factors(x, y, best)
    ensures best <= x * y
  {
    var dx: nat, dy: nat :| Divides(dx, x) && Divides(dy, y) && dx * dy == best;
    DivisorBound(dx, x);
    DivisorBound(dy, y);
    MulMono(dx, x, dy);
    MulMono(dy, y, x);
  }

  lemma DivisorBound(d: nat, n: nat)
    requires Divides(d, n) && n >= 1
    ensures d <= n
  {
  }

  /** A grid of 3 by 3 clients and 8 servers: the candidate 9 is well within the
      tolerance of 0.4, yet the search refuses, however many servers there are. */
  method RefuseNearMiss(servers: nat) returns (ok: bool)
    ensures !ok && Factors(3, 3, 9) && (9 - 8) as real / 8 as real < 0.4
  {
    assert Divides(3, 3);
    assert Factors(3, 3, 9);
    forall d: nat | Divides(d, 3) ensures d == 1 || d == 3 {
    }
    assert !Factors(3, 3, 8);
    var m := new GridMap(3, 3, servers);
    ok := m.GenServerXAndY(8);
  }

  // Only an exact hit is within the tolerance of 0.4.
  lemma WithinTolerance(sub: int, amount: nat, best: nat)
    requires 1 <= best && best as real * 0.4 <= amount as real && (sub == 0 || sub == amount)
    requires (sub as real) / (best as real) < 0.4
    ensures sub == 0
  {
  }

  // ---------- ranks, servers and slots ----------

  // Clients form an x by y grid, servers an sx by sy grid over it. Client ranks
  // come first, server ids follow.
  datatype Decomposition = Decomposition(x: nat, y: nat, sx: nat, sy: nat) {
    ghost predicate Accepted() {
      x >= 1 && y >= 1 && Divides(sx, x) && Divides(sy, y)
    }
    function Clients(): nat { x * y }
    function Servers(): nat { sx * sy }
    ghost predicate IsServer(s: nat) { Clients() <= s < Clients() + Servers() }
    function PerX(): nat requires sx > 0 { x / sx }
    function PerY(): nat requires sy > 0 { y / sy }
  }

  function ClientNumOfServer(d: Decomposition): nat
    requires d.Servers() > 0
  {
    d.Clients() / d.Servers()
  }

  // Row-major number of column c of row q, in rows of length d.
  function At(q: nat, d: nat, c: nat): nat { q * d + c }

  function Row(k: nat, d: nat): nat requires d > 0 { k / d }
  function Column(k: nat, d: nat): nat requires d > 0 { k % d }

  function ServerOfClient(d: Decomposition, r: nat): nat
    requires d.x > 0 && d.sx > 0 && d.sy > 0 && d.PerX() > 0 && d.PerY() > 0
  {
    var serverX := Row(Column(r, d.x), d.PerX());
    var serverY := Row(Row(r, d.x), d.PerY());
    At(serverY, d.sx, serverX) + d.Clients()
  }

  function ClientIndexOfServer(d: Decomposition, r: nat): nat
    requires d.x > 0 && d.sx > 0 && d.sy > 0 && d.PerX() > 0 && d.PerY() > 0
  {
    At(Column(Row(r, d.x), d.PerY()), d.PerX(), Column(Column(r, d.x), d.PerX()))
  }

  // Entry i of the client list of server s.
  function ClientAt(d: Decomposition, s: nat, i: nat): nat
    requires d.sx > 0 && d.sy > 0 && d.PerX() > 0 && s >= d.Clients()
  {
    var index := s - d.Clients();
    var clientX := At(Column(index, d.sx), d.PerX(), Column(i, d.PerX()));
    var clientY := At(Row(index, d.sx), d.PerY(), Row(i, d.PerX()));
    At(clientY, d.x, clientX)
  }

  lemma AcceptedSides(d: Decomposition)
    requires d.Accepted()
    ensures d.PerX() >= 1 && d.PerY() >= 1 && d.sx * d.PerX() == d.x && d.sy * d.PerY() == d.y
    ensures d.Servers() >= 1 && ClientNumOfServer(d) == d.PerX() * d.PerY()
  {
    Exact(d.sx, d.x);
    Exact(d.sy, d.y);
    var p, q := d.PerX(), d.PerY();
    MulMono(1, d.sx, d.sy);
    Regroup(d.sx, p, d.sy, q);
    DivModUnique(p * q, 0, d.sx * d.sy);
  }

  lemma Regroup(a: nat, b: nat, c: nat, e: nat)
    ensures (a * b) * (c * e) == (b * e) * (a * c)
  {
    assert (a * b) * (c * e) == a * (b * (c * e));
    assert (b * e) * (a * c) == a * ((b * e) * c);
    assert b * (c * e) == (b * e) * c;
  }

  lemma AtInverse(q: nat, d: nat, c: nat, n: nat)
    requires c < d && q < n
    ensures At(q, d, c) < n * d && Row(At(q, d, c), d) == q && Column(At(q, d, c), d) == c
  {
    DivModUnique(q, c, d);
    RowBelow(q, c, n, d);
  }

  lemma RowColumn(k: nat, n: nat, d: nat)
    requires k < n * d
    ensures d > 0 && Row(k, d) < n && Column(k, d) < d && k == At(Row(k, d), d, Column(k, d))
  {
    DivModBounds(k, n, d);
  }

  lemma MulComm(a: nat, b: nat)
    ensures a * b == b * a
  {
  }

  /** rank -> (server, slot) -> rank is the identity, and lands in range. */
  lemma RankRoundTrip(d: Decomposition, r: nat)
    requires d.Accepted() && r < d.Clients()
    ensures d.PerX() >= 1 && d.PerY() >= 1 && d.Servers() >= 1
    ensures d.IsServer(ServerOfClient(d, r)) && ClientIndexOfServer(d, r) < ClientNumOfServer(d)
    ensures ClientAt(d, ServerOfClient(d, r), ClientIndexOfServer(d, r)) == r
  {
    AcceptedSides(d);
    var p, q := d.PerX(), d.PerY();
    MulComm(d.x, d.y);
    RowColumn(r, d.y, d.x);
    var cx, cy := Column(r, d.x), Row(r, d.x);
    RowColumn(cx, d.sx, p);
    RowColumn(cy, d.sy, q);
    AtInverse(Row(cy, q), d.sx, Row(cx, p), d.sy);
    AtInverse(Column(cy, q), p, Column(cx, p), q);
    MulComm(d.sx, d.sy);
    MulComm(p, q);
  }

  /** (server, slot) -> rank -> (server, slot) is the identity, and lands in range. */
  lemma SlotRoundTrip(d: Decomposition, s: nat, i: nat)
    requires d.Accepted() && d.Servers() >= 1 && d.IsServer(s) && i < ClientNumOfServer(d)
    ensures d.PerX() >= 1 && d.PerY() >= 1 && ClientAt(d, s, i) < d.Clients()
    ensures ServerOfClient(d, ClientAt(d, s, i)) == s && ClientIndexOfServer(d, ClientAt(d, s, i)) == i
  {
    AcceptedSides(d);
    var p, q, index := d.PerX(), d.PerY(), s - d.Clients();
    MulComm(d.sx, d.sy);
    RowColumn(index, d.sy, d.sx);
    MulComm(p, q);
    RowColumn(i, q, p);
    AtInverse(Column(index, d.sx), p, Column(i, p), d.sx);
    AtInverse(Row(index, d.sx), q, Row(i, p), d.sy);
    AtInverse(At(Row(index, d.sx), q, Row(i, p)), d.x, At(Column(index, d.sx), p, Column(i, p)), d.y);
    MulComm(d.x, d.y);
  }

  /** The client list a server fills in is the inverse of the mapping. */
  method GetClients(d: Decomposition, s: nat, clientId: array<nat>)
    requires d.Accepted() && d.Servers() >= 1 && d.IsServer(s) && clientId.Length == ClientNumOfServer(d)
    modifies clientId
    ensures forall i :: 0 <= i < clientId.Length ==>
      clientId[i] < d.Clients() && d.PerX() >= 1 && d.PerY() >= 1
      && ServerOfClient(d, clientId[i]) == s && ClientIndexOfServer(d, clientId[i]) == i
  {
    AcceptedSides(d);
    var index := s - d.Clients();
    var serverX, serverY := Column(index, d.sx), Row(index, d.sx);
    var clientNum := ClientNumOfServer(d);
    var perX, perY := d.PerX(), d.PerY();
    for i := 0 to clientNum
      invariant forall j :: 0 <= j < i ==> clientId[j] == ClientAt(d, s, j)
    {
      var clientX := At(serverX, perX, Column(i, perX));
      var clientY := At(serverY, perY, Row(i, perX));
      clientId[i] := At(clientY, d.x, clientX);
    }
    forall i | 0 <= i < clientNum
      ensures clientId[i] < d.Clients() && ServerOfClient(d, clientId[i]) == s && ClientIndexOfServer(d, clientId[i]) == i
    {
      SlotRoundTrip(d, s, i);
    }
  }
}
