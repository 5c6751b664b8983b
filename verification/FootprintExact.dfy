/** The footprint estimate is no larger than it must be: each span is reached inside the tile, and
    for operands indexed by single loops the estimate is the number of bytes touched. */
module FootprintExact {
  import opened TileSizes
  import opened DtcmSearch
  import opened Footprint

  // ----- spans -----

  /** The points of the tile where a linear expression is least and greatest. */
  lemma {:induction false} Extremes(coeffs: seq<int>, origin: seq<int>, tiles: seq<nat>) returns (x: seq<int>, y: seq<int>)
    requires |coeffs| == |origin| == |tiles| && AllPositive(tiles)
    ensures InBox(origin, tiles, x) && InBox(origin, tiles, y)
    ensures Dot(coeffs, x) == Dot(coeffs, origin) + LowerBound(coeffs, tiles)
    ensures Dot(coeffs, y) == Dot(coeffs, origin) + UpperBound(coeffs, tiles)
  {
    if coeffs == [] {
      x, y := [], [];
    } else {
      var x', y' := Extremes(coeffs[1..], origin[1..], tiles[1..]);
      var c, last := coeffs[0], origin[0] + tiles[0] - 1;
      var low, high := if c >= 0 then origin[0] else last, if c <= 0 then origin[0] else last;
      x, y := [low] + x', [high] + y';
      PointCons(origin, tiles, low, x');
      PointCons(origin, tiles, high, y');
      Distribute(c, origin[0], tiles[0] - 1);
      assert x[1..] == x' && y[1..] == y';
    }
  }

  lemma Distribute(c: int, a: int, b: int)
    ensures c * (a + b) == c * a + c * b
  {
  }

  /** The span of an index expression is one more than the greatest distance between two of its
      values in the tile: no two points are further apart, and two points are as far. */
  lemma SpanExact(e: Linear, origin: seq<int>, tiles: seq<nat>) returns (x: seq<int>, y: seq<int>)
    requires |e.coeffs| == |origin| == |tiles| && AllPositive(tiles)
    ensures forall p, q :: InBox(origin, tiles, p) && InBox(origin, tiles, q) ==> Eval(e, q) - Eval(e, p) + 1 <= Span(e, tiles)
    ensures InBox(origin, tiles, x) && InBox(origin, tiles, y) && Eval(e, y) - Eval(e, x) + 1 == Span(e, tiles)
  {
    x, y := Extremes(e.coeffs, origin, tiles);
    forall p, q | InBox(origin, tiles, p) && InBox(origin, tiles, q) ensures Eval(e, q) - Eval(e, p) + 1 <= Span(e, tiles) {
      DotBounds(e.coeffs, tiles, origin, p);
      DotBounds(e.coeffs, tiles, origin, q);
    }
  }

  // ----- operands indexed by single loops -----

  /** The expression is loop `d`, up to a constant. */
  predicate Picks(coeffs: seq<int>, d: nat) {
    d < |coeffs| && forall j: nat :: j < |coeffs| ==> coeffs[j] == if j == d then 1 else 0
  }

  predicate AllZero(coeffs: seq<int>) {
    forall j :: 0 <= j < |coeffs| ==> coeffs[j] == 0
  }

  /** Dimension `k` of the operand is indexed by loop `dims[k]`, and no loop indexes two. */
  ghost predicate Selects(o: Operand, dims: seq<nat>) {
    && |dims| == |o.index|
    && (forall k :: 0 <= k < |dims| ==> Picks(o.index[k].coeffs, dims[k]))
    && (forall j, k :: 0 <= j < k < |dims| ==> dims[j] != dims[k])
  }

  lemma {:induction false} ZeroBounds(coeffs: seq<int>, x: seq<int>, tiles: seq<nat>)
    requires |coeffs| == |x| == |tiles| && AllZero(coeffs)
    ensures Dot(coeffs, x) == 0 && LowerBound(coeffs, tiles) == 0 && UpperBound(coeffs, tiles) == 0
  {
    if coeffs != [] { ZeroBounds(coeffs[1..], x[1..], tiles[1..]); }
  }

  lemma {:induction false} PickBounds(coeffs: seq<int>, d: nat, x: seq<int>, tiles: seq<nat>)
    requires |coeffs| == |x| == |tiles| && Picks(coeffs, d) && AllPositive(tiles)
    ensures Dot(coeffs, x) == x[d] && LowerBound(coeffs, tiles) == 0 && UpperBound(coeffs, tiles) == tiles[d] - 1
  {
    if d == 0 {
      assert coeffs[0] == 1;
      ZeroBounds(coeffs[1..], x[1..], tiles[1..]);
    } else {
      assert coeffs[0] == 0;
      PickBounds(coeffs[1..], d - 1, x[1..], tiles[1..]);
    }
  }

  /** The elements touched form a box with the tile sizes of the operand's loops as its sides. */
  lemma {:induction false} TouchedIsBox(o: Operand, dims: seq<nat>, origin: seq<int>, tiles: seq<nat>) returns (lo: seq<int>)
    requires |origin| == |tiles| && ValidOperand(o, |tiles|) && Selects(o, dims) && AllPositive(tiles)
    ensures |lo| == |o.index| && Touched(o, origin, tiles) == Box(lo, Spans(o, tiles))
    ensures forall k :: 0 <= k < |dims| ==> dims[k] < |tiles| && Spans(o, tiles)[k] == tiles[dims[k]]
  {
    lo := seq(|o.index|, k requires 0 <= k < |o.index| => if dims[k] < |origin| then origin[dims[k]] + o.index[k].constant else 0);
    var spans := Spans(o, tiles);
    forall k | 0 <= k < |dims| ensures dims[k] < |tiles| && spans[k] == tiles[dims[k]] {
      PickBounds(o.index[k].coeffs, dims[k], origin, tiles);
    }
    BoxPoints(origin, tiles);
    BoxPoints(lo, spans);
    forall y | y in Touched(o, origin, tiles) ensures y in Box(lo, spans) {
      var x :| x in Box(origin, tiles) && y == Access(o, x);
      forall k | 0 <= k < |y| ensures lo[k] <= y[k] < lo[k] + spans[k] { PickBounds(o.index[k].coeffs, dims[k], x, tiles); }
      assert InBox(lo, spans, y);
    }
    forall y | y in Box(lo, spans) ensures y in Touched(o, origin, tiles) {
      var x := Preimage(o, dims, origin, tiles, lo, y);
      assert x in Box(origin, tiles) && y == Access(o, x);
    }
  }

  /** A point of the tile that accesses element `y`. */
  lemma {:induction false} Preimage(o: Operand, dims: seq<nat>, origin: seq<int>, tiles: seq<nat>, lo: seq<int>, y: seq<int>)
      returns (x: seq<int>)
    requires |origin| == |tiles| && ValidOperand(o, |tiles|) && Selects(o, dims) && AllPositive(tiles) && |lo| == |o.index|
    requires forall k :: 0 <= k < |dims| ==>
               dims[k] < |tiles| && Spans(o, tiles)[k] == tiles[dims[k]] && lo[k] == origin[dims[k]] + o.index[k].constant
    requires InBox(lo, Spans(o, tiles), y)
    ensures InBox(origin, tiles, x) && y == Access(o, x)
  {
    x := Place(o, dims, origin, y, |dims|);
    PlaceAt(o, dims, origin, y, |dims|);
    forall d: nat | d < |x| ensures origin[d] <= x[d] < origin[d] + tiles[d] {
      if k :| 0 <= k < |dims| && dims[k] == d { assert x[dims[k]] == y[k] - o.index[k].constant; }
    }
    forall k | 0 <= k < |y| ensures y[k] == Access(o, x)[k] { PickBounds(o.index[k].coeffs, dims[k], x, tiles); }
  }

  /** The origin moved to element `y` on the loops of the first `n` dimensions. */
  ghost function Place(o: Operand, dims: seq<nat>, origin: seq<int>, y: seq<int>, n: nat): (x: seq<int>)
    requires n <= |dims| == |o.index| == |y| && forall k :: 0 <= k < |dims| ==> dims[k] < |origin|
    ensures |x| == |origin|
  {
    if n == 0 then origin else Place(o, dims, origin, y, n - 1)[dims[n - 1] := y[n - 1] - o.index[n - 1].constant]
  }

  lemma {:induction false} PlaceAt(o: Operand, dims: seq<nat>, origin: seq<int>, y: seq<int>, n: nat)
    requires n <= |dims| == |o.index| == |y| && forall k :: 0 <= k < |dims| ==> dims[k] < |origin|
    requires forall j, k :: 0 <= j < k < |dims| ==> dims[j] != dims[k]
    ensures forall k :: 0 <= k < n ==> Place(o, dims, origin, y, n)[dims[k]] == y[k] - o.index[k].constant
    ensures forall d: nat :: d < |origin| && (forall k :: 0 <= k < n ==> dims[k] != d) ==> Place(o, dims, origin, y, n)[d] == origin[d]
  {
    if n > 0 { PlaceAt(o, dims, origin, y, n - 1); }
  }

  /** For an operand indexed by distinct single loops, in any order, the estimate is exact, wherever
      the tile is. */
  lemma {:induction false} EstimateExact(o: Operand, dims: seq<nat>, origin: seq<int>, tiles: seq<nat>)
    requires |origin| == |tiles| && ValidOperand(o, |tiles|) && Selects(o, dims) && AllPositive(tiles)
    ensures OperandBytes(o, tiles) == |Touched(o, origin, tiles)| * o.elementBytes
  {
    var lo := TouchedIsBox(o, dims, origin, tiles);
    BoxSize(lo, Spans(o, tiles));
  }

  ghost predicate SingleLoops(o: Operand) {
    exists dims :: Selects(o, dims)
  }

  /** An operation all of whose operands are of that kind. */
  ghost predicate AllSelect(os: seq<Operand>) {
    forall k :: 0 <= k < |os| ==> SingleLoops(os[k])
  }

  lemma {:induction false} TotalExact(os: seq<Operand>, origin: seq<int>, tiles: seq<nat>)
    requires |origin| == |tiles| && ValidOperands(os, |tiles|) && AllSelect(os) && AllPositive(tiles)
    ensures TotalBytes(os, tiles) == TouchedBytes(os, origin, tiles)
  {
    if os != [] {
      var n := |os| - 1;
      TotalExact(os[..n], origin, tiles);
      assert SingleLoops(os[n]);
      var dims :| Selects(os[n], dims);
      EstimateExact(os[n], dims, origin, tiles);
    }
  }

  /** For such an operation the DTCM pass fails exactly when every tiling really touches too much. */
  method FitExactly(os: seq<Operand>, ranges: seq<nat>, l: Loops, ghost classes: seq<Class>, parallel: seq<nat>,
                    reduction: seq<nat>, hasMatrix: bool, limit: nat, ghost origin: seq<int>)
    returns (r: Outcome)
    requires |classes| == |ranges| == |origin| && Partition(l, classes) && ValidOperands(os, |ranges|) && AllPositive(ranges)
    requires AllSelect(os)
    ensures r.CannotFit? <==> forall t :: Tiling(t, ranges) ==> |t| == |origin| && 6 * TouchedBytes(os, origin, t) > 5 * limit
    ensures r.Tiled? ==> Tiling(r.tiles, ranges) && |r.tiles| == |origin| && 6 * TouchedBytes(os, origin, r.tiles) <= 5 * limit
  {
    r := FitLinear(os, ranges, l, classes, parallel, reduction, hasMatrix, limit);
    forall t | Tiling(t, ranges) ensures |t| == |origin| && TotalBytes(os, t) == TouchedBytes(os, origin, t) {
      assert forall i :: 0 <= i < |t| ==> Unit(ranges)[i] == 1;
      TotalExact(os, origin, t);
    }
  }

  // ----- the matrix product -----

  /** The operands A (m, k), B (k, n) and C (m, n) of a matrix product over the loops m, n, k. */
  function MatmulOperands(bytes: nat): seq<Operand> {
    var m, n, k := Linear([1, 0, 0], 0), Linear([0, 1, 0], 0), Linear([0, 0, 1], 0);
    [Operand(bytes, [m, k]), Operand(bytes, [k, n]), Operand(bytes, [m, n])]
  }

  /** Its estimate, in numbers. */
  method MatmulFootprint(bytes: nat, m: nat, n: nat, k: nat, ranges: seq<nat>) returns (r: nat)
    requires |ranges| == 3 && AllPositive(ranges) && m > 0 && n > 0 && k > 0
    ensures r == m * k * bytes + k * n * bytes + m * n * bytes
  {
    var os, tiles := MatmulOperands(bytes), [m, n, k];
    r := EstimateFootprint(os, tiles, ranges);
    PairBytes(os[0], 0, 2, tiles);
    PairBytes(os[1], 2, 1, tiles);
    PairBytes(os[2], 0, 1, tiles);
    assert os[..2] == [os[0], os[1]] && os[..2][..1] == [os[0]] && os[..2][..1][..0] == [];
    assert TotalBytes([], tiles) == 0 && TotalBytes([os[0]], tiles) == OperandBytes(os[0], tiles);
    assert TotalBytes(os[..2], tiles) == OperandBytes(os[0], tiles) + OperandBytes(os[1], tiles);
  }

  lemma PairBytes(o: Operand, a: nat, b: nat, tiles: seq<nat>)
    requires ValidOperand(o, |tiles|) && AllPositive(tiles) && a < |tiles| && b < |tiles|
    requires |o.index| == 2 && Picks(o.index[0].coeffs, a) && Picks(o.index[1].coeffs, b)
    ensures OperandBytes(o, tiles) == tiles[a] * tiles[b] * o.elementBytes
  {
    var x := seq(|tiles|, _ => 0);
    PickBounds(o.index[0].coeffs, a, x, tiles);
    PickBounds(o.index[1].coeffs, b, x, tiles);
    assert Spans(o, tiles) == [tiles[a], tiles[b]];
    assert Spans(o, tiles)[1..] == [tiles[b]];
    assert Product([tiles[b]]) == tiles[b] * Product([]);
  }
}
