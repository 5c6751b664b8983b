/** The footprint estimate of a linalg operation with linear index expressions, against the
    set of elements that a tile really touches. */
module Footprint {
  import opened TileSizes
  import opened DtcmSearch

  /** The index expression `sum coeffs[d] * i_d + constant`. */
  datatype Linear = Linear(coeffs: seq<int>, constant: int)

  /** One tensor operand: element size and one index expression for each dimension. */
  datatype Operand = Operand(elementBytes: nat, index: seq<Linear>)

  predicate ValidOperand(o: Operand, loops: nat) {
    forall k :: 0 <= k < |o.index| ==> |o.index[k].coeffs| == loops
  }

  predicate ValidOperands(os: seq<Operand>, loops: nat) {
    forall k :: 0 <= k < |os| ==> ValidOperand(os[k], loops)
  }

  // ----- what a tile touches -----

  function Dot(a: seq<int>, x: seq<int>): int
    requires |a| == |x|
  {
    if a == [] then 0 else a[0] * x[0] + Dot(a[1..], x[1..])
  }

  function Eval(e: Linear, x: seq<int>): int
    requires |e.coeffs| == |x|
  {
    Dot(e.coeffs, x) + e.constant
  }

  function Access(o: Operand, x: seq<int>): seq<int>
    requires ValidOperand(o, |x|)
  {
    seq(|o.index|, k requires 0 <= k < |o.index| => Eval(o.index[k], x))
  }

  ghost predicate InBox(lo: seq<int>, size: seq<nat>, x: seq<int>) {
    && |lo| == |size| == |x|
    && forall d :: 0 <= d < |x| ==> lo[d] <= x[d] < lo[d] + size[d]
  }

  ghost function Interval(lo: int, n: nat): (s: set<int>)
    ensures |s| == n
    ensures forall v :: v in s <==> lo <= v < lo + n
  {
    if n == 0 then {} else Interval(lo, n - 1) + {lo + n - 1}
  }

  /** All integer points of a box. */
  ghost function Box(lo: seq<int>, size: seq<nat>): set<seq<int>>
    requires |lo| == |size|
  {
    if lo == [] then {[]}
    else set v, rest | v in Interval(lo[0], size[0]) && rest in Box(lo[1..], size[1..]) :: [v] + rest
  }

  /** The elements of an operand that the tile at `origin` accesses. */
  ghost function Touched(o: Operand, origin: seq<int>, tiles: seq<nat>): set<seq<int>>
    requires |origin| == |tiles| && ValidOperand(o, |tiles|)
  {
    BoxPoints(origin, tiles);
    set x | x in Box(origin, tiles) :: Access(o, x)
  }

  lemma {:induction false} BoxPoints(lo: seq<int>, size: seq<nat>)
    requires |lo| == |size|
    ensures forall x :: x in Box(lo, size) <==> InBox(lo, size, x)
  {
    if lo != [] {
      BoxPoints(lo[1..], size[1..]);
      forall x ensures x in Box(lo, size) <==> InBox(lo, size, x) {
        if x in Box(lo, size) {
          var v, rest :| v in Interval(lo[0], size[0]) && rest in Box(lo[1..], size[1..]) && x == [v] + rest;
          PointCons(lo, size, v, rest);
        }
        if InBox(lo, size, x) {
          PointTail(lo, size, x);
          assert x == [x[0]] + x[1..] && x[0] in Interval(lo[0], size[0]) && x[1..] in Box(lo[1..], size[1..]);
        }
      }
    }
  }

  lemma PointCons(lo: seq<int>, size: seq<nat>, v: int, rest: seq<int>)
    requires |lo| == |size| > 0 && lo[0] <= v < lo[0] + size[0] && InBox(lo[1..], size[1..], rest)
    ensures InBox(lo, size, [v] + rest)
  {
    var x := [v] + rest;
    assert forall d :: 1 <= d < |x| ==> x[d] == rest[d - 1] && lo[d] == lo[1..][d - 1] && size[d] == size[1..][d - 1];
  }

  lemma PointTail(lo: seq<int>, size: seq<nat>, x: seq<int>)
    requires |lo| == |size| > 0 && InBox(lo, size, x)
    ensures lo[0] <= x[0] < lo[0] + size[0] && InBox(lo[1..], size[1..], x[1..])
  {
  }

  // ----- counting -----

  function Product(s: seq<nat>): nat {
    if s == [] then 1 else s[0] * Product(s[1..])
  }

  ghost function Prefixed(v: int, b: set<seq<int>>): set<seq<int>> {
    set r | r in b :: [v] + r
  }

  lemma {:induction false} PrefixedSize(v: int, b: set<seq<int>>)
    ensures |Prefixed(v, b)| == |b|
  {
    if b == {} {
      assert Prefixed(v, b) == {};
    } else {
      var r :| r in b;
      PrefixedSize(v, b - {r});
      assert Prefixed(v, b) == Prefixed(v, b - {r}) + {[v] + r};
      assert [v] + r !in Prefixed(v, b - {r}) by {
        assert forall q :: q in b - {r} ==> ([v] + q)[1..] == q && ([v] + r)[1..] == r;
      }
    }
  }

  ghost function Layers(vs: set<int>, b: set<seq<int>>): set<seq<int>> {
    set v, r | v in vs && r in b :: [v] + r
  }

  lemma AddLayer(vs: set<int>, v: int, b: set<seq<int>>)
    requires v !in vs
    ensures |Layers(vs + {v}, b)| == |Layers(vs, b)| + |b|
  {
    PrefixedSize(v, b);
    assert Layers(vs + {v}, b) == Layers(vs, b) + Prefixed(v, b);
    forall x | x in Layers(vs, b) ensures x !in Prefixed(v, b) {
      assert x[0] in vs;
    }
  }

  /** `k` added up `n` times. */
  function Times(n: nat, k: nat): nat {
    if n == 0 then 0 else Times(n - 1, k) + k
  }

  lemma {:induction false} TimesIs(n: nat, k: nat)
    ensures Times(n, k) == n * k
  {
    if n > 0 {
      TimesIs(n - 1, k);
      OneMoreTime(n - 1, k);
    }
  }

  lemma OneMoreTime(n: nat, k: nat)
    ensures (n + 1) * k == n * k + k
  {
  }

  lemma {:induction false} LayersSize(lo: int, n: nat, b: set<seq<int>>)
    ensures |Layers(Interval(lo, n), b)| == Times(n, |b|)
  {
    if n == 0 {
      assert Layers({}, b) == {};
    } else {
      LayersSize(lo, n - 1, b);
      AddLayer(Interval(lo, n - 1), lo + n - 1, b);
    }
  }

  /** A box holds as many points as the product of its sides. */
  lemma {:induction false} BoxSize(lo: seq<int>, size: seq<nat>)
    requires |lo| == |size|
    ensures |Box(lo, size)| == Product(size)
  {
    if lo != [] {
      var rest := Box(lo[1..], size[1..]);
      BoxSize(lo[1..], size[1..]);
      LayersSize(lo[0], size[0], rest);
      TimesIs(size[0], |rest|);
      assert Box(lo, size) == Layers(Interval(lo[0], size[0]), rest);
    }
  }

  lemma {:induction false} SubsetSize<T>(a: set<T>, b: set<T>)
    requires a <= b
    ensures |a| <= |b|
  {
    if a != {} {
      var x :| x in a;
      SubsetSize(a - {x}, b - {x});
    }
  }

  // ----- the estimate -----

  /** The smallest value of `coeff * x` for `0 <= x < tile`. */
  function Low(coeff: int, tile: nat): int {
    if tile == 0 || coeff >= 0 then 0 else coeff * (tile - 1)
  }

  function High(coeff: int, tile: nat): int {
    if tile == 0 || coeff <= 0 then 0 else coeff * (tile - 1)
  }

  /** `getBoundForAffineExpr` on a linear expression with every loop between 0 and its tile. */
  function LowerBound(coeffs: seq<int>, tiles: seq<nat>): int
    requires |coeffs| == |tiles|
  {
    if coeffs == [] then 0 else Low(coeffs[0], tiles[0]) + LowerBound(coeffs[1..], tiles[1..])
  }

  function UpperBound(coeffs: seq<int>, tiles: seq<nat>): int
    requires |coeffs| == |tiles|
  {
    if coeffs == [] then 0 else High(coeffs[0], tiles[0]) + UpperBound(coeffs[1..], tiles[1..])
  }

  lemma {:induction false} BoundsOrdered(coeffs: seq<int>, tiles: seq<nat>)
    requires |coeffs| == |tiles|
    ensures LowerBound(coeffs, tiles) <= 0 <= UpperBound(coeffs, tiles)
  {
    if coeffs != [] {
      BoundsOrdered(coeffs[1..], tiles[1..]);
    }
  }

  function Span(e: Linear, tiles: seq<nat>): (s: nat)
    requires |e.coeffs| == |tiles|
    ensures s >= 1
  {
    BoundsOrdered(e.coeffs, tiles);
    UpperBound(e.coeffs, tiles) + e.constant - (LowerBound(e.coeffs, tiles) + e.constant) + 1
  }

  function Spans(o: Operand, tiles: seq<nat>): seq<nat>
    requires ValidOperand(o, |tiles|)
  {
    seq(|o.index|, k requires 0 <= k < |o.index| => Span(o.index[k], tiles))
  }

  function OperandBytes(o: Operand, tiles: seq<nat>): nat
    requires ValidOperand(o, |tiles|)
  {
    Product(Spans(o, tiles)) * o.elementBytes
  }

  function TotalBytes(os: seq<Operand>, tiles: seq<nat>): nat
    requires ValidOperands(os, |tiles|)
  {
    if os == [] then 0 else TotalBytes(os[..|os| - 1], tiles) + OperandBytes(os[|os| - 1], tiles)
  }

  lemma {:induction false} ProductAppend(s: seq<nat>, x: nat)
    ensures Product(s + [x]) == Product(s) * x
  {
    if s != [] {
      ProductAppend(s[1..], x);
      assert (s + [x])[1..] == s[1..] + [x];
      MulAssoc(s[0], Product(s[1..]), x);
    } else {
      assert (s + [x])[1..] == [];
    }
  }

  lemma MulAssoc(a: nat, b: nat, c: nat)
    ensures a * (b * c) == a * b * c
  {
  }

  /** A tile size of zero leaves the loop untiled. */
  function Resolved(tiles: seq<nat>, ranges: seq<nat>): seq<nat>
    requires |tiles| == |ranges|
  {
    seq(|tiles|, i requires 0 <= i < |tiles| => if tiles[i] == 0 then ranges[i] else tiles[i])
  }

  /** `estimateLinalgOperandFootprint`: the product of the spans of the index expressions. */
  method EstimateOperand(o: Operand, tiles: seq<nat>, ranges: seq<nat>) returns (bytes: nat)
    requires ValidOperand(o, |tiles|) && |tiles| == |ranges| && AllPositive(ranges)
    ensures bytes == OperandBytes(o, Resolved(tiles, ranges))
  {
    var resolved := tiles;
    for i := 0 to |tiles|
      invariant |resolved| == |tiles|
      invariant forall j :: 0 <= j < |tiles| ==>
                  resolved[j] == if j < i && tiles[j] == 0 then ranges[j] else tiles[j]
    {
      if resolved[i] == 0 {
        resolved := resolved[i := ranges[i]];
      }
    }
    assert resolved == Resolved(tiles, ranges);
    var elements := 1;
    ghost var spans := Spans(o, resolved);
    for k := 0 to |o.index|
      invariant elements == Product(spans[..k])
    {
      assert spans[..k + 1] == spans[..k] + [spans[k]];
      ProductAppend(spans[..k], spans[k]);
      elements := elements * Span(o.index[k], resolved);
    }
    assert spans[..|spans|] == spans;
    bytes := elements * o.elementBytes;
  }

  /** Every loop without a tile size runs over its whole range. */
  predicate Untiled(tiles: seq<nat>, ranges: seq<nat>, full: seq<nat>)
    requires |tiles| == |ranges| == |full|
  {
    forall i :: 0 <= i < |full| ==> full[i] == if tiles[i] > 0 then tiles[i] else ranges[i]
  }

  /** `estimateFootprint`: the sum over the operands. */
  method EstimateFootprint(os: seq<Operand>, tiles: seq<nat>, ranges: seq<nat>) returns (bytes: nat)
    requires ValidOperands(os, |tiles|) && |tiles| == |ranges| && AllPositive(ranges)
    ensures bytes == TotalBytes(os, Resolved(tiles, ranges))
    ensures AllPositive(tiles) ==> bytes == TotalBytes(os, tiles)
    ensures forall full: seq<nat> :: |full| == |tiles| && Untiled(tiles, ranges, full) ==> bytes == TotalBytes(os, full)
  {
    bytes := 0;
    ghost var resolved := Resolved(tiles, ranges);
    for k := 0 to |os|
      invariant bytes == TotalBytes(os[..k], resolved)
    {
      assert os[..k + 1][..k] == os[..k];
      var operand := EstimateOperand(os[k], tiles, ranges);
      bytes := bytes + operand;
    }
    assert os[..|os|] == os;
    assert AllPositive(tiles) ==> resolved == tiles;
    forall full: seq<nat> | |full| == |tiles| && Untiled(tiles, ranges, full) ensures bytes == TotalBytes(os, full) {
      assert full == resolved;
    }
  }

  // ----- the estimate is an upper bound -----

  lemma TermBounds(coeff: int, tile: nat, x: int)
    requires 0 <= x < tile
    ensures Low(coeff, tile) <= coeff * x <= High(coeff, tile)
  {
  }

  lemma MulMonotone(c: nat, a: nat, b: nat)
    requires a <= b
    ensures c * a <= c * b
  {
  }

  lemma {:induction false} DotBounds(coeffs: seq<int>, tiles: seq<nat>, origin: seq<int>, x: seq<int>)
    requires |coeffs| == |tiles| && InBox(origin, tiles, x)
    ensures Dot(coeffs, origin) + LowerBound(coeffs, tiles) <= Dot(coeffs, x)
                                <= Dot(coeffs, origin) + UpperBound(coeffs, tiles)
  {
    if coeffs != [] {
      DotBounds(coeffs[1..], tiles[1..], origin[1..], x[1..]);
      TermBounds(coeffs[0], tiles[0], x[0] - origin[0]);
      assert coeffs[0] * (x[0] - origin[0]) == coeffs[0] * x[0] - coeffs[0] * origin[0];
    }
  }

  /** The estimate is never below the bytes of the distinct elements that a tile of that size
      touches, wherever its origin is. */
  lemma EstimateCoversTouched(o: Operand, origin: seq<int>, tiles: seq<nat>)
    requires |origin| == |tiles| && ValidOperand(o, |tiles|)
    ensures |Touched(o, origin, tiles)| * o.elementBytes <= OperandBytes(o, tiles)
  {
    var lo := seq(|o.index|, k requires 0 <= k < |o.index| =>
      Eval(o.index[k], origin) + LowerBound(o.index[k].coeffs, tiles));
    var spans := Spans(o, tiles);
    BoxPoints(origin, tiles);
    BoxPoints(lo, spans);
    forall y | y in Touched(o, origin, tiles) ensures y in Box(lo, spans) {
      var x :| x in Box(origin, tiles) && y == Access(o, x);
      forall k | 0 <= k < |y| ensures lo[k] <= y[k] < lo[k] + spans[k] {
        DotBounds(o.index[k].coeffs, tiles, origin, x);
      }
      assert InBox(lo, spans, y);
    }
    SubsetSize(Touched(o, origin, tiles), Box(lo, spans));
    BoxSize(lo, spans);
    MulMonotone(o.elementBytes, |Touched(o, origin, tiles)|, Product(spans));
  }

  ghost function TouchedBytes(os: seq<Operand>, origin: seq<int>, tiles: seq<nat>): nat
    requires |origin| == |tiles| && ValidOperands(os, |tiles|)
  {
    if os == [] then 0
    else var o := os[|os| - 1];
         TouchedBytes(os[..|os| - 1], origin, tiles) + |Touched(o, origin, tiles)| * o.elementBytes
  }

  lemma {:induction false} TotalCoversTouched(os: seq<Operand>, origin: seq<int>, tiles: seq<nat>)
    requires |origin| == |tiles| && ValidOperands(os, |tiles|)
    ensures TouchedBytes(os, origin, tiles) <= TotalBytes(os, tiles)
  {
    if os != [] {
      TotalCoversTouched(os[..|os| - 1], origin, tiles);
      EstimateCoversTouched(os[|os| - 1], origin, tiles);
    }
  }

  // ----- the estimate is monotone -----

  lemma {:induction false} BoundsGrow(coeffs: seq<int>, s: seq<nat>, t: seq<nat>)
    requires |coeffs| == |s| && AllPositive(s) && Below(s, t)
    ensures LowerBound(coeffs, t) <= LowerBound(coeffs, s) && UpperBound(coeffs, s) <= UpperBound(coeffs, t)
  {
    if coeffs != [] {
      BoundsGrow(coeffs[1..], s[1..], t[1..]);
      TermBounds(coeffs[0], t[0], s[0] - 1);
    }
  }

  lemma {:induction false} ProductGrows(s: seq<nat>, t: seq<nat>)
    requires Below(s, t)
    ensures Product(s) <= Product(t)
  {
    if s != [] {
      ProductGrows(s[1..], t[1..]);
      MulMonotone(s[0], Product(s[1..]), Product(t[1..]));
      MulMonotone(Product(t[1..]), s[0], t[0]);
    }
  }

  lemma OperandBytesGrow(o: Operand, s: seq<nat>, t: seq<nat>)
    requires ValidOperand(o, |s|) && AllPositive(s) && Below(s, t)
    ensures OperandBytes(o, s) <= OperandBytes(o, t)
  {
    forall k | 0 <= k < |o.index| ensures Spans(o, s)[k] <= Spans(o, t)[k] {
      BoundsGrow(o.index[k].coeffs, s, t);
    }
    ProductGrows(Spans(o, s), Spans(o, t));
    MulMonotone(o.elementBytes, Product(Spans(o, s)), Product(Spans(o, t)));
  }

  lemma {:induction false} TotalBytesGrow(os: seq<Operand>, s: seq<nat>, t: seq<nat>)
    requires ValidOperands(os, |s|) && AllPositive(s) && Below(s, t)
    ensures TotalBytes(os, s) <= TotalBytes(os, t)
  {
    if os != [] {
      TotalBytesGrow(os[..|os| - 1], s, t);
      OperandBytesGrow(os[|os| - 1], s, t);
    }
  }

  // ----- the DTCM pass on a linear operation -----

  function Estimator(os: seq<Operand>, n: nat): seq<nat> -> nat
    requires ValidOperands(os, n)
  {
    (tiles: seq<nat>) => if |tiles| == n then TotalBytes(os, tiles) else 0
  }

  /** The pass on an operation with linear index expressions is sound and complete: it finds
      a tiling whose touched bytes fit, or there is no tiling whose estimate fits. */
  method FitLinear(os: seq<Operand>, ranges: seq<nat>, l: Loops, ghost classes: seq<Class>, parallel: seq<nat>,
                   reduction: seq<nat>, hasMatrix: bool, limit: nat)
    returns (r: Outcome)
    requires |classes| == |ranges| && Partition(l, classes) && ValidOperands(os, |ranges|) && AllPositive(ranges)
    ensures r.CannotFit? <==> forall t :: Tiling(t, ranges) ==> 6 * TotalBytes(os, t) > 5 * limit
    ensures r.Tiled? ==> Tiling(r.tiles, ranges)
    ensures r.Tiled? ==>
              forall origin: seq<int> :: |origin| == |ranges| ==> 6 * TouchedBytes(os, origin, r.tiles) <= 5 * limit
  {
    var footprint := Estimator(os, |ranges|);
    r := DtcmPass(ranges, l, classes, parallel, reduction, hasMatrix, footprint, limit);
    TilesAreTilings(ranges, Recovered(l, parallel, reduction), classes, Cap(hasMatrix),
                    if r.Tiled? then r.tiles else []);
    EstimatorMonotone(os, |ranges|);
    UnitTilingDecides(footprint, ranges, limit);
    assert forall t :: Tiling(t, ranges) ==> footprint(t) == TotalBytes(os, t);
    if r.Tiled? {
      forall origin: seq<int> | |origin| == |ranges| ensures 6 * TouchedBytes(os, origin, r.tiles) <= 5 * limit {
        TotalCoversTouched(os, origin, r.tiles);
      }
    }
  }

  lemma EstimatorMonotone(os: seq<Operand>, n: nat)
    requires ValidOperands(os, n)
    ensures Monotone(Estimator(os, n), n)
  {
    forall s, t | |s| == n && AllPositive(s) && Below(s, t)
      ensures Estimator(os, n)(s) <= Estimator(os, n)(t)
    {
      TotalBytesGrow(os, s, t);
    }
  }
}
