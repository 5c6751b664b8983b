/** Tile size selection: loop classification, the register pass and the DTCM search of
    CoralNPUTileSizeSelection.cpp.  Loops are numbered 0 .. |ranges| - 1; the safety factor
    1.2 is the fraction 6/5. */
module TileSizes {

  // ----- loop classification -----

  /** The four lists of loop numbers, in ascending order. */
  datatype Loops = Loops(vector: seq<nat>, unroll: seq<nat>, reduction: seq<nat>, batch: seq<nat>)

  datatype Class = Vector | Unroll | Reduction | Batch

  /** What the classifier looks at: the iterator type of each loop and, for a linalg
      operation with at least two inputs, the loops its first two operands depend on. */
  datatype Operation = Operation(
    isReduction: seq<bool>,
    twoInputLinalg: bool,
    inLhs: seq<bool>,
    inRhs: seq<bool>,
    depthwise: bool)

  predicate ValidOperation(op: Operation) {
    |op.inLhs| == |op.isReduction| == |op.inRhs|
  }

  function ClassOf(op: Operation, i: nat): Class
    requires ValidOperation(op) && i < |op.isReduction|
  {
    if op.isReduction[i] then Reduction
    else if !op.twoInputLinalg then Vector
    else if op.inLhs[i] && op.inRhs[i] then (if op.depthwise then Vector else Batch)
    else if !op.inLhs[i] && op.inRhs[i] then Unroll
    else Vector
  }

  function Members(l: Loops, c: Class): seq<nat> {
    match c
    case Vector => l.vector
    case Unroll => l.unroll
    case Reduction => l.reduction
    case Batch => l.batch
  }

  predicate Ascending(s: seq<nat>) {
    forall i, j :: 0 <= i < j < |s| ==> s[i] < s[j]
  }

  predicate InClass(l: Loops, c: Class, i: nat) {
    i in Members(l, c)
  }

  lemma AppendAscending(s: seq<nat>, x: nat)
    requires Ascending(s) && forall y :: y in s ==> y < x
    ensures Ascending(s + [x])
  {
    assert forall i :: 0 <= i < |s| ==> s[i] in s;
  }

  /** Every loop is in the list of one class and in no other. */
  ghost predicate Partition(l: Loops, classes: seq<Class>) {
    && (forall c :: Ascending(Members(l, c)))
    && (forall c, i: nat :: InClass(l, c, i) ==> i < |classes| && classes[i] == c)
    && (forall i: nat :: i < |classes| ==> InClass(l, classes[i], i))
  }

  function Classes(op: Operation): seq<Class>
    requires ValidOperation(op)
  {
    seq(|op.isReduction|, i requires 0 <= i < |op.isReduction| => ClassOf(op, i))
  }

  /** `refineLinalgOpLoops`: distributes the parallel loops of a two-input operation. */
  method RefineLinalgOpLoops(op: Operation, parallel: seq<nat>)
    returns (vector: seq<nat>, unroll: seq<nat>, batch: seq<nat>)
    requires ValidOperation(op) && op.twoInputLinalg && Ascending(parallel)
    requires forall k :: 0 <= k < |parallel| ==> parallel[k] < |op.isReduction| && !op.isReduction[parallel[k]]
    ensures Ascending(vector) && Ascending(unroll) && Ascending(batch)
    ensures forall x: nat :: x in vector <==> x in parallel && x < |op.isReduction| && ClassOf(op, x) == Vector
    ensures forall x: nat :: x in unroll <==> x in parallel && x < |op.isReduction| && ClassOf(op, x) == Unroll
    ensures forall x: nat :: x in batch <==> x in parallel && x < |op.isReduction| && ClassOf(op, x) == Batch
  {
    vector, unroll, batch := [], [], [];
    ghost var n := |op.isReduction|;
    for k := 0 to |parallel|
      invariant Ascending(vector) && Ascending(unroll) && Ascending(batch)
      invariant forall x: nat :: x in vector <==> x in parallel[..k] && x < n && ClassOf(op, x) == Vector
      invariant forall x: nat :: x in unroll <==> x in parallel[..k] && x < n && ClassOf(op, x) == Unroll
      invariant forall x: nat :: x in batch <==> x in parallel[..k] && x < n && ClassOf(op, x) == Batch
    {
      var p := parallel[k];
      assert parallel[..k + 1] == parallel[..k] + [p];
      AppendAscending(vector, p);
      AppendAscending(unroll, p);
      AppendAscending(batch, p);
      if op.inLhs[p] && op.inRhs[p] {
        if op.depthwise {
          vector := vector + [p];
        } else {
          batch := batch + [p];
        }
      } else if op.inLhs[p] {
        vector := vector + [p];
      } else if op.inRhs[p] {
        unroll := unroll + [p];
      } else {
        vector := vector + [p];
      }
    }
    assert parallel[..|parallel|] == parallel;
  }

  /** `classifyLoops`: reductions are split off, then the parallel loops are refined. */
  method ClassifyLoops(op: Operation) returns (l: Loops)
    requires ValidOperation(op)
    ensures Partition(l, Classes(op))
  {
    var n := |op.isReduction|;
    var parallel: seq<nat>, reduction: seq<nat> := [], [];
    for i := 0 to n
      invariant Ascending(parallel) && Ascending(reduction)
      invariant forall x: nat :: x in reduction <==> x < i && op.isReduction[x]
      invariant forall x: nat :: x in parallel <==> x < i && !op.isReduction[x]
    {
      AppendAscending(reduction, i);
      AppendAscending(parallel, i);
      if op.isReduction[i] {
        reduction := reduction + [i];
      } else {
        parallel := parallel + [i];
      }
    }
    if !op.twoInputLinalg {
      l := Loops(parallel, [], reduction, []);
    } else {
      assert forall k :: 0 <= k < |parallel| ==> parallel[k] in parallel;
      var vector, unroll, batch := RefineLinalgOpLoops(op, parallel);
      l := Loops(vector, unroll, reduction, batch);
    }
    IsPartition(op, l);
  }

  lemma IsPartition(op: Operation, l: Loops)
    requires ValidOperation(op) && forall c :: Ascending(Members(l, c))
    requires forall x: nat :: x in l.vector <==> x < |op.isReduction| && ClassOf(op, x) == Vector
    requires forall x: nat :: x in l.unroll <==> x < |op.isReduction| && ClassOf(op, x) == Unroll
    requires forall x: nat :: x in l.reduction <==> x < |op.isReduction| && ClassOf(op, x) == Reduction
    requires forall x: nat :: x in l.batch <==> x < |op.isReduction| && ClassOf(op, x) == Batch
    ensures Partition(l, Classes(op))
  {
  }

  // ----- the register pass -----

  function Min(a: int, b: int): int { if a < b then a else b }

  function Max(a: int, b: int): int { if a < b then b else a }

  datatype Alignments = Alignments(vector: nat, unroll: nat, reduction: nat)

  /** Vector registers used by a tile: one for the left operand, `u` for the right one, and
      `m` rows of `u` accumulators. */
  function RegistersUsed(m: nat, u: nat): nat {
    1 + u + m * u
  }

  /** The number of vectors of `width` elements that cover `size` elements. */
  function DivideCeil(size: nat, width: nat): nat
    requires width > 0
  {
    (size + width - 1) / width
  }

  ghost predicate CoversUnroll(l: Loops, ranges: seq<nat>, width: nat, u: nat)
  {
    forall i: nat :: i in l.unroll && i < |ranges| ==> ranges[i] <= u * width
  }

  lemma DivideCeilCovers(size: nat, width: nat, u: nat)
    requires width > 0
    ensures DivideCeil(size, width) <= u <==> size <= u * width
  {
    DivisionBound(size + width - 1, width, u + 1);
    assert (u + 1) * width == u * width + width;
  }

  lemma BudgetDivision(registers: int, m: nat, u: nat)
    ensures RegistersUsed(m, u) <= registers <==> u <= (registers - 1) / (1 + m)
  {
    DivisionBound(registers - 1, 1 + m, u);
    assert u * (1 + m) == u + m * u;
  }

  lemma DivisionBound(x: int, d: nat, u: nat)
    requires d > 0
    ensures u <= x / d <==> u * d <= x
  {
    DivisionParts(x, d);
    assert u * d == d * u;
    if u <= x / d {
      if u < x / d { MulStep(d, u, x / d); }
    } else {
      MulStep(d, x / d, u);
    }
  }

  lemma DivisionParts(x: int, d: nat)
    requires d > 0
    ensures x == d * (x / d) + x % d && 0 <= x % d < d
  {
  }

  /** What `resolveAlignments` promises.  The automatic unroll factor fits the register budget
      exactly when one vector does; it is then the largest that fits or the least that covers every
      unroll loop, and 1 otherwise. */
  ghost predicate Resolved(width: nat, registers: int, l: Loops, ranges: seq<nat>, parallelOpt: nat, given: Alignments,
                           a: Alignments)
    requires width > 0
  {
    && a.reduction == given.reduction
    && (l.unroll == [] ==>
          && a.unroll == 0
          && a.vector == (if parallelOpt != 0 then parallelOpt else if given.vector != 0 then given.vector else width))
    && (l.unroll != [] ==> a.vector == (if given.vector != 0 then given.vector else Min(width, 8)))
    && (l.unroll != [] && given.unroll != 0 ==> a.unroll == given.unroll)
    && (l.unroll != [] && given.unroll == 0 ==>
          var u := a.unroll / width;
          && a.unroll == width * u && u >= 1
          && (RegistersUsed(a.vector, u) <= registers <==> registers >= a.vector + 2)
          && (u > 1 ==> RegistersUsed(a.vector, u) <= registers && !CoversUnroll(l, ranges, width, u - 1))
          && (registers >= a.vector + 2 && !CoversUnroll(l, ranges, width, u) ==> RegistersUsed(a.vector, u + 1) > registers))
  }

  /** The number of vectors that each unroll loop needs. */
  function Needs(l: Loops, ranges: seq<nat>, width: nat): (r: seq<nat>)
    requires width > 0 && forall i: nat :: i in l.unroll ==> i < |ranges|
  {
    seq(|l.unroll|, j requires 0 <= j < |l.unroll| => NeedOf(ranges, width, l.unroll[j]))
  }

  function NeedOf(ranges: seq<nat>, width: nat, i: nat): nat
    requires width > 0
  {
    if i < |ranges| then DivideCeil(ranges[i], width) else 0
  }

  lemma NeedPositive(l: Loops, ranges: seq<nat>, width: nat, j: nat)
    requires width > 0 && (forall i: nat :: i in l.unroll ==> i < |ranges| && ranges[i] > 0) && j < |l.unroll|
    ensures Needs(l, ranges, width)[j] > 0
  {
    assert l.unroll[j] in l.unroll;
    DivideCeilCovers(ranges[l.unroll[j]], width, 0);
  }

  /** The largest of them, and a loop that needs so many. */
  method LongestUnroll(l: Loops, ranges: seq<nat>, width: nat) returns (longest: nat, ghost at: nat)
    requires width > 0 && l.unroll != []
    requires forall i: nat :: i in l.unroll ==> i < |ranges| && ranges[i] > 0
    ensures longest > 0 && at < |l.unroll| && Needs(l, ranges, width)[at] == longest
    ensures forall j :: 0 <= j < |l.unroll| ==> Needs(l, ranges, width)[j] <= longest
  {
    ghost var needs := Needs(l, ranges, width);
    longest, at := 0, 0;
    for k := 0 to |l.unroll|
      invariant at < |l.unroll| && (if k == 0 then longest == 0 else needs[at] == longest)
      invariant forall j :: 0 <= j < k ==> needs[j] <= longest
    {
      assert l.unroll[k] in l.unroll;
      var vectors := DivideCeil(ranges[l.unroll[k]], width);
      assert vectors == NeedOf(ranges, width, l.unroll[k]) == needs[k];
      if k == 0 || longest < vectors { at := k; }
      longest := Max(longest, vectors);
    }
    NeedPositive(l, ranges, width, at);
  }

  /** `resolveAlignments`.  An alignment of zero asks for automatic choice. */
  method ResolveAlignments(width: nat, registers: int, l: Loops, ranges: seq<nat>, parallelOpt: nat,
                           given: Alignments)
    returns (a: Alignments)
    requires width > 0
    requires forall i: nat :: i in l.unroll ==> i < |ranges| && ranges[i] > 0
    ensures Resolved(width, registers, l, ranges, parallelOpt, given, a)
  {
    if l.unroll == [] {
      a := Alignments(if parallelOpt != 0 then parallelOpt else if given.vector != 0 then given.vector else width,
                      0, given.reduction);
      return;
    }
    var vector := if given.vector == 0 then Min(width, 8) else given.vector;
    if given.unroll != 0 {
      a := Alignments(vector, given.unroll, given.reduction);
      return;
    }
    var limit := Max(1, (registers - 1) / (1 + vector));
    var longest, at := LongestUnroll(l, ranges, width);
    var u: nat := Min(limit, longest);
    a := Alignments(vector, width * u, given.reduction);
    UnrollResolved(width, registers, l, ranges, vector, u, limit, longest, at);
    UnrollFactor(width, u);
  }

  /** The smaller of the number that fits and the number that is needed. */
  lemma UnrollResolved(width: nat, registers: int, l: Loops, ranges: seq<nat>, vector: nat, u: nat, limit: int, longest: nat, at: nat)
    requires width > 0 && at < |l.unroll| && (forall i: nat :: i in l.unroll ==> i < |ranges|) && longest > 0
    requires Needs(l, ranges, width)[at] == longest && forall j :: 0 <= j < |l.unroll| ==> Needs(l, ranges, width)[j] <= longest
    requires limit == Max(1, (registers - 1) / (1 + vector)) && u == Min(limit, longest)
    ensures u >= 1 && (RegistersUsed(vector, u) <= registers <==> registers >= vector + 2)
    ensures u > 1 ==> RegistersUsed(vector, u) <= registers && !CoversUnroll(l, ranges, width, u - 1)
    ensures registers >= vector + 2 && !CoversUnroll(l, ranges, width, u) ==> RegistersUsed(vector, u + 1) > registers
  {
    BudgetDivision(registers, vector, u);
    BudgetDivision(registers, vector, 1);
    BudgetDivision(registers, vector, u + 1);
    if u == longest { AllCovered(l, ranges, width, u); }
    if u > 1 { NotCovered(l, ranges, width, u - 1, at); }
  }

  /** The largest number of vectors covers every unrolled loop. */
  lemma AllCovered(l: Loops, ranges: seq<nat>, width: nat, u: nat)
    requires width > 0 && forall i: nat :: i in l.unroll ==> i < |ranges|
    requires forall j :: 0 <= j < |l.unroll| ==> Needs(l, ranges, width)[j] <= u
    ensures CoversUnroll(l, ranges, width, u)
  {
    forall i: nat | i in l.unroll ensures ranges[i] <= u * width {
      var j :| 0 <= j < |l.unroll| && l.unroll[j] == i;
      assert Needs(l, ranges, width)[j] <= u;
      DivideCeilCovers(ranges[i], width, u);
    }
  }

  lemma NotCovered(l: Loops, ranges: seq<nat>, width: nat, u: nat, at: nat)
    requires width > 0 && at < |l.unroll| && forall i: nat :: i in l.unroll ==> i < |ranges|
    requires Needs(l, ranges, width)[at] > u
    ensures !CoversUnroll(l, ranges, width, u)
  {
    assert l.unroll[at] in l.unroll;
    DivideCeilCovers(ranges[l.unroll[at]], width, u);
  }

  lemma UnrollFactor(width: nat, u: nat)
    requires width > 0
    ensures width * u / width == u
  {
    var q := width * u / width;
    DivisionParts(width * u, width);
    if q < u {
      MulStep(width, q, u);
    } else if u < q {
      MulStep(width, u, q);
    }
  }

  lemma MulStep(x: nat, a: int, b: int)
    requires a < b
    ensures x * a + x <= x * b
    decreases b - a
  {
    if a + 1 < b {
      MulStep(x, a, b - 1);
    }
  }
}
