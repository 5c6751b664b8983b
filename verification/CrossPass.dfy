/** Register tiles against DTCM tiles: what the two passes promise each other. */
module CrossPass {
  import opened TileSizes
  import opened DtcmSearch

  /** The register tile of one loop. */
  function RegisterTile(l: Loops, c: Class, i: nat, range: nat, width: nat, a: Alignments, hasMatrix: bool): nat {
    if c == Reduction then Min(range, a.reduction)
    else if l.unroll == [] then
      if c == Vector && l.vector != [] && i == l.vector[|l.vector| - 1] then Min(range, width) else 1
    else if c == Vector then Min(range, a.vector)
    else if c == Unroll then (var r := Min(range, a.unroll); if r == 2 then 1 else r)
    else Min(range, if hasMatrix then 1 else a.vector)
  }

  /** The register pass: fills the parallel and the reduction tile lists, class by class. */
  method RegisterPass(ranges: seq<nat>, l: Loops, ghost classes: seq<Class>, width: nat, registers: int,
                      parallelOpt: nat, given: Alignments, hasMatrix: bool)
    returns (parallel: seq<nat>, reduction: seq<nat>, a: Alignments)
    requires width > 0 && |classes| == |ranges| && Partition(l, classes)
    requires forall i :: 0 <= i < |ranges| ==> ranges[i] > 0
    ensures |parallel| == |reduction| == |ranges|
    ensures forall i: nat :: i < |ranges| ==>
              parallel[i] == if classes[i] == Reduction then 0
                             else RegisterTile(l, classes[i], i, ranges[i], width, a, hasMatrix)
    ensures forall i: nat :: i < |ranges| ==>
              reduction[i] == if classes[i] == Reduction then Min(ranges[i], a.reduction) else 0
    ensures RegistersInRange(ranges, classes, parallel, reduction)
    ensures hasMatrix ==> a == Alignments(4, 4, 1)
    ensures !hasMatrix ==> Resolved(width, registers, l, ranges, parallelOpt, given, a)
  {
    PartitionIndexes(l, classes, Vector);
    PartitionIndexes(l, classes, Unroll);
    PartitionIndexes(l, classes, Batch);
    PartitionIndexes(l, classes, Reduction);
    if hasMatrix {
      a := Alignments(4, 4, 1);
    } else {
      forall i: nat | i in l.unroll ensures i < |ranges| && ranges[i] > 0 { assert InClass(l, Unroll, i); }
      a := ResolveAlignments(width, registers, l, ranges, parallelOpt, given);
    }
    parallel := seq(|ranges|, _ => 0);
    reduction := seq(|ranges|, _ => 0);
    if l.unroll == [] {
      parallel := FillLastVector(l, classes, ranges, width, parallel);
      parallel := FillClass(l, classes, Batch, ranges, 1, parallel);
    } else {
      parallel := FillClass(l, classes, Vector, ranges, a.vector, parallel);
      parallel := FillUnroll(l, classes, ranges, a.unroll, parallel);
      parallel := FillClass(l, classes, Batch, ranges, if hasMatrix then 1 else a.vector, parallel);
    }
    reduction := FillClass(l, classes, Reduction, ranges, a.reduction, reduction);
    if l.unroll == [] { NoMembers(l, classes, Unroll); }
    forall i | 0 <= i < |ranges| ensures RegisterSize(classes[i], i, parallel, reduction) <= ranges[i] {
      TileInRange(l, classes[i], i, ranges[i], width, a, hasMatrix);
    }
  }

  lemma TileInRange(l: Loops, c: Class, i: nat, range: nat, width: nat, a: Alignments, hasMatrix: bool)
    requires range > 0
    ensures RegisterTile(l, c, i, range, width, a, hasMatrix) <= range
  {
  }

  lemma MembersAre(l: Loops, classes: seq<Class>, c: Class)
    requires Partition(l, classes)
    ensures forall i: nat :: i < |classes| ==> (i in Members(l, c) <==> classes[i] == c)
  {
    forall i: nat | i < |classes| ensures i in Members(l, c) <==> classes[i] == c {
      assert InClass(l, classes[i], i);
      assert i in Members(l, c) <==> InClass(l, c, i);
    }
  }

  lemma NoMembers(l: Loops, classes: seq<Class>, c: Class)
    requires Partition(l, classes) && Members(l, c) == []
    ensures forall i: nat :: i < |classes| ==> classes[i] != c
  {
    MembersAre(l, classes, c);
  }

  /** The loops of a class get their range, up to a bound. */
  method FillClass(l: Loops, ghost classes: seq<Class>, c: Class, ranges: seq<nat>, bound: nat, before: seq<nat>)
    returns (sizes: seq<nat>)
    requires |classes| == |ranges| == |before| && Partition(l, classes)
    ensures |sizes| == |before|
    ensures forall i: nat :: i < |sizes| ==> sizes[i] == if classes[i] == c then Min(ranges[i], bound) else before[i]
  {
    PartitionIndexes(l, classes, c);
    var members := Members(l, c);
    sizes := before;
    for k := 0 to |members|
      invariant |sizes| == |before|
      invariant forall i: nat :: i < |sizes| ==> sizes[i] == if i in members[..k] then Min(ranges[i], bound) else before[i]
    {
      var i := members[k];
      assert members[..k + 1] == members[..k] + [i];
      sizes := sizes[i := Min(ranges[i], bound)];
    }
    assert members[..|members|] == members;
    MembersAre(l, classes, c);
  }

  /** Without unroll loops only the last vector loop is vectorized. */
  method FillLastVector(l: Loops, ghost classes: seq<Class>, ranges: seq<nat>, width: nat, before: seq<nat>)
    returns (sizes: seq<nat>)
    requires |classes| == |ranges| == |before| && Partition(l, classes)
    ensures |sizes| == |before|
    ensures forall i: nat :: i < |sizes| ==>
              sizes[i] == if classes[i] != Vector then before[i]
                          else if l.vector != [] && i == l.vector[|l.vector| - 1] then Min(ranges[i], width) else 1
  {
    PartitionIndexes(l, classes, Vector);
    var members := l.vector;
    assert members == Members(l, Vector);
    sizes := before;
    for k := 0 to |members|
      invariant |sizes| == |before|
      invariant forall i: nat :: i < |sizes| ==>
                  sizes[i] == if i !in members[..k] then before[i]
                              else if i == members[|members| - 1] then Min(ranges[i], width) else 1
    {
      var i := members[k];
      assert members[..k + 1] == members[..k] + [i];
      if i == members[|members| - 1] {
        sizes := sizes[i := Min(ranges[i], width)];
      } else {
        sizes := sizes[i := 1];
      }
    }
    assert members[..|members|] == members;
    MembersAre(l, classes, Vector);
  }

  /** An unroll tile of 2 is not worth it. */
  method FillUnroll(l: Loops, ghost classes: seq<Class>, ranges: seq<nat>, bound: nat, before: seq<nat>)
    returns (sizes: seq<nat>)
    requires |classes| == |ranges| == |before| && Partition(l, classes)
    ensures |sizes| == |before|
    ensures forall i: nat :: i < |sizes| ==>
              sizes[i] == if classes[i] != Unroll then before[i]
                          else if Min(ranges[i], bound) == 2 then 1 else Min(ranges[i], bound)
  {
    PartitionIndexes(l, classes, Unroll);
    var members := l.unroll;
    assert members == Members(l, Unroll);
    sizes := before;
    for k := 0 to |members|
      invariant |sizes| == |before|
      invariant forall i: nat :: i < |sizes| ==>
                  sizes[i] == if i !in members[..k] then before[i]
                              else if Min(ranges[i], bound) == 2 then 1 else Min(ranges[i], bound)
    {
      var i := members[k];
      assert members[..k + 1] == members[..k] + [i];
      sizes := sizes[i := Min(ranges[i], bound)];
      if sizes[i] == 2 {
        sizes := sizes[i := 1];
      }
    }
    assert members[..|members|] == members;
    MembersAre(l, classes, Unroll);
  }

  // ----- register tile against DTCM tile -----

  function RegisterSize(c: Class, i: nat, parallel: seq<nat>, reduction: seq<nat>): nat
    requires i < |parallel| == |reduction|
  {
    if c == Reduction then reduction[i] else parallel[i]
  }

  lemma StepBoundsRegister(l: Loops, classes: seq<Class>, parallel: seq<nat>, reduction: seq<nat>, i: nat)
    requires Partition(l, classes) && i < |classes| == |parallel| == |reduction|
    ensures RegisterSize(classes[i], i, parallel, reduction) <= StepOf(Recovered(l, parallel, reduction), classes[i])
  {
    assert InClass(l, classes[i], i);
    var members := Members(l, classes[i]);
    var k :| 0 <= k < |members| && members[k] == i;
    LargestTileBounds(members, if classes[i] == Reduction then reduction else parallel, k);
  }

  predicate Capped(c: Class) {
    c == Vector || c == Unroll
  }

  /** Without fallback the register tile of a loop fits its DTCM tile exactly when the cap on
      parallel tiles leaves room for it. */
  lemma RegisterTileFits(ranges: seq<nat>, l: Loops, classes: seq<Class>, parallel: seq<nat>, reduction: seq<nat>,
                         cap: nat, tiles: seq<nat>, i: nat)
    requires Partition(l, classes) && i < |classes| == |parallel| == |reduction| == |ranges|
    requires RegisterSize(classes[i], i, parallel, reduction) <= ranges[i]
    requires TilesOk(InitialTiles(ranges, Recovered(l, parallel, reduction), classes, cap),
                     Recovered(l, parallel, reduction), classes, tiles)
    ensures RegisterSize(classes[i], i, parallel, reduction) <= tiles[i] <==>
              (Capped(classes[i]) ==> RegisterSize(classes[i], i, parallel, reduction) <= cap)
  {
    var steps := Recovered(l, parallel, reduction);
    StepBoundsRegister(l, classes, parallel, reduction, i);
    var step := StepOf(steps, classes[i]);
    assert TileOk(InitialTiles(ranges, steps, classes, cap)[i], step, tiles[i]);
    if step < ranges[i] { AlignDownKeepsStep(ranges[i], step); }
  }

  /** The vector path with automatic alignments and 32 registers: the register pass gives a long
      unroll loop a tile above the cap of 16, both for 32-bit elements (4 in a vector, tile 24) and
      for bytes (16 in a vector, tile 48). */
  method WideUnrollExceedsCap(ranges: seq<nat>, l: Loops, ghost classes: seq<Class>, i: nat, bytes: bool)
    returns (parallel: seq<nat>, reduction: seq<nat>)
    requires |classes| == |ranges| && Partition(l, classes) && forall j :: 0 <= j < |ranges| ==> ranges[j] > 0
    requires i < |ranges| && classes[i] == Unroll && ranges[i] > 48
    ensures |parallel| == |reduction| == |ranges|
    ensures RegisterSize(classes[i], i, parallel, reduction) == (if bytes then 48 else 24) > Cap(false)
  {
    assert InClass(l, Unroll, i);
    var width := if bytes then 16 else 4;
    var a;
    parallel, reduction, a := RegisterPass(ranges, l, classes, width, 32, 0, Alignments(0, 0, 1), false);
    var u := a.unroll / width;
    assert a.vector == (if bytes then 8 else 4);
    BudgetDivision(32, a.vector, u);
    assert !CoversUnroll(l, ranges, width, u);
    BudgetDivision(32, a.vector, u + 1);
  }

  /** A tile that needs no clean-up loop at its alignment. */
  predicate WellAligned(tile: nat, step: nat)
    requires step > 0
  {
    tile <= step || tile % step == 0
  }

  /** The cap leaves the aligned range alone, is below the step, or is itself aligned. */
  predicate CapKeepsAlignment(range: nat, step: nat, c: Class, cap: nat)
    requires step > 0
  {
    !Capped(c) || Aligned(range, step) <= cap || WellAligned(cap, step)
  }

  /** Through aligning, capping and any number of shrinks a tile is well aligned exactly when
      the cap kept it so or it was shrunk afterwards. */
  lemma AlignmentKept(ranges: seq<nat>, a: Steps, classes: seq<Class>, cap: nat, tiles: seq<nat>, i: nat)
    requires Positive(a) && i < |classes| == |ranges|
    requires TilesOk(InitialTiles(ranges, a, classes, cap), a, classes, tiles)
    ensures var step, c := StepOf(a, classes[i]), classes[i];
            WellAligned(tiles[i], step) <==>
              CapKeepsAlignment(ranges[i], step, c, cap) || tiles[i] != InitialTile(ranges[i], step, c, cap)
  {
  }

  // ----- the matrix path -----

  /** The parallel register tiles of the matrix path. */
  ghost predicate MatrixRegisters(ranges: seq<nat>, l: Loops, classes: seq<Class>, parallel: seq<nat>, width: nat) {
    && |classes| == |parallel| == |ranges|
    && l.unroll != []
    && forall j: nat :: j < |ranges| && classes[j] != Reduction ==>
         parallel[j] == RegisterTile(l, classes[j], j, ranges[j], width, Alignments(4, 4, 1), true)
  }

  lemma MatrixStepAtMostFour(ranges: seq<nat>, l: Loops, classes: seq<Class>, parallel: seq<nat>, width: nat, c: Class)
    requires Partition(l, classes) && MatrixRegisters(ranges, l, classes, parallel, width) && Capped(c)
    ensures LargestTile(Members(l, c), parallel) <= 4
  {
    var members := Members(l, c);
    var step := LargestTile(members, parallel);
    if step > 1 {
      var k := LargestTileAttained(members, parallel);
      assert InClass(l, c, members[k]);
    }
  }

  lemma SmallStepKept(range: nat, step: nat, c: Class)
    requires 1 <= step <= 4 && (step == 3 ==> range <= 3)
    ensures CapKeepsAlignment(range, step, c, 64)
  {
  }

  /** On the matrix path both conditions always hold: the register tile is at most 4, and the
      recovered step divides the cap of 64 or bounds every range of its class. */
  lemma MatrixPathAligned(ranges: seq<nat>, l: Loops, classes: seq<Class>, parallel: seq<nat>, reduction: seq<nat>,
                          width: nat, i: nat)
    requires Partition(l, classes) && MatrixRegisters(ranges, l, classes, parallel, width)
    requires i < |classes| == |reduction| && Capped(classes[i])
    ensures parallel[i] <= Cap(true)
    ensures CapKeepsAlignment(ranges[i], StepOf(Recovered(l, parallel, reduction), classes[i]), classes[i], Cap(true))
  {
    var step := StepOf(Recovered(l, parallel, reduction), classes[i]);
    StepBoundsRegister(l, classes, parallel, reduction, i);
    MatrixStepAtMostFour(ranges, l, classes, parallel, width, classes[i]);
    SmallStepKept(ranges[i], step, classes[i]);
  }

  lemma MatrixTilesFit(ranges: seq<nat>, l: Loops, classes: seq<Class>, parallel: seq<nat>, reduction: seq<nat>,
                       width: nat, tiles: seq<nat>, i: nat)
    requires Partition(l, classes) && MatrixRegisters(ranges, l, classes, parallel, width)
    requires i < |classes| == |reduction| && RegisterSize(classes[i], i, parallel, reduction) <= ranges[i]
    requires TilesOk(InitialTiles(ranges, Recovered(l, parallel, reduction), classes, Cap(true)),
                     Recovered(l, parallel, reduction), classes, tiles)
    ensures RegisterSize(classes[i], i, parallel, reduction) <= tiles[i] <= ranges[i]
    ensures Capped(classes[i]) ==> WellAligned(tiles[i], StepOf(Recovered(l, parallel, reduction), classes[i]))
  {
    if Capped(classes[i]) {
      MatrixPathAligned(ranges, l, classes, parallel, reduction, width, i);
      AlignmentKept(ranges, Recovered(l, parallel, reduction), classes, Cap(true), tiles, i);
    }
    RegisterTileFits(ranges, l, classes, parallel, reduction, Cap(true), tiles, i);
    TileBelowRange(ranges, Recovered(l, parallel, reduction), classes, Cap(true), tiles, i);
  }

  lemma TileBelowRange(ranges: seq<nat>, a: Steps, classes: seq<Class>, cap: nat, tiles: seq<nat>, i: nat)
    requires Positive(a) && i < |classes| == |ranges| && TilesOk(InitialTiles(ranges, a, classes, cap), a, classes, tiles)
    ensures tiles[i] <= ranges[i]
  {
    assert TileOk(InitialTiles(ranges, a, classes, cap)[i], StepOf(a, classes[i]), tiles[i]);
  }

  // ----- both passes -----

  datatype Selection = Selection(parallel: seq<nat>, reduction: seq<nat>, tiles: seq<nat>, fallback: bool)

  datatype Selected = Chosen(s: Selection) | NoTiling

  /** After a fallback the register tiles are rewritten to at most one, except on batch loops. */
  function FallbackTile(c: Class, forReduction: bool, tile: nat): nat {
    if (c == Reduction) == forReduction && c != Batch then Min(tile, 1) else 0
  }

  ghost predicate RegistersFit(classes: seq<Class>, s: Selection) {
    && |s.parallel| == |s.reduction| == |s.tiles| == |classes|
    && forall i: nat :: i < |classes| ==> RegisterSize(classes[i], i, s.parallel, s.reduction) <= s.tiles[i]
  }

  /** Loop `i` of a selection without fallback: its register tile fits its DTCM tile exactly when
      the cap leaves room for it, and the DTCM tile is aligned exactly when the cap kept it so or
      it was shrunk. */
  ghost predicate LoopSelected(ranges: seq<nat>, l: Loops, classes: seq<Class>, s: Selection, cap: nat, i: nat)
    requires i < |classes| == |ranges| == |s.parallel| == |s.reduction| == |s.tiles|
  {
    var register, c := RegisterSize(classes[i], i, s.parallel, s.reduction), classes[i];
    var step := StepOf(Recovered(l, s.parallel, s.reduction), c);
    && (register <= s.tiles[i] <==> (Capped(c) ==> register <= cap))
    && (WellAligned(s.tiles[i], step) <==> CapKeepsAlignment(ranges[i], step, c, cap) || s.tiles[i] != InitialTile(ranges[i], step, c, cap))
  }

  lemma LoopSelectedHolds(ranges: seq<nat>, l: Loops, classes: seq<Class>, s: Selection, cap: nat, i: nat)
    requires Partition(l, classes) && i < |classes| == |ranges| == |s.parallel| == |s.reduction| == |s.tiles|
    requires RegisterSize(classes[i], i, s.parallel, s.reduction) <= ranges[i]
    requires TilesOk(InitialTiles(ranges, Recovered(l, s.parallel, s.reduction), classes, cap),
                     Recovered(l, s.parallel, s.reduction), classes, s.tiles)
    ensures LoopSelected(ranges, l, classes, s, cap, i)
  {
    RegisterTileFits(ranges, l, classes, s.parallel, s.reduction, cap, s.tiles, i);
    AlignmentKept(ranges, Recovered(l, s.parallel, s.reduction), classes, cap, s.tiles, i);
  }

  ghost predicate RegistersInRange(ranges: seq<nat>, classes: seq<Class>, parallel: seq<nat>, reduction: seq<nat>) {
    && |classes| == |ranges| == |parallel| == |reduction|
    && forall i :: 0 <= i < |ranges| ==> RegisterSize(classes[i], i, parallel, reduction) <= ranges[i]
  }

  lemma LoopsSelected(ranges: seq<nat>, l: Loops, classes: seq<Class>, s: Selection, cap: nat)
    requires Partition(l, classes) && RegistersInRange(ranges, classes, s.parallel, s.reduction) && |s.tiles| == |ranges|
    requires TilesOk(InitialTiles(ranges, Recovered(l, s.parallel, s.reduction), classes, cap),
                     Recovered(l, s.parallel, s.reduction), classes, s.tiles)
    ensures forall i :: 0 <= i < |ranges| ==> LoopSelected(ranges, l, classes, s, cap, i)
  {
    forall i | 0 <= i < |ranges| ensures LoopSelected(ranges, l, classes, s, cap, i) {
      assert RegisterSize(classes[i], i, s.parallel, s.reduction) <= ranges[i];
      LoopSelectedHolds(ranges, l, classes, s, cap, i);
    }
  }

  /** The tiles that the register pass gives the loops, for some alignments that it resolves. */
  ghost predicate RegistersChosen(ranges: seq<nat>, l: Loops, classes: seq<Class>, width: nat, registers: int, parallelOpt: nat,
                                  given: Alignments, hasMatrix: bool, parallel: seq<nat>, reduction: seq<nat>)
    requires width > 0
  {
    exists a :: (if hasMatrix then a == Alignments(4, 4, 1) else Resolved(width, registers, l, ranges, parallelOpt, given, a)) &&
                RegistersFor(ranges, l, classes, width, a, hasMatrix, parallel, reduction)
  }

  ghost predicate RegistersFor(ranges: seq<nat>, l: Loops, classes: seq<Class>, width: nat, a: Alignments, hasMatrix: bool,
                               parallel: seq<nat>, reduction: seq<nat>)
  {
    && |parallel| == |reduction| == |ranges| == |classes|
    && forall i: nat :: i < |ranges| ==>
         && parallel[i] == (if classes[i] == Reduction then 0 else RegisterTile(l, classes[i], i, ranges[i], width, a, hasMatrix))
         && reduction[i] == (if classes[i] == Reduction then Min(ranges[i], a.reduction) else 0)
  }

  /** The selection against the register tiles and the answer of the DTCM pass. */
  ghost predicate Selects(ranges: seq<nat>, classes: seq<Class>, parallel: seq<nat>, reduction: seq<nat>, o: Outcome, r: Selected) {
    match o
    case CannotFit => r.NoTiling?
    case Tiled(tiles, false) => r == Chosen(Selection(parallel, reduction, tiles, false))
    case Tiled(tiles, true) =>
      && r.Chosen? && r.s.tiles == tiles && r.s.fallback
      && |r.s.parallel| == |r.s.reduction| == |tiles| == |ranges| == |classes|
      && forall i: nat :: i < |tiles| ==>
           && r.s.parallel[i] == (if classes[i] == Vector || classes[i] == Unroll then Min(tiles[i], 1) else 0)
           && r.s.reduction[i] == (if classes[i] == Reduction then Min(tiles[i], 1) else 0)
  }

  /** Classification, register pass and DTCM pass on one operation.  The selection is the register
      tiles with the one answer of the DTCM search for them.  The chosen tiles are a
      tiling of the loops that fits; register tiles fit DTCM tiles after a fallback, always on the
      matrix path of an operation with an unroll loop, and otherwise exactly below the cap. */
  method SelectTiles(op: Operation, ranges: seq<nat>, width: nat, registers: int, parallelOpt: nat,
                     given: Alignments, hasMatrix: bool, footprint: seq<nat> -> nat, limit: nat)
    returns (r: Selected, l: Loops, ghost parallel: seq<nat>, ghost reduction: seq<nat>, ghost o: Outcome)
    requires ValidOperation(op) && |ranges| == |op.isReduction| && width > 0
    requires forall i :: 0 <= i < |ranges| ==> ranges[i] > 0
    ensures Partition(l, Classes(op))
    ensures RegistersChosen(ranges, l, Classes(op), width, registers, parallelOpt, given, hasMatrix, parallel, reduction)
    ensures var steps := Recovered(l, parallel, reduction);
            Answer(ranges, steps, Classes(op), InitialTiles(ranges, steps, Classes(op), Cap(hasMatrix)), footprint, limit, o)
    ensures Selects(ranges, Classes(op), parallel, reduction, o, r)
    ensures r.NoTiling? ==> !Fits(footprint, Unit(ranges), limit)
    ensures r.Chosen? ==> Tiling(r.s.tiles, ranges) && Fits(footprint, r.s.tiles, limit)
    ensures r.Chosen? && (r.s.fallback || (hasMatrix && Unroll in Classes(op))) ==> RegistersFit(Classes(op), r.s)
    ensures r.Chosen? && !r.s.fallback ==>
              && |r.s.parallel| == |r.s.reduction| == |r.s.tiles| == |ranges|
              && forall i :: 0 <= i < |ranges| ==> LoopSelected(ranges, l, Classes(op), r.s, Cap(hasMatrix), i)
  {
    var outcome;
    outcome, l, parallel, reduction, o := RunPasses(op, ranges, width, registers, parallelOpt, given, hasMatrix, footprint, limit);
    r := outcome;
    if outcome.Chosen? && outcome.s.fallback {
      var s := Fallback(op, ranges, outcome.s.tiles);
      r := Chosen(s);
    }
  }

  /** The register tiles are rewritten. */
  method Fallback(op: Operation, ranges: seq<nat>, tiles: seq<nat>) returns (s: Selection)
    requires ValidOperation(op) && |ranges| == |op.isReduction| == |tiles| && Tiling(tiles, ranges)
    requires forall i :: 0 <= i < |ranges| ==> ranges[i] > 0
    ensures s.tiles == tiles && s.fallback && |s.parallel| == |s.reduction| == |ranges|
    ensures forall i :: 0 <= i < |ranges| ==>
              s.parallel[i] == FallbackTile(Classes(op)[i], false, tiles[i]) && s.reduction[i] == FallbackTile(Classes(op)[i], true, tiles[i])
    ensures RegistersFit(Classes(op), s)
  {
    var small := seq(|ranges|, i requires 0 <= i < |ranges| => FallbackTile(ClassOf(op, i), false, tiles[i]));
    var smallReduction := seq(|ranges|, i requires 0 <= i < |ranges| => FallbackTile(ClassOf(op, i), true, tiles[i]));
    s := Selection(small, smallReduction, tiles, true);
  }

  /** The passes before the register tiles of a fallback are rewritten. */
  method RunPasses(op: Operation, ranges: seq<nat>, width: nat, registers: int, parallelOpt: nat,
                   given: Alignments, hasMatrix: bool, footprint: seq<nat> -> nat, limit: nat)
    returns (r: Selected, l: Loops, ghost parallel: seq<nat>, ghost reduction: seq<nat>, ghost o: Outcome)
    requires ValidOperation(op) && |ranges| == |op.isReduction| && width > 0
    requires forall i :: 0 <= i < |ranges| ==> ranges[i] > 0
    ensures Partition(l, Classes(op))
    ensures RegistersChosen(ranges, l, Classes(op), width, registers, parallelOpt, given, hasMatrix, parallel, reduction)
    ensures var steps := Recovered(l, parallel, reduction);
            Answer(ranges, steps, Classes(op), InitialTiles(ranges, steps, Classes(op), Cap(hasMatrix)), footprint, limit, o)
    ensures r == if o.CannotFit? then NoTiling else Chosen(Selection(parallel, reduction, o.tiles, o.fallback))
    ensures r.NoTiling? ==> !Fits(footprint, Unit(ranges), limit)
    ensures r.Chosen? ==> Tiling(r.s.tiles, ranges) && Fits(footprint, r.s.tiles, limit)
    ensures |parallel| == |reduction| == |ranges|
    ensures r.Chosen? && !r.s.fallback && hasMatrix && Unroll in Classes(op) ==> RegistersFit(Classes(op), r.s)
    ensures r.Chosen? && !r.s.fallback ==>
              forall i :: 0 <= i < |ranges| ==> LoopSelected(ranges, l, Classes(op), r.s, Cap(hasMatrix), i)
  {
    l := ClassifyLoops(op);
    ghost var classes := Classes(op);
    var inParallel, inReduction, a := RegisterPass(ranges, l, classes, width, registers, parallelOpt, given, hasMatrix);
    parallel, reduction := inParallel, inReduction;
    assert RegistersFor(ranges, l, classes, width, a, hasMatrix, parallel, reduction);
    var outcome := DtcmPass(ranges, l, classes, inParallel, inReduction, hasMatrix, footprint, limit);
    o := outcome;
    if outcome.CannotFit? {
      r := NoTiling;
      return;
    }
    TilesAreTilings(ranges, Recovered(l, parallel, reduction), classes, Cap(hasMatrix), outcome.tiles);
    var s := Selection(inParallel, inReduction, outcome.tiles, outcome.fallback);
    r := Chosen(s);
    if !outcome.fallback {
      if hasMatrix { MatrixSelectionFits(ranges, l, classes, width, s); }
      LoopsSelected(ranges, l, classes, s, Cap(hasMatrix));
    }
  }

  lemma MatrixSelectionFits(ranges: seq<nat>, l: Loops, classes: seq<Class>, width: nat, s: Selection)
    requires Partition(l, classes) && |classes| == |ranges| == |s.parallel| == |s.reduction|
    requires forall i: nat :: i < |ranges| ==>
               ranges[i] > 0 &&
               (if classes[i] == Reduction then s.reduction[i] == Min(ranges[i], 1)
                else s.parallel[i] == RegisterTile(l, classes[i], i, ranges[i], width, Alignments(4, 4, 1), true))
    requires TilesOk(InitialTiles(ranges, Recovered(l, s.parallel, s.reduction), classes, Cap(true)),
                     Recovered(l, s.parallel, s.reduction), classes, s.tiles)
    ensures Unroll in classes ==> RegistersFit(classes, s)
  {
    if k: nat :| k < |classes| && classes[k] == Unroll {
      assert InClass(l, classes[k], k);
      assert MatrixRegisters(ranges, l, classes, s.parallel, width);
      forall i: nat | i < |classes| ensures RegisterSize(classes[i], i, s.parallel, s.reduction) <= s.tiles[i] {
        MatrixTilesFit(ranges, l, classes, s.parallel, s.reduction, width, s.tiles, i);
      }
    }
  }
}
