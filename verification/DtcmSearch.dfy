/** The DTCM search: tiles start at the aligned and capped loop ranges and shrink until the
    estimated footprint, with its safety factor, fits the limit. */
module DtcmSearch {
  import opened TileSizes

  /** Alignment of each class, as recovered from the register tiles. */
  datatype Steps = Steps(vector: nat, unroll: nat, reduction: nat, batch: nat)

  const UNIT_STEPS := Steps(1, 1, 1, 1)

  function StepOf(a: Steps, c: Class): nat {
    match c
    case Vector => a.vector
    case Unroll => a.unroll
    case Reduction => a.reduction
    case Batch => a.batch
  }

  predicate Positive(a: Steps) {
    a.vector >= 1 && a.unroll >= 1 && a.reduction >= 1 && a.batch >= 1
  }

  function AlignDown(x: nat, a: nat): (r: nat)
    requires a > 0
    ensures r <= x && r % a == 0 && x - r < a
  {
    AlignDownFacts(x, a);
    x / a * a
  }

  lemma AlignDownFacts(x: nat, a: nat)
    requires a > 0
    ensures x / a * a <= x && x / a * a % a == 0 && x - x / a * a < a
  {
  }

  /** The largest multiple of `a` up to `x`: nothing is lost once `a` itself fits. */
  lemma AlignDownKeepsStep(x: nat, a: nat)
    requires 0 < a <= x
    ensures AlignDown(x, a) >= a
  {
  }

  // ----- in-place passes over the tile sizes -----

  function Aligned(range: nat, a: nat): nat
    requires a > 0
  {
    if range <= a then range else AlignDown(range, a)
  }

  predicate Indexes(indices: seq<nat>, n: nat) {
    Ascending(indices) && forall k :: 0 <= k < |indices| ==> indices[k] < n
  }

  method AlignTileSizes(indices: seq<nat>, a: nat, tiles: array<nat>)
    requires a > 0 && Indexes(indices, tiles.Length)
    modifies tiles
    ensures forall i: nat :: i < tiles.Length ==>
              tiles[i] == if i in indices then Aligned(old(tiles[i]), a) else old(tiles[i])
  {
    for k := 0 to |indices|
      invariant forall i: nat :: i < tiles.Length ==>
                  tiles[i] == if i in indices[..k] then Aligned(old(tiles[i]), a) else old(tiles[i])
    {
      var i := indices[k];
      assert i !in indices[..k];
      assert indices[..k + 1] == indices[..k] + [i];
      if tiles[i] > a {
        tiles[i] := AlignDown(tiles[i], a);
      }
    }
    assert indices[..|indices|] == indices;
  }

  method CapTileSizes(indices: seq<nat>, cap: nat, tiles: array<nat>)
    requires Indexes(indices, tiles.Length)
    modifies tiles
    ensures forall i: nat :: i < tiles.Length ==>
              tiles[i] == if i in indices then Min(old(tiles[i]), cap) else old(tiles[i])
  {
    for k := 0 to |indices|
      invariant forall i: nat :: i < tiles.Length ==>
                  tiles[i] == if i in indices[..k] then Min(old(tiles[i]), cap) else old(tiles[i])
    {
      var i := indices[k];
      assert i !in indices[..k];
      assert indices[..k + 1] == indices[..k] + [i];
      if tiles[i] > 0 {
        tiles[i] := Min(tiles[i], cap);
      }
    }
    assert indices[..|indices|] == indices;
  }

  /** `shrinkLoops`: halves the first tile of the list that has room for two steps. */
  method ShrinkLoops(indices: seq<nat>, a: nat, tiles: array<nat>) returns (shrunk: bool)
    requires a > 0 && Indexes(indices, tiles.Length)
    modifies tiles
    ensures !shrunk ==> tiles[..] == old(tiles[..]) && forall i: nat :: i in indices ==> i < tiles.Length && tiles[i] < 2 * a
    ensures shrunk ==> Shrunk(old(tiles[..]), tiles[..], indices, a)
  {
    for k := 0 to |indices|
      invariant tiles[..] == old(tiles[..])
      invariant forall j :: 0 <= j < k ==> tiles[indices[j]] < 2 * a
    {
      var i := indices[k];
      if tiles[i] >= 2 * a {
        tiles[i] := AlignDown(tiles[i] / 2, a);
        assert ShrunkAt(old(tiles[..]), tiles[..], indices, a, k);
        return true;
      }
    }
    return false;
  }

  /** The tile of entry `k` of the list is halved; none before it has room. */
  ghost predicate ShrunkAt(before: seq<nat>, after: seq<nat>, indices: seq<nat>, a: nat, k: nat)
    requires a > 0 && k < |indices|
  {
    && indices[k] < |before| && before[indices[k]] >= 2 * a
    && (forall j :: 0 <= j < k ==> indices[j] < |before| && before[indices[j]] < 2 * a)
    && after == before[indices[k] := AlignDown(before[indices[k]] / 2, a)]
  }

  ghost predicate Shrunk(before: seq<nat>, after: seq<nat>, indices: seq<nat>, a: nat)
    requires a > 0
  {
    exists k :: 0 <= k < |indices| && ShrunkAt(before, after, indices, a, k)
  }

  // ----- the invariant of the search -----

  function Sum(s: seq<nat>): nat {
    if s == [] then 0 else s[0] + Sum(s[1..])
  }

  lemma SumUpdate(s: seq<nat>, i: nat, v: nat)
    requires i < |s|
    ensures Sum(s[i := v]) == Sum(s) - s[i] + v
  {
    if i == 0 {
      assert s[0 := v][1..] == s[1..];
    } else {
      assert s[i := v][1..] == s[1..][i - 1 := v];
      SumUpdate(s[1..], i - 1, v);
    }
  }

  /** A tile derived from `base` by halving: never above it, never below a step that `base`
      has room for, and a multiple of the step once it was changed. */
  predicate TileOk(base: nat, a: nat, tile: nat)
    requires a > 0
  {
    Min(base, a) <= tile <= base && (tile == base || tile % a == 0)
  }

  predicate TilesOk(base: seq<nat>, a: Steps, classes: seq<Class>, tiles: seq<nat>)
    requires Positive(a)
  {
    |base| == |classes| == |tiles| &&
    forall i :: 0 <= i < |tiles| ==> TileOk(base[i], StepOf(a, classes[i]), tiles[i])
  }

  lemma HalvedTileOk(base: nat, a: nat, tile: nat)
    requires a > 0 && TileOk(base, a, tile) && tile >= 2 * a
    ensures AlignDown(tile / 2, a) < tile && TileOk(base, a, AlignDown(tile / 2, a))
  {
    AlignDownKeepsStep(tile / 2, a);
  }

  lemma ShrinkAtKeeps(base: seq<nat>, a: Steps, classes: seq<Class>, tiles: seq<nat>, i: nat)
    requires Positive(a) && TilesOk(base, a, classes, tiles) && i < |tiles|
    requires tiles[i] >= 2 * StepOf(a, classes[i])
    ensures var after := tiles[i := AlignDown(tiles[i] / 2, StepOf(a, classes[i]))];
            TilesOk(base, a, classes, after) && Sum(after) < Sum(tiles)
  {
    HalvedTileOk(base[i], StepOf(a, classes[i]), tiles[i]);
    SumUpdate(tiles, i, AlignDown(tiles[i] / 2, StepOf(a, classes[i])));
  }

  lemma ShrinkKeeps(base: seq<nat>, a: Steps, l: Loops, classes: seq<Class>, c: Class, tiles: seq<nat>, after: seq<nat>)
    requires Positive(a) && TilesOk(base, a, classes, tiles) && Partition(l, classes)
    requires Shrunk(tiles, after, Members(l, c), StepOf(a, c))
    ensures TilesOk(base, a, classes, after) && Sum(after) < Sum(tiles)
  {
    var step, indices := StepOf(a, c), Members(l, c);
    var k :| 0 <= k < |indices| && ShrunkAt(tiles, after, indices, step, k);
    assert InClass(l, c, indices[k]);
    ShrinkAtKeeps(base, a, classes, tiles, indices[k]);
  }

  // ----- which tiling comes next -----

  function Rank(c: Class): nat {
    match c
    case Vector => 0
    case Unroll => 1
    case Batch => 2
    case Reduction => 3
  }

  /** Loops are tried class by class, and in ascending order within a class. */
  predicate Earlier(classes: seq<Class>, j: nat, i: nat)
    requires j < |classes| && i < |classes|
  {
    Rank(classes[j]) < Rank(classes[i]) || (classes[j] == classes[i] && j < i)
  }

  predicate HasRoom(a: Steps, classes: seq<Class>, tiles: seq<nat>, i: nat) {
    i < |tiles| == |classes| && tiles[i] >= 2 * StepOf(a, classes[i])
  }

  /** Loop `i` is the first that has room for two steps; its tile is halved and aligned. */
  ghost predicate ShrinksAt(a: Steps, classes: seq<Class>, tiles: seq<nat>, next: seq<nat>, i: nat)
    requires Positive(a)
  {
    && HasRoom(a, classes, tiles, i) && next == tiles[i := AlignDown(tiles[i] / 2, StepOf(a, classes[i]))]
    && forall j: nat :: HasRoom(a, classes, tiles, j) && j != i ==> Earlier(classes, i, j)
  }

  ghost predicate Shrinks(a: Steps, classes: seq<Class>, tiles: seq<nat>, next: seq<nat>)
    requires Positive(a)
  {
    exists i: nat :: ShrinksAt(a, classes, tiles, next, i)
  }

  ghost predicate NoRoom(a: Steps, classes: seq<Class>, tiles: seq<nat>) {
    |tiles| == |classes| && forall i: nat :: !HasRoom(a, classes, tiles, i)
  }

  /** The tilings of a search, each one shrunk from the one before; none before the last fits. */
  ghost predicate Search(a: Steps, classes: seq<Class>, footprint: seq<nat> -> nat, limit: nat, trace: seq<seq<nat>>)
    requires Positive(a)
  {
    && |trace| > 0
    && (forall k :: 0 < k < |trace| ==> Shrinks(a, classes, trace[k - 1], trace[k]))
    && (forall k :: 0 <= k < |trace| - 1 ==> !Fits(footprint, trace[k], limit))
  }

  /** The search from `start` comes to `tiles`, the first of its tilings that fits. */
  ghost predicate Finds(a: Steps, classes: seq<Class>, footprint: seq<nat> -> nat, limit: nat, start: seq<nat>, tiles: seq<nat>)
    requires Positive(a)
  {
    Fits(footprint, tiles, limit) && Comes(a, classes, footprint, limit, start, tiles)
  }

  ghost predicate Comes(a: Steps, classes: seq<Class>, footprint: seq<nat> -> nat, limit: nat, start: seq<nat>, tiles: seq<nat>)
    requires Positive(a)
  {
    exists trace :: Search(a, classes, footprint, limit, trace) && trace[0] == start && trace[|trace| - 1] == tiles
  }

  /** The search from `start` runs out of room: none of its tilings fits. */
  ghost predicate RunsOut(a: Steps, classes: seq<Class>, footprint: seq<nat> -> nat, limit: nat, start: seq<nat>)
    requires Positive(a)
  {
    exists tiles :: Exhausted(a, classes, footprint, limit, start, tiles)
  }

  ghost predicate Exhausted(a: Steps, classes: seq<Class>, footprint: seq<nat> -> nat, limit: nat, start: seq<nat>, tiles: seq<nat>)
    requires Positive(a)
  {
    !Fits(footprint, tiles, limit) && NoRoom(a, classes, tiles) && Comes(a, classes, footprint, limit, start, tiles)
  }

  lemma ComesAtOnce(a: Steps, classes: seq<Class>, footprint: seq<nat> -> nat, limit: nat, start: seq<nat>)
    requires Positive(a)
    ensures Comes(a, classes, footprint, limit, start, start)
  {
    assert Search(a, classes, footprint, limit, [start]);
  }

  lemma ComesNext(a: Steps, classes: seq<Class>, footprint: seq<nat> -> nat, limit: nat, start: seq<nat>, tiles: seq<nat>, next: seq<nat>)
    requires Positive(a) && Comes(a, classes, footprint, limit, start, tiles)
    requires !Fits(footprint, tiles, limit) && Shrinks(a, classes, tiles, next)
    ensures Comes(a, classes, footprint, limit, start, next)
  {
    var trace :| Search(a, classes, footprint, limit, trace) && trace[0] == start && trace[|trace| - 1] == tiles;
    var longer := trace + [next];
    forall k | 0 < k < |longer| ensures Shrinks(a, classes, longer[k - 1], longer[k]) {
      if k < |trace| { assert longer[k - 1] == trace[k - 1] && longer[k] == trace[k]; }
    }
    assert Search(a, classes, footprint, limit, longer);
  }

  lemma FirstUnique(a: Steps, classes: seq<Class>, tiles: seq<nat>, x: seq<nat>, i: nat, y: seq<nat>, j: nat)
    requires Positive(a) && ShrinksAt(a, classes, tiles, x, i) && ShrinksAt(a, classes, tiles, y, j)
    ensures i == j
  {
  }

  /** Only one tiling comes next. */
  lemma ShrinksUnique(a: Steps, classes: seq<Class>, tiles: seq<nat>, x: seq<nat>, y: seq<nat>)
    requires Positive(a) && Shrinks(a, classes, tiles, x) && Shrinks(a, classes, tiles, y)
    ensures x == y
  {
    var i: nat :| ShrinksAt(a, classes, tiles, x, i);
    var j: nat :| ShrinksAt(a, classes, tiles, y, j);
    FirstUnique(a, classes, tiles, x, i, y, j);
  }

  /** Two searches from one start agree as far as both go. */
  lemma {:induction false} TracesAgree(a: Steps, classes: seq<Class>, footprint: seq<nat> -> nat, limit: nat,
                                       x: seq<seq<nat>>, y: seq<seq<nat>>, k: nat)
    requires Positive(a) && Search(a, classes, footprint, limit, x) && Search(a, classes, footprint, limit, y)
    requires x[0] == y[0] && k < |x| && k < |y|
    ensures x[k] == y[k]
  {
    if k > 0 {
      TracesAgree(a, classes, footprint, limit, x, y, k - 1);
      ShrinksUnique(a, classes, x[k - 1], x[k], y[k]);
    }
  }

  /** A tiling where a search ends: it fits, or there is no room left. */
  ghost predicate Final(a: Steps, classes: seq<Class>, footprint: seq<nat> -> nat, limit: nat, tiles: seq<nat>) {
    Fits(footprint, tiles, limit) || NoRoom(a, classes, tiles)
  }

  /** A search ends in one way only. */
  lemma {:induction false} EndsUnique(a: Steps, classes: seq<Class>, footprint: seq<nat> -> nat, limit: nat, start: seq<nat>,
                                      t: seq<nat>, u: seq<nat>)
    requires Positive(a) && Comes(a, classes, footprint, limit, start, t) && Comes(a, classes, footprint, limit, start, u)
    requires Final(a, classes, footprint, limit, t) && Final(a, classes, footprint, limit, u)
    ensures t == u
  {
    var x :| Search(a, classes, footprint, limit, x) && x[0] == start && x[|x| - 1] == t;
    var y :| Search(a, classes, footprint, limit, y) && y[0] == start && y[|y| - 1] == u;
    if |x| < |y| { MiddleGoesOn(a, classes, footprint, limit, y, |x| - 1); }
    if |y| < |x| { MiddleGoesOn(a, classes, footprint, limit, x, |y| - 1); }
    TracesAgree(a, classes, footprint, limit, x, y, Min(|x|, |y|) - 1);
  }

  /** A search does not end before its last tiling. */
  lemma MiddleGoesOn(a: Steps, classes: seq<Class>, footprint: seq<nat> -> nat, limit: nat, y: seq<seq<nat>>, k: nat)
    requires Positive(a) && Search(a, classes, footprint, limit, y) && k < |y| - 1
    ensures !Final(a, classes, footprint, limit, y[k])
  {
    assert Shrinks(a, classes, y[k], y[k + 1]);
  }

  // ----- the pass -----

  datatype Outcome = Tiled(tiles: seq<nat>, fallback: bool) | CannotFit

  predicate Fits(footprint: seq<nat> -> nat, tiles: seq<nat>, limit: nat) {
    6 * footprint(tiles) <= 5 * limit
  }

  function Unit(ranges: seq<nat>): seq<nat> {
    seq(|ranges|, i requires 0 <= i < |ranges| => Min(ranges[i], 1))
  }

  /** The tiles the search starts from. */
  function InitialTile(range: nat, a: nat, c: Class, cap: nat): nat
    requires a > 0
  {
    if c.Vector? || c.Unroll? then Min(Aligned(range, a), cap) else Aligned(range, a)
  }

  function InitialTiles(ranges: seq<nat>, a: Steps, classes: seq<Class>, cap: nat): seq<nat>
    requires Positive(a) && |classes| == |ranges|
  {
    seq(|ranges|, i requires 0 <= i < |ranges| =>
      InitialTile(ranges[i], StepOf(a, classes[i]), classes[i], cap))
  }

  /** The largest register tile of the listed loops, at least 1. */
  function LargestTile(indices: seq<nat>, sizes: seq<nat>): (a: nat)
    ensures a >= 1
  {
    if indices == [] then 1
    else
      var n := |indices| - 1;
      var rest := LargestTile(indices[..n], sizes);
      if indices[n] < |sizes| then Max(rest, sizes[indices[n]]) else rest
  }

  lemma {:induction false} LargestTileBounds(indices: seq<nat>, sizes: seq<nat>, k: nat)
    requires k < |indices| && indices[k] < |sizes|
    ensures sizes[indices[k]] <= LargestTile(indices, sizes)
  {
    var n := |indices| - 1;
    if k < n { LargestTileBounds(indices[..n], sizes, k); }
  }

  lemma {:induction false} LargestTileAttained(indices: seq<nat>, sizes: seq<nat>) returns (k: nat)
    requires LargestTile(indices, sizes) > 1
    ensures k < |indices| && indices[k] < |sizes| && sizes[indices[k]] == LargestTile(indices, sizes)
  {
    var n := |indices| - 1;
    if LargestTile(indices[..n], sizes) == LargestTile(indices, sizes) {
      k := LargestTileAttained(indices[..n], sizes);
    } else {
      k := n;
    }
  }

  method RecoverStep(indices: seq<nat>, sizes: seq<nat>) returns (a: nat)
    ensures a == LargestTile(indices, sizes)
  {
    a := 1;
    for k := 0 to |indices|
      invariant a == LargestTile(indices[..k], sizes)
    {
      assert indices[..k + 1][..k] == indices[..k];
      if indices[k] < |sizes| && sizes[indices[k]] > 0 {
        a := Max(a, sizes[indices[k]]);
      }
    }
    assert indices[..|indices|] == indices;
  }

  function Recovered(l: Loops, parallel: seq<nat>, reduction: seq<nat>): (a: Steps)
    ensures Positive(a)
  {
    Steps(LargestTile(l.vector, parallel), LargestTile(l.unroll, parallel),
          LargestTile(l.reduction, reduction), LargestTile(l.batch, parallel))
  }

  function Cap(hasMatrix: bool): nat {
    if hasMatrix then 64 else 16
  }

  lemma PartitionIndexes(l: Loops, classes: seq<Class>, c: Class)
    requires Partition(l, classes)
    ensures Indexes(Members(l, c), |classes|)
  {
    var members := Members(l, c);
    forall k | 0 <= k < |members| ensures members[k] < |classes| {
      assert InClass(l, c, members[k]);
    }
  }

  method StartTiles(ranges: seq<nat>, l: Loops, ghost classes: seq<Class>, a: Steps, cap: nat)
    returns (tiles: array<nat>)
    requires Positive(a) && |classes| == |ranges| && Partition(l, classes)
    ensures fresh(tiles) && tiles[..] == InitialTiles(ranges, a, classes, cap)
  {
    forall c ensures Indexes(Members(l, c), |ranges|) { PartitionIndexes(l, classes, c); }
    assert Indexes(l.vector, |ranges|) && Indexes(l.unroll, |ranges|) &&
           Indexes(l.batch, |ranges|) && Indexes(l.reduction, |ranges|) by {
      assert Members(l, Vector) == l.vector && Members(l, Unroll) == l.unroll &&
             Members(l, Batch) == l.batch && Members(l, Reduction) == l.reduction;
    }
    tiles := new nat[|ranges|](i requires 0 <= i < |ranges| => ranges[i]);
    AlignTileSizes(l.vector, a.vector, tiles);
    AlignTileSizes(l.unroll, a.unroll, tiles);
    AlignTileSizes(l.batch, a.batch, tiles);
    AlignTileSizes(l.reduction, a.reduction, tiles);
    CapTileSizes(l.vector, cap, tiles);
    CapTileSizes(l.unroll, cap, tiles);
    forall i: nat | i < |ranges| ensures tiles[i] == InitialTiles(ranges, a, classes, cap)[i] {
      assert InClass(l, classes[i], i);
      assert i in l.vector <==> InClass(l, Vector, i);
      assert i in l.unroll <==> InClass(l, Unroll, i);
      assert i in l.batch <==> InClass(l, Batch, i);
      assert i in l.reduction <==> InClass(l, Reduction, i);
    }
  }

  /** No loop of a class before rank `n` has room. */
  ghost predicate FullBelow(a: Steps, classes: seq<Class>, tiles: seq<nat>, n: nat) {
    |tiles| == |classes| && forall j: nat :: j < |classes| && Rank(classes[j]) < n ==> !HasRoom(a, classes, tiles, j)
  }

  lemma FullNext(a: Steps, l: Loops, classes: seq<Class>, c: Class, tiles: seq<nat>)
    requires Partition(l, classes) && FullBelow(a, classes, tiles, Rank(c))
    requires forall i: nat :: i in Members(l, c) ==> i < |tiles| && tiles[i] < 2 * StepOf(a, c)
    ensures FullBelow(a, classes, tiles, Rank(c) + 1)
  {
    forall j: nat | j < |classes| && Rank(classes[j]) < Rank(c) + 1 ensures !HasRoom(a, classes, tiles, j) {
      if classes[j] == c { assert InClass(l, classes[j], j); }
    }
  }

  lemma MemberIndex(l: Loops, classes: seq<Class>, j: nat) returns (p: nat)
    requires Partition(l, classes) && j < |classes|
    ensures p < |Members(l, classes[j])| && Members(l, classes[j])[p] == j
  {
    assert InClass(l, classes[j], j);
    p :| 0 <= p < |Members(l, classes[j])| && Members(l, classes[j])[p] == j;
  }

  /** The first loop with room in its class, after classes without room, is the first of all. */
  lemma FirstOfClass(a: Steps, l: Loops, classes: seq<Class>, c: Class, tiles: seq<nat>, k: nat)
    requires Partition(l, classes) && FullBelow(a, classes, tiles, Rank(c)) && k < |Members(l, c)|
    requires forall j :: 0 <= j < k ==> Members(l, c)[j] < |tiles| && tiles[Members(l, c)[j]] < 2 * StepOf(a, c)
    ensures Members(l, c)[k] < |classes| && classes[Members(l, c)[k]] == c
    ensures forall j: nat :: HasRoom(a, classes, tiles, j) && j != Members(l, c)[k] ==> Earlier(classes, Members(l, c)[k], j)
  {
    var i := Members(l, c)[k];
    assert InClass(l, c, i);
    forall j: nat | HasRoom(a, classes, tiles, j) && j != i ensures Earlier(classes, i, j) {
      if classes[j] == c {
        var p := MemberIndex(l, classes, j);
        assert p >= k;
      }
    }
  }

  /** A class with a shrunk tile, after classes without room, makes the next tiling. */
  lemma ShrunkIsNext(a: Steps, l: Loops, classes: seq<Class>, c: Class, tiles: seq<nat>, next: seq<nat>)
    requires Positive(a) && Partition(l, classes) && FullBelow(a, classes, tiles, Rank(c))
    requires Shrunk(tiles, next, Members(l, c), StepOf(a, c))
    ensures Shrinks(a, classes, tiles, next)
  {
    var members := Members(l, c);
    var k :| 0 <= k < |members| && ShrunkAt(tiles, next, members, StepOf(a, c), k);
    FirstOfClass(a, l, classes, c, tiles, k);
    assert ShrinksAt(a, classes, tiles, next, members[k]);
  }

  /** One round of the search: the classes are tried in a fixed order. */
  method ShrinkOnce(l: Loops, ghost classes: seq<Class>, a: Steps, tiles: array<nat>, ghost base: seq<nat>)
    returns (shrunk: bool)
    requires Positive(a) && Partition(l, classes) && TilesOk(base, a, classes, tiles[..])
    modifies tiles
    ensures TilesOk(base, a, classes, tiles[..])
    ensures shrunk ==> Sum(tiles[..]) < old(Sum(tiles[..])) && Shrinks(a, classes, old(tiles[..]), tiles[..])
    ensures !shrunk ==> tiles[..] == old(tiles[..]) && NoRoom(a, classes, tiles[..])
  {
    PartitionIndexes(l, classes, Vector);
    PartitionIndexes(l, classes, Unroll);
    PartitionIndexes(l, classes, Batch);
    PartitionIndexes(l, classes, Reduction);
    ghost var before := tiles[..];
    shrunk := ShrinkLoops(l.vector, a.vector, tiles);
    if shrunk {
      ShrinkKeeps(base, a, l, classes, Vector, before, tiles[..]);
      ShrunkIsNext(a, l, classes, Vector, before, tiles[..]);
      return;
    }
    FullNext(a, l, classes, Vector, before);
    shrunk := ShrinkLoops(l.unroll, a.unroll, tiles);
    if shrunk {
      ShrinkKeeps(base, a, l, classes, Unroll, before, tiles[..]);
      ShrunkIsNext(a, l, classes, Unroll, before, tiles[..]);
      return;
    }
    FullNext(a, l, classes, Unroll, before);
    shrunk := ShrinkLoops(l.batch, a.batch, tiles);
    if shrunk {
      ShrinkKeeps(base, a, l, classes, Batch, before, tiles[..]);
      ShrunkIsNext(a, l, classes, Batch, before, tiles[..]);
      return;
    }
    FullNext(a, l, classes, Batch, before);
    shrunk := ShrinkLoops(l.reduction, a.reduction, tiles);
    if shrunk {
      ShrinkKeeps(base, a, l, classes, Reduction, before, tiles[..]);
      ShrunkIsNext(a, l, classes, Reduction, before, tiles[..]);
      return;
    }
    FullNext(a, l, classes, Reduction, before);
    assert tiles[..] == before;
  }

  lemma InitialTilesOk(ranges: seq<nat>, a: Steps, classes: seq<Class>, cap: nat)
    requires Positive(a) && |classes| == |ranges|
    ensures TilesOk(InitialTiles(ranges, a, classes, cap), a, classes, InitialTiles(ranges, a, classes, cap))
    ensures TilesOk(ranges, UNIT_STEPS, classes, ranges)
  {
  }

  /** What the pass answers, for a start `initial` with steps `a`: the first tiling that fits; when
      the steps leave no room, and only then, the first one that fits from the ranges on in single
      steps; and failure when that search runs out too. */
  ghost predicate Answer(ranges: seq<nat>, a: Steps, classes: seq<Class>, initial: seq<nat>, footprint: seq<nat> -> nat, limit: nat, r: Outcome)
    requires Positive(a)
  {
    match r
    case Tiled(tiles, false) => Finds(a, classes, footprint, limit, initial, tiles)
    case Tiled(tiles, true) =>
      && a != UNIT_STEPS && RunsOut(a, classes, footprint, limit, initial)
      && Finds(UNIT_STEPS, classes, footprint, limit, ranges, tiles)
    case CannotFit =>
      && RunsOut(a, classes, footprint, limit, initial)
      && (a != UNIT_STEPS ==> RunsOut(UNIT_STEPS, classes, footprint, limit, ranges))
  }

  /** There is only one answer. */
  lemma {:induction false} AnswerUnique(ranges: seq<nat>, a: Steps, classes: seq<Class>, initial: seq<nat>, footprint: seq<nat> -> nat,
                                        limit: nat, r: Outcome, r': Outcome)
    requires Positive(a)
    requires Answer(ranges, a, classes, initial, footprint, limit, r) && Answer(ranges, a, classes, initial, footprint, limit, r')
    ensures r == r'
  {
    EndUnique(a, classes, footprint, limit, initial);
    EndUnique(UNIT_STEPS, classes, footprint, limit, ranges);
  }

  lemma {:induction false} EndUnique(a: Steps, classes: seq<Class>, footprint: seq<nat> -> nat, limit: nat, start: seq<nat>)
    requires Positive(a)
    ensures forall t, u :: Finds(a, classes, footprint, limit, start, t) && Finds(a, classes, footprint, limit, start, u) ==> t == u
    ensures forall t :: Finds(a, classes, footprint, limit, start, t) ==> !RunsOut(a, classes, footprint, limit, start)
  {
    forall t, u | Finds(a, classes, footprint, limit, start, t) && Finds(a, classes, footprint, limit, start, u) ensures t == u {
      EndsUnique(a, classes, footprint, limit, start, t, u);
    }
    forall t | Finds(a, classes, footprint, limit, start, t) ensures !RunsOut(a, classes, footprint, limit, start) {
      if RunsOut(a, classes, footprint, limit, start) {
        var u :| Exhausted(a, classes, footprint, limit, start, u);
        EndsUnique(a, classes, footprint, limit, start, t, u);
      }
    }
  }

  /** The tiles that the search starts from, in numbers: the largest multiple of the step in the
      range, or the range itself up to one step; on vector and unroll loops at most 64 on the matrix
      path and 16 elsewhere. */
  lemma InitialTilesAre(ranges: seq<nat>, a: Steps, classes: seq<Class>, hasMatrix: bool, i: nat) returns (aligned: nat)
    requires Positive(a) && i < |classes| == |ranges|
    ensures var step := StepOf(a, classes[i]);
            if ranges[i] <= step then aligned == ranges[i] else aligned % step == 0 && aligned <= ranges[i] < aligned + step
    ensures InitialTiles(ranges, a, classes, Cap(hasMatrix))[i] ==
            if classes[i] == Vector || classes[i] == Unroll then Min(aligned, if hasMatrix then 64 else 16) else aligned
  {
    aligned := Aligned(ranges[i], StepOf(a, classes[i]));
  }

  /** The DTCM pass.  The search terminates, with the one answer there is: the first tiling that fits
      on the way from the initial tiles, at once if those fit; otherwise the first one from the
      ranges on; it gives up only when no tiling of either search, the all-ones tiling among them,
      fits.  The tiles derive from those the search started from. */
  method DtcmPass(ranges: seq<nat>, l: Loops, ghost classes: seq<Class>, parallel: seq<nat>, reduction: seq<nat>,
                  hasMatrix: bool, footprint: seq<nat> -> nat, limit: nat)
    returns (r: Outcome)
    requires |classes| == |ranges| && Partition(l, classes)
    ensures var steps := Recovered(l, parallel, reduction);
            var initial := InitialTiles(ranges, steps, classes, Cap(hasMatrix));
            && Answer(ranges, steps, classes, initial, footprint, limit, r)
            && (Fits(footprint, initial, limit) ==> r == Tiled(initial, false))
            && (r.Tiled? && !r.fallback ==> TilesOk(initial, steps, classes, r.tiles))
    ensures r.Tiled? ==> Fits(footprint, r.tiles, limit)
    ensures r.Tiled? && r.fallback ==> TilesOk(ranges, UNIT_STEPS, classes, r.tiles)
    ensures r.CannotFit? ==> !Fits(footprint, Unit(ranges), limit)
  {
    var vector := RecoverStep(l.vector, parallel);
    var unroll := RecoverStep(l.unroll, parallel);
    var batch := RecoverStep(l.batch, parallel);
    var reductionStep := RecoverStep(l.reduction, reduction);
    var a := Steps(vector, unroll, reductionStep, batch);
    var cap := Cap(hasMatrix);
    var tiles := StartTiles(ranges, l, classes, a, cap);
    var fallback := false;
    ghost var steps, base := a, tiles[..];
    InitialTilesOk(ranges, a, classes, cap);
    ComesAtOnce(a, classes, footprint, limit, base);
    while !Fits(footprint, tiles[..], limit)
      invariant fresh(tiles) && Positive(a)
      invariant TilesOk(base, a, classes, tiles[..])
      invariant Comes(a, classes, footprint, limit, base, tiles[..])
      invariant !fallback ==> a == steps && base == InitialTiles(ranges, steps, classes, cap)
      invariant !fallback && Fits(footprint, base, limit) ==> tiles[..] == base
      invariant fallback ==> a == UNIT_STEPS && base == ranges && steps != UNIT_STEPS
      invariant fallback ==> RunsOut(steps, classes, footprint, limit, InitialTiles(ranges, steps, classes, cap))
      decreases a != UNIT_STEPS, Sum(tiles[..])
    {
      ghost var before := tiles[..];
      var shrunk := ShrinkOnce(l, classes, a, tiles, base);
      if shrunk {
        ComesNext(a, classes, footprint, limit, base, before, tiles[..]);
        continue;
      }
      assert Exhausted(a, classes, footprint, limit, base, tiles[..]);
      if a.vector > 1 || a.unroll > 1 || a.reduction > 1 || a.batch > 1 {
        a := UNIT_STEPS;
        fallback := true;
        tiles := new nat[|ranges|](i requires 0 <= i < |ranges| => ranges[i]);
        base := ranges;
        assert tiles[..] == ranges;
        ComesAtOnce(a, classes, footprint, limit, base);
        continue;
      }
      assert a == UNIT_STEPS;
      ExhaustedTiles(ranges, classes, cap, base, tiles[..]);
      return CannotFit;
    }
    return Tiled(tiles[..], fallback);
  }

  lemma ExhaustedTiles(ranges: seq<nat>, classes: seq<Class>, cap: nat, base: seq<nat>, tiles: seq<nat>)
    requires |classes| == |ranges| && cap >= 1 && TilesOk(base, UNIT_STEPS, classes, tiles)
    requires base == ranges || base == InitialTiles(ranges, UNIT_STEPS, classes, cap)
    requires NoRoom(UNIT_STEPS, classes, tiles)
    ensures tiles == Unit(ranges)
  {
    forall i: nat | i < |tiles| ensures tiles[i] == Unit(ranges)[i] { assert !HasRoom(UNIT_STEPS, classes, tiles, i); }
  }

  // ----- what the outcome means -----

  predicate Below(s: seq<nat>, t: seq<nat>) {
    |s| == |t| && forall i :: 0 <= i < |s| ==> s[i] <= t[i]
  }

  predicate AllPositive(s: seq<nat>) {
    forall i :: 0 <= i < |s| ==> s[i] > 0
  }

  /** Growing a tile never shrinks the footprint; zero is not a tile size but means untiled. */
  ghost predicate Monotone(footprint: seq<nat> -> nat, n: nat) {
    forall s, t :: |s| == n && AllPositive(s) && Below(s, t) ==> footprint(s) <= footprint(t)
  }

  /** A tiling of the loops: every tile is inside its range, and zero only for an empty one. */
  predicate Tiling(t: seq<nat>, ranges: seq<nat>) {
    Below(Unit(ranges), t) && Below(t, ranges)
  }

  lemma TilesAreTilings(ranges: seq<nat>, a: Steps, classes: seq<Class>, cap: nat, tiles: seq<nat>)
    requires Positive(a) && |classes| == |ranges| && cap >= 1
    ensures TilesOk(InitialTiles(ranges, a, classes, cap), a, classes, tiles) ==> Tiling(tiles, ranges)
    ensures TilesOk(ranges, UNIT_STEPS, classes, tiles) ==> Tiling(tiles, ranges)
  {
  }

  /** For a monotone footprint the pass is complete: some tiling of the loops fits exactly
      when the all-ones tiling does. */
  lemma UnitTilingDecides(footprint: seq<nat> -> nat, ranges: seq<nat>, limit: nat)
    requires Monotone(footprint, |ranges|) && AllPositive(ranges)
    ensures Fits(footprint, Unit(ranges), limit) <==>
              exists t :: Tiling(t, ranges) && Fits(footprint, t, limit)
  {
  }
}
