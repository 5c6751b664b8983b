/** Tile register numbers for the chains of one function, and why different numbers suffice:
    however the operations of the chains are interleaved, each writeback stores the accumulation
    of its own chain. */
module TileAssignment {
  import opened Options

  const TILE_REGISTERS: nat := 16

  // ----- the numbering loop of the pass -----

  /** `lowerable[c]` says whether chain `c` starts from a read or from constant zero.  Numbers are
      drawn for every chain, also for those that are then skipped; the pass fails at the first
      number that is not a register. */
  method AssignTiles(lowerable: seq<bool>) returns (ok: bool, ids: seq<Option<nat>>)
    ensures ok <==> |lowerable| <= TILE_REGISTERS
    ensures ok ==> |ids| == |lowerable|
    ensures ok ==> forall c :: 0 <= c < |ids| ==> ids[c] == if lowerable[c] then Some(c) else None
    ensures ok ==> forall c, d :: 0 <= c < d < |ids| && ids[c].Some? && ids[d].Some? ==> ids[c].value != ids[d].value < TILE_REGISTERS
  {
    var nextTileId := 0;
    ids := [];
    for c := 0 to |lowerable|
      invariant nextTileId == c == |ids| <= TILE_REGISTERS
      invariant forall d :: 0 <= d < c ==> ids[d] == if lowerable[d] then Some(d) else None
    {
      var tileId := nextTileId;
      nextTileId := nextTileId + 1;
      if tileId >= TILE_REGISTERS {
        return false, [];
      }
      if !lowerable[c] {
        ids := ids + [None];
        continue;
      }
      ids := ids + [Some(tileId)];
    }
    ok := true;
  }

  // ----- tile operations -----

  /** `V` is the type of a vector, `A` of a block address. */
  datatype Op<V, A> = Init(tile: nat, value: V) | Mac(tile: nat, lhs: V, rhs: V) | Store(tile: nat, addr: A)

  ghost function Apply<V, A>(mac: (V, V, V) -> V, op: Op<V, A>, tiles: map<nat, V>): map<nat, V> {
    match op
    case Init(t, v) => tiles[t := v]
    case Mac(t, x, y) => if t in tiles then tiles[t := mac(tiles[t], x, y)] else tiles
    case Store(_, _) => tiles
  }

  ghost function Written<V, A>(op: Op<V, A>, tiles: map<nat, V>): seq<(A, V)> {
    if op.Store? && op.tile in tiles then [(op.addr, tiles[op.tile])] else []
  }

  /** The blocks stored by a run, in order. */
  ghost function Stores<V, A>(mac: (V, V, V) -> V, ops: seq<Op<V, A>>, tiles: map<nat, V>): seq<(A, V)> {
    if ops == [] then []
    else Written(ops[0], tiles) + Stores(mac, ops[1..], Apply(mac, ops[0], tiles))
  }

  ghost predicate OnTile<V, A>(ops: seq<Op<V, A>>, tile: nat) {
    forall i :: 0 <= i < |ops| ==> ops[i].tile == tile
  }

  /** `ops` takes its operations from the parts, keeping the order of each. */
  ghost predicate Interleaves<V, A>(ops: seq<Op<V, A>>, parts: seq<seq<Op<V, A>>>)
    decreases |ops|
  {
    if ops == [] then forall c :: 0 <= c < |parts| ==> parts[c] == []
    else exists c :: 0 <= c < |parts| && Takes(ops, parts, c) && Interleaves(ops[1..], parts[c := parts[c][1..]])
  }

  ghost predicate Takes<V, A>(ops: seq<Op<V, A>>, parts: seq<seq<Op<V, A>>>, c: nat)
    requires ops != [] && c < |parts|
  {
    parts[c] != [] && parts[c][0] == ops[0]
  }

  ghost predicate Separate<V, A>(parts: seq<seq<Op<V, A>>>, ids: seq<nat>) {
    && |ids| == |parts|
    && (forall c :: 0 <= c < |parts| ==> OnTile(parts[c], ids[c]))
    && (forall c, d :: 0 <= c < d < |ids| ==> ids[c] != ids[d])
  }

  ghost predicate SameAt<V>(t1: map<nat, V>, t2: map<nat, V>, tile: nat) {
    (tile in t1 <==> tile in t2) && (tile in t1 ==> t1[tile] == t2[tile])
  }

  /** What a chain stores depends on its own tile only. */
  lemma {:induction false} StoresLocal<V, A>(mac: (V, V, V) -> V, ops: seq<Op<V, A>>, t1: map<nat, V>, t2: map<nat, V>, tile: nat)
    requires OnTile(ops, tile) && SameAt(t1, t2, tile)
    ensures Stores(mac, ops, t1) == Stores(mac, ops, t2)
    decreases |ops|
  {
    if ops != [] {
      assert ops[0].tile == tile;
      StoresLocal(mac, ops[1..], Apply(mac, ops[0], t1), Apply(mac, ops[0], t2), tile);
    }
  }

  /** The stores of the parts, each run on its own. */
  ghost function Alone<V, A>(mac: (V, V, V) -> V, parts: seq<seq<Op<V, A>>>, tiles: map<nat, V>): multiset<(A, V)> {
    if parts == [] then multiset{}
    else Alone(mac, parts[..|parts| - 1], tiles) + multiset(Stores(mac, parts[|parts| - 1], tiles))
  }

  ghost predicate SameStores<V, A>(mac: (V, V, V) -> V, part: seq<Op<V, A>>, t1: map<nat, V>, t2: map<nat, V>) {
    Stores(mac, part, t1) == Stores(mac, part, t2)
  }

  lemma {:induction false} AloneSame<V, A>(mac: (V, V, V) -> V, parts: seq<seq<Op<V, A>>>, t1: map<nat, V>, t2: map<nat, V>)
    requires forall d :: 0 <= d < |parts| ==> SameStores(mac, parts[d], t1, t2)
    ensures Alone(mac, parts, t1) == Alone(mac, parts, t2)
    decreases |parts|
  {
    if parts != [] {
      assert SameStores(mac, parts[|parts| - 1], t1, t2);
      AloneSame(mac, parts[..|parts| - 1], t1, t2);
    }
  }

  ghost predicate OthersSame<V, A>(mac: (V, V, V) -> V, parts: seq<seq<Op<V, A>>>, c: nat, t1: map<nat, V>, t2: map<nat, V>) {
    forall d :: 0 <= d < |parts| && d != c ==> SameStores(mac, parts[d], t1, t2)
  }

  lemma AloneLast<V, A>(mac: (V, V, V) -> V, parts: seq<seq<Op<V, A>>>, part: seq<Op<V, A>>, tiles: map<nat, V>)
    ensures Alone(mac, parts + [part], tiles) == Alone(mac, parts, tiles) + multiset(Stores(mac, part, tiles))
  {
  }

  lemma StoresStep<V, A>(mac: (V, V, V) -> V, part: seq<Op<V, A>>, tiles: map<nat, V>)
    requires part != []
    ensures multiset(Stores(mac, part, tiles)) ==
            multiset(Written(part[0], tiles)) + multiset(Stores(mac, part[1..], Apply(mac, part[0], tiles)))
  {
  }

  /** One step of part `c`: what it stores leaves the stores still to come. */
  lemma {:induction false} AloneStep<V, A>(mac: (V, V, V) -> V, parts: seq<seq<Op<V, A>>>, c: nat, t1: map<nat, V>, t2: map<nat, V>)
    requires c < |parts| && parts[c] != [] && t2 == Apply(mac, parts[c][0], t1) && OthersSame(mac, parts, c, t1, t2)
    ensures Alone(mac, parts, t1) == multiset(Written(parts[c][0], t1)) + Alone(mac, parts[c := parts[c][1..]], t2)
    decreases |parts|
  {
    var n := |parts| - 1;
    var front, last := parts[..n], parts[n];
    assert parts == front + [last];
    if c == n {
      assert parts[c := parts[c][1..]] == front + [last[1..]];
      LastSteps(mac, front, last, t1, t2);
    } else {
      var next := front[c := parts[c][1..]];
      assert parts[c := parts[c][1..]] == next + [last];
      assert OthersSame(mac, front, c, t1, t2) && SameStores(mac, last, t1, t2);
      AloneStep(mac, front, c, t1, t2);
      AloneLast(mac, front, last, t1);
      AloneLast(mac, next, last, t2);
      MoveOut(Alone(mac, front, t1), multiset(Written(parts[c][0], t1)), Alone(mac, next, t2), multiset(Stores(mac, last, t2)));
    }
  }

  lemma MoveOut<T>(a: multiset<T>, w: multiset<T>, b: multiset<T>, c: multiset<T>)
    requires a == w + b
    ensures a + c == w + (b + c)
  {
  }

  lemma LastSteps<V, A>(mac: (V, V, V) -> V, front: seq<seq<Op<V, A>>>, last: seq<Op<V, A>>, t1: map<nat, V>, t2: map<nat, V>)
    requires last != [] && t2 == Apply(mac, last[0], t1)
    requires forall d :: 0 <= d < |front| ==> SameStores(mac, front[d], t1, t2)
    ensures Alone(mac, front + [last], t1) == multiset(Written(last[0], t1)) + Alone(mac, front + [last[1..]], t2)
  {
    AloneSame(mac, front, t1, t2);
    AloneLast(mac, front, last, t1);
    StoresStep(mac, last, t1);
    AloneLast(mac, front, last[1..], t2);
    var a, w, b := Alone(mac, front, t1), multiset(Written(last[0], t1)), multiset(Stores(mac, last[1..], t2));
    assert a + (w + b) == w + (a + b);
  }

  lemma {:induction false} AloneEmpty<V, A>(mac: (V, V, V) -> V, parts: seq<seq<Op<V, A>>>, tiles: map<nat, V>)
    requires forall c :: 0 <= c < |parts| ==> parts[c] == []
    ensures Alone(mac, parts, tiles) == multiset{}
    decreases |parts|
  {
    if parts != [] { AloneEmpty(mac, parts[..|parts| - 1], tiles); }
  }

  lemma TailOnTile<V, A>(parts: seq<seq<Op<V, A>>>, ids: seq<nat>, c: nat)
    requires Separate(parts, ids) && c < |parts| && parts[c] != []
    ensures Separate(parts[c := parts[c][1..]], ids)
  {
  }

  /** Under every interleaving, chains on different tiles store what each stores alone. */
  lemma {:induction false} InterleavingHarmless<V, A>(mac: (V, V, V) -> V, ops: seq<Op<V, A>>, parts: seq<seq<Op<V, A>>>,
                                                      ids: seq<nat>, tiles: map<nat, V>)
    requires Separate(parts, ids) && Interleaves(ops, parts)
    ensures multiset(Stores(mac, ops, tiles)) == Alone(mac, parts, tiles)
    decreases |ops|
  {
    if ops == [] {
      AloneEmpty(mac, parts, tiles);
    } else {
      var c :| 0 <= c < |parts| && Takes(ops, parts, c) && Interleaves(ops[1..], parts[c := parts[c][1..]]);
      var next := Apply(mac, ops[0], tiles);
      assert OnTile(parts[c], ids[c]) && parts[c][0].tile == ids[c];
      forall d | 0 <= d < |parts| && d != c ensures SameStores(mac, parts[d], tiles, next) {
        assert OnTile(parts[d], ids[d]) && ids[d] != ids[c];
        StoresLocal(mac, parts[d], tiles, next, ids[d]);
      }
      AloneStep(mac, parts, c, tiles, next);
      TailOnTile(parts, ids, c);
      InterleavingHarmless(mac, ops[1..], parts[c := parts[c][1..]], ids, next);
    }
  }

  // ----- chains -----

  datatype Chain<V, A> = Chain(init: V, operands: seq<(V, V)>, addr: A)

  /** The operations the pass emits for a chain, as they are executed. */
  ghost function ChainOps<V, A>(c: Chain<V, A>, tile: nat): seq<Op<V, A>> {
    [Init(tile, c.init)] + Rest(c, tile, 0)
  }

  ghost function Rest<V, A>(c: Chain<V, A>, tile: nat, i: nat): seq<Op<V, A>>
    decreases |c.operands| - i
  {
    if i >= |c.operands| then [Store(tile, c.addr)]
    else [Mac(tile, c.operands[i].0, c.operands[i].1)] + Rest(c, tile, i + 1)
  }

  /** The source's accumulation: every operand pair in order. */
  ghost function Accumulated<V, A>(mac: (V, V, V) -> V, c: Chain<V, A>, n: nat): V
    requires n <= |c.operands|
  {
    if n == 0 then c.init else mac(Accumulated(mac, c, n - 1), c.operands[n - 1].0, c.operands[n - 1].1)
  }

  lemma {:induction false} RestStores<V, A>(mac: (V, V, V) -> V, c: Chain<V, A>, tile: nat, i: nat, tiles: map<nat, V>)
    requires i <= |c.operands| && tile in tiles && tiles[tile] == Accumulated(mac, c, i)
    ensures Stores(mac, Rest(c, tile, i), tiles) == [(c.addr, Accumulated(mac, c, |c.operands|))]
    ensures OnTile(Rest(c, tile, i), tile)
    decreases |c.operands| - i
  {
    var ops := Rest(c, tile, i);
    if i < |c.operands| {
      RestStores(mac, c, tile, i + 1, Apply(mac, ops[0], tiles));
      assert ops[1..] == Rest(c, tile, i + 1);
    }
  }

  lemma ChainStores<V, A>(mac: (V, V, V) -> V, c: Chain<V, A>, tile: nat, tiles: map<nat, V>)
    ensures Stores(mac, ChainOps(c, tile), tiles) == [(c.addr, Accumulated(mac, c, |c.operands|))]
    ensures OnTile(ChainOps(c, tile), tile)
  {
    var ops := ChainOps(c, tile);
    RestStores(mac, c, tile, 0, Apply(mac, ops[0], tiles));
    assert ops[1..] == Rest(c, tile, 0);
  }

  ghost function AllOps<V, A>(chains: seq<Chain<V, A>>, ids: seq<nat>): seq<seq<Op<V, A>>>
    requires |ids| == |chains|
  {
    seq(|chains|, c requires 0 <= c < |chains| => ChainOps(chains[c], ids[c]))
  }

  /** One store per chain, of that chain's accumulation. */
  ghost function Expected<V, A>(mac: (V, V, V) -> V, chains: seq<Chain<V, A>>): seq<(A, V)> {
    seq(|chains|, c requires 0 <= c < |chains| => (chains[c].addr, Accumulated(mac, chains[c], |chains[c].operands|)))
  }

  lemma {:induction false} AloneExpected<V, A>(mac: (V, V, V) -> V, chains: seq<Chain<V, A>>, ids: seq<nat>, tiles: map<nat, V>)
    requires |ids| == |chains|
    ensures Alone(mac, AllOps(chains, ids), tiles) == multiset(Expected(mac, chains))
    decreases |chains|
  {
    var n := |chains| - 1;
    if n >= 0 {
      AloneExpected(mac, chains[..n], ids[..n], tiles);
      ChainStores(mac, chains[n], ids[n], tiles);
      assert AllOps(chains, ids)[..n] == AllOps(chains[..n], ids[..n]);
      assert Expected(mac, chains) == Expected(mac, chains[..n]) + [(chains[n].addr, Accumulated(mac, chains[n], |chains[n].operands|))];
    }
  }

  /** Chains with pairwise different tiles: every interleaving stores each chain's accumulation
      exactly once, at its own address, and nothing else. */
  lemma EachStoresItsOwn<V, A>(mac: (V, V, V) -> V, chains: seq<Chain<V, A>>, ids: seq<nat>, ops: seq<Op<V, A>>, tiles: map<nat, V>)
    requires |ids| == |chains| && forall c, d :: 0 <= c < d < |ids| ==> ids[c] != ids[d]
    requires Interleaves(ops, AllOps(chains, ids))
    ensures multiset(Stores(mac, ops, tiles)) == multiset(Expected(mac, chains))
  {
    var parts := AllOps(chains, ids);
    forall c | 0 <= c < |parts| ensures OnTile(parts[c], ids[c]) {
      ChainStores(mac, chains[c], ids[c], tiles);
    }
    InterleavingHarmless(mac, ops, parts, ids, tiles);
    AloneExpected(mac, chains, ids, tiles);
  }

  /** Different numbers are needed: on one tile, two chains that start from different values have
      an interleaving that stores a wrong value. */
  lemma SharedTileBreaks<V, A>(mac: (V, V, V) -> V, v: V, w: V, a: A, b: A, tile: nat, tiles: map<nat, V>)
      returns (ops: seq<Op<V, A>>)
    requires v != w && a != b
    ensures Interleaves(ops, AllOps([Chain(v, [], a), Chain(w, [], b)], [tile, tile]))
    ensures multiset(Stores(mac, ops, tiles)) != multiset(Expected(mac, [Chain(v, [], a), Chain(w, [], b)]))
  {
    var c1, c2 := Chain(v, [], a), Chain(w, [], b);
    ops := [Init(tile, v), Init(tile, w), Store(tile, a), Store(tile, b)];
    EmptyChainOps(v, a, tile);
    EmptyChainOps(w, b, tile);
    assert AllOps([c1, c2], [tile, tile]) == [[Init(tile, v), Store(tile, a)], [Init(tile, w), Store(tile, b)]];
    CrossedInterleaving<V, A>(Init(tile, v), Init(tile, w), Store(tile, a), Store(tile, b));
    CrossedStores(mac, v, w, a, b, tile, tiles);
    assert Expected(mac, [c1, c2]) == [(a, v), (b, w)];
    assert (a, v) in multiset([(a, v), (b, w)]) && (a, v) !in multiset([(a, w), (b, w)]);
  }

  lemma EmptyChainOps<V, A>(v: V, a: A, tile: nat)
    ensures ChainOps(Chain(v, [], a), tile) == [Init(tile, v), Store(tile, a)]
  {
  }

  lemma CrossedInterleaving<V, A>(x: Op<V, A>, y: Op<V, A>, x': Op<V, A>, y': Op<V, A>)
    ensures Interleaves([x, y, x', y'], [[x, x'], [y, y']])
  {
    var none: seq<Op<V, A>> := [];
    var ops := [x, y, x', y'];
    assert Interleaves(none, [none, none]);
    assert [y'][1..] == none && [none, [y']][1 := [y'][1..]] == [none, none];
    assert Takes([y'], [none, [y']], 1) && Interleaves([y'], [none, [y']]);
    assert [x', y'][1..] == [y'] && [[x'], [y']][0 := [x'][1..]] == [none, [y']];
    assert Takes([x', y'], [[x'], [y']], 0) && Interleaves([x', y'], [[x'], [y']]);
    assert [y, x', y'][1..] == [x', y'] && [[x'], [y, y']][1 := [y, y'][1..]] == [[x'], [y']];
    assert Takes([y, x', y'], [[x'], [y, y']], 1) && Interleaves([y, x', y'], [[x'], [y, y']]);
    assert ops[1..] == [y, x', y'] && [[x, x'], [y, y']][0 := [x, x'][1..]] == [[x'], [y, y']];
    assert Takes(ops, [[x, x'], [y, y']], 0);
  }

  lemma CrossedStores<V, A>(mac: (V, V, V) -> V, v: V, w: V, a: A, b: A, tile: nat, tiles: map<nat, V>)
    ensures Stores(mac, [Init(tile, v), Init(tile, w), Store(tile, a), Store(tile, b)], tiles) == [(a, w), (b, w)]
  {
    var t1 := tiles[tile := v];
    var t2 := t1[tile := w];
    var s1, s2: seq<Op<V, A>> := [Store(tile, a), Store(tile, b)], [Store(tile, b)];
    var i1, i2: seq<Op<V, A>> := [Init(tile, v), Init(tile, w)] + s1, [Init(tile, w)] + s1;
    assert s2[1..] == [] && Stores(mac, s2, t2) == [(b, w)];
    assert s1[1..] == s2 && Stores(mac, s1, t2) == [(a, w)] + [(b, w)];
    assert i2[1..] == s1 && Stores(mac, i2, t1) == [(a, w)] + [(b, w)];
    assert i1[1..] == i2 && Stores(mac, i1, tiles) == [(a, w)] + [(b, w)];
    assert [(a, w)] + [(b, w)] == [(a, w), (b, w)];
  }
}
