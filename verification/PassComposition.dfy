/** The pass on a function with several chains: they are rewritten one after the other, each on its
    own tile, and the function still leaves the memory of the source. */
module PassComposition {
  import opened Options
  import opened TensorIR
  import opened TileRewrite
  import opened MatrixProgram
  import opened MatrixExact
  import opened MatrixPass
  import opened MatrixAlways
  import opened ChainAnalysis
  import opened SsaEdits
  import opened ChainTransport
  import opened ChainMoves
  import opened PassEdits
  import So = ChainSoundness
  import St = StraightPass

  /** A chain through a loop, or a single contraction. */
  datatype Work = Looped(f: Found) | Lone(s: St.Single)

  /** Where the work is done and where its result is written. */
  function Place(work: Work): nat {
    if work.Looped? then work.f.k else work.s.k
  }

  function WriteOf(work: Work): nat {
    if work.Looped? then work.f.w else work.s.w
  }

  function StartOf(work: Work): nat {
    if work.Looped? then work.f.j else work.s.j
  }

  /** The operations are where the work expects them. */
  predicate Shaped(prog: seq<Top>, work: Work) {
    && Place(work) < WriteOf(work) < |prog| && prog[WriteOf(work)].Simple? && prog[WriteOf(work)].stmt.Write?
    && StartOf(work) < |prog| && prog[StartOf(work)].Simple? && Defines(prog[StartOf(work)].stmt)
    && var top := prog[Place(work)];
       if work.Looped? then top.For? && SameArity(top.loop) && work.f.acc < |top.loop.results|
       else top.Simple? && top.stmt.Contract?
  }

  /** The rewrite of one chain when carried position `dropped` is removed. */
  function EditOf(prog: seq<Top>, work: Work, dropped: nat, tile: nat, n: nat): Edit
    requires Shaped(prog, work) && (work.Looped? ==> dropped < |prog[Place(work)].loop.results|)
  {
    match work
    case Looped(f) =>
      var l := prog[f.k].loop;
      Edit(f.k, f.w, InitOp(f.init, tile), For(RewriteLoop(l, dropped, So.Names(f.us), tile, n)), l.results[dropped], dropped,
           ResultMap(l.results, n), tile, n)
    case Lone(s) =>
      var u := prog[s.k].stmt;
      Edit(s.k, s.w, InitOp(s.init, tile), Simple(TileMac(tile, u.lhs, u.rhs)), u.def, 0, map[u.def := u.def + n], tile, n)
  }

  /** Where the chain stands after the edit. */
  function MovedWork(e: Edit, work: Work): Work {
    match work
    case Looped(f) => Looped(MovedFound(e, f))
    case Lone(s) => Lone(MovedSingle(e, s))
  }

  function MoveAll(e: Edit, works: seq<Work>): seq<Work> {
    seq(|works|, i requires 0 <= i < |works| => MovedWork(e, works[i]))
  }

  function Position(work: Work): nat {
    if work.Looped? then work.f.acc else 0
  }

  // ----- one chain -----

  /** The conditions under which the rewrite of the chain is right for every meaning. */
  ghost predicate Right(prog: seq<Top>, work: Work, tile: nat, n: nat) {
    match work
    case Looped(f) => FoundOk(prog, f) && Usable(prog, f, tile, n) && Conditions(prog, f) && KeepsBlock(prog, f)
    case Lone(s) =>
      St.SingleOk(prog, s) && St.SingleUsable(prog, s, tile, n) && !prog[s.k].stmt.transposed && KeepsInit(prog, s.init, s.j, s.k)
  }

  lemma RightShaped(prog: seq<Top>, work: Work, tile: nat, n: nat)
    requires Right(prog, work, tile, n)
    ensures Shaped(prog, work) && Ssa(prog) && Position(work) < (if work.Looped? then |prog[Place(work)].loop.results| else 1)
  {
  }

  ghost function LowerOne(prog: seq<Top>, work: Work, tile: nat, n: nat): seq<Top>
    requires Shaped(prog, work)
  {
    Edited(prog, EditOf(prog, work, Position(work), tile, n))
  }

  lemma {:induction false} LoopedIs(prog: seq<Top>, f: Found, tile: nat, n: nat)
    requires FoundOk(prog, f) && Shaped(prog, Looped(f))
    ensures EditOf(prog, Looped(f), f.acc, tile, n) == LoopEdit(prog, f, tile, n)
    ensures LowerOne(prog, Looped(f), tile, n) == Lowered(prog, f, f.acc, tile, n)
  {
    LoopEditIs(prog, f, tile, n);
  }

  lemma {:induction false} LoneIs(prog: seq<Top>, s: St.Single, tile: nat, n: nat)
    requires St.SingleOk(prog, s) && Shaped(prog, Lone(s))
    ensures EditOf(prog, Lone(s), 0, tile, n) == SingleEdit(prog, s, tile, n)
    ensures LowerOne(prog, Lone(s), tile, n) == St.SingleLowered(prog, s, tile, n)
  {
    SingleEditIs(prog, s, tile, n);
  }

  lemma {:induction false} OneIsEdit(prog: seq<Top>, work: Work, tile: nat, n: nat)
    requires Right(prog, work, tile, n) && UsesBelow(prog, n) && Shaped(prog, work)
    ensures PassEdit(prog, EditOf(prog, work, Position(work), tile, n), LowerOne(prog, work, tile, n))
  {
    match work {
      case Looped(f) =>
        LoopedIs(prog, f, tile, n);
        LoweredIsEdited(prog, f, tile, n);
        LoopIsEdit(prog, f, tile, n, LoopEdit(prog, f, tile, n), Lowered(prog, f, f.acc, tile, n));
      case Lone(s) =>
        LoneIs(prog, s, tile, n);
        SingleIsEdit(prog, s, tile, n, SingleEdit(prog, s, tile, n), St.SingleLowered(prog, s, tile, n));
    }
  }

  lemma {:induction false} OneAgreesAlone<V>(sem: Sem<V>, prog: seq<Top>, work: Work, tile: nat, n: nat, st: State<V>)
    requires Right(prog, work, tile, n) && Shaped(prog, work) && Arguments(prog, n, st) && Run(sem, prog, st).Some?
    ensures SameResult(sem, prog, LowerOne(prog, work, tile, n), st)
  {
    match work {
      case Looped(f) =>
        LoopedIs(prog, f, tile, n);
        OneAgrees(sem, prog, f, tile, n, st);
      case Lone(s) =>
        LoneIs(prog, s, tile, n);
        St.SingleAgrees(sem, prog, s, tile, n, st);
    }
  }

  // ----- another chain -----

  /** Two chains do not share the operation they replace; then they share no write, either. */
  lemma {:induction false} WorksApart(prog: seq<Top>, work: Work, other: Work, tile: nat, t: nat, n: nat)
    requires Right(prog, work, tile, n) && Right(prog, other, t, n) && Place(work) != Place(other)
    ensures WriteOf(other) != WriteOf(work) && StartOf(other) != Place(work) && WriteOf(other) != Place(work) && Place(other) != WriteOf(work)
  {
    VecSite(prog, work, tile, n);
    VecSite(prog, other, t, n);
  }

  lemma VecSite(prog: seq<Top>, work: Work, tile: nat, n: nat)
    requires Right(prog, work, tile, n)
    ensures WriteOf(work) < |prog| && prog[WriteOf(work)].Simple? && prog[WriteOf(work)].stmt.Write?
    ensures var site := SiteOf(prog, prog[WriteOf(work)].stmt.vec);
            !site.Outside? && site.top == Place(work)
    ensures StartOf(work) < |prog| && prog[StartOf(work)].Simple? && !prog[StartOf(work)].stmt.Contract?
  {
    assert SsaTop(prog, Place(work));
  }

  lemma {:induction false} RightMoved(prog: seq<Top>, e: Edit, prog': seq<Top>, other: Work, t: nat)
    requires PassEdit(prog, e, prog') && Right(prog, other, t, e.n) && t != e.tile && Place(other) != e.k
    requires WriteOf(other) != e.w && StartOf(other) != e.k && WriteOf(other) != e.k && Place(other) != e.w
    ensures Right(prog', MovedWork(e, other), t, 2 * e.n)
  {
    match other {
      case Looped(g) =>
        UsableMoved(prog, e, prog', g, t);
        ConditionsMoved(prog, e, prog', g);
        InitMoved(prog, e, prog', g.init, g.j, g.k);
      case Lone(g) =>
        SingleMoved(prog, e, prog', g);
        SingleUsableMoved(prog, e, prog', g, t);
        InitMoved(prog, e, prog', g.init, g.j, g.k);
    }
  }

  // ----- all chains -----

  ghost predicate PlacesApart(works: seq<Work>) {
    forall i, j :: 0 <= i < j < |works| ==> Place(works[i]) != Place(works[j])
  }

  ghost predicate TilesApart(tiles: seq<nat>) {
    forall i, j :: 0 <= i < j < |tiles| ==> tiles[i] != tiles[j]
  }

  /** Every chain is one the pass handles rightly, no two replace the same operation, and no two have
      the same tile. */
  ghost predicate AllRight(prog: seq<Top>, works: seq<Work>, tiles: seq<nat>, n: nat) {
    && |works| == |tiles| && UsesBelow(prog, n) && PlacesApart(works) && TilesApart(tiles)
    && forall i :: 0 <= i < |works| ==> Right(prog, works[i], tiles[i], n)
  }

  /** One chain after the other; those still to come are followed to where they then stand. */
  ghost function LowerAll(prog: seq<Top>, works: seq<Work>, tiles: seq<nat>, n: nat): seq<Top>
    requires |works| == |tiles|
    decreases |works|
  {
    if works == [] || !Shaped(prog, works[0]) then prog
    else
      var e := EditOf(prog, works[0], Position(works[0]), tiles[0], n);
      LowerAll(Edited(prog, e), MoveAll(e, works[1..]), tiles[1..], 2 * n)
  }

  lemma {:induction false} RestRight(prog: seq<Top>, works: seq<Work>, tiles: seq<nat>, n: nat, e: Edit, prog': seq<Top>)
    requires AllRight(prog, works, tiles, n) && works != [] && Shaped(prog, works[0])
    requires e == EditOf(prog, works[0], Position(works[0]), tiles[0], n) && PassEdit(prog, e, prog')
    ensures AllRight(prog', MoveAll(e, works[1..]), tiles[1..], 2 * n)
  {
    UsesStayBelow(prog, e, prog');
    var rest := MoveAll(e, works[1..]);
    forall i | 0 <= i < |rest| ensures Right(prog', rest[i], tiles[1..][i], 2 * n) {
      assert rest[i] == MovedWork(e, works[i + 1]) && Place(works[0]) != Place(works[i + 1]) && tiles[0] != tiles[i + 1];
      WorksApart(prog, works[0], works[i + 1], tiles[0], tiles[i + 1], n);
      RightMoved(prog, e, prog', works[i + 1], tiles[i + 1]);
    }
    RestApart(works, e);
  }

  lemma RestApart(works: seq<Work>, e: Edit)
    requires works != [] && PlacesApart(works) && e.k == Place(works[0])
    ensures PlacesApart(MoveAll(e, works[1..]))
  {
    var rest := MoveAll(e, works[1..]);
    forall i, j | 0 <= i < j < |rest| ensures Place(rest[i]) != Place(rest[j]) {
      assert Place(works[0]) != Place(works[i + 1]) && Place(works[0]) != Place(works[j + 1]) && Place(works[i + 1]) != Place(works[j + 1]);
    }
  }

  lemma {:induction false} ArgumentsStay<V>(prog: seq<Top>, e: Edit, prog': seq<Top>, st: State<V>)
    requires PassEdit(prog, e, prog') && Arguments(prog, e.n, st)
    ensures Arguments(prog', 2 * e.n, st)
  {
    forall x | x in st.env ensures SiteOf(prog', x).Outside? && x < 2 * e.n { OutsideNew(prog, e, prog', x); }
  }

  /** The function with all its chains lowered runs whenever the source does and leaves the same
      memory, whatever its operations mean. */
  lemma {:induction false} AllAgree<V>(sem: Sem<V>, prog: seq<Top>, works: seq<Work>, tiles: seq<nat>, n: nat, st: State<V>)
    requires AllRight(prog, works, tiles, n) && Arguments(prog, n, st) && Run(sem, prog, st).Some?
    ensures SameResult(sem, prog, LowerAll(prog, works, tiles, n), st)
    decreases |works|
  {
    if works != [] {
      var work, tile := works[0], tiles[0];
      RightShaped(prog, work, tile, n);
      var e := EditOf(prog, work, Position(work), tile, n);
      var prog' := LowerOne(prog, work, tile, n);
      OneIsEdit(prog, work, tile, n);
      OneAgreesAlone(sem, prog, work, tile, n, st);
      RestRight(prog, works, tiles, n, e, prog');
      ArgumentsStay(prog, e, prog', st);
      AllAgree(sem, prog', MoveAll(e, works[1..]), tiles[1..], 2 * n, st);
    }
  }
}
