/** Both lowerings together: a function whose chains are all lowered, run with row operations on
    memory cells, leaves in them the blocks that the source function leaves. */
module PassOnCells {
  import opened Options
  import opened TensorIR
  import opened TileRewrite
  import opened MatrixProgram
  import opened MatrixExact
  import opened MatrixPass
  import opened MatrixAlways
  import opened SsaEdits
  import opened ChainTransport
  import opened PassEdits
  import opened PassComposition
  import opened CellRefinement
  import So = ChainSoundness

  /** Every operation can run on the cells or is a write that will be lowered. */
  ghost predicate Covered(prog: seq<Top>, works: seq<Work>) {
    forall i :: 0 <= i < |prog| ==> TopOnCells(prog[i]) || WrittenBy(works, i)
  }

  ghost predicate WrittenBy(works: seq<Work>, i: nat) {
    exists x :: 0 <= x < |works| && WriteOf(works[x]) == i
  }

  lemma {:induction false} RenamedOnCells(m: map<Id, Id>, top: Top)
    requires TopOnCells(top)
    ensures TopOnCells(RenameTop(m, top))
  {
    if top.For? {
      forall p | 0 <= p < |top.loop.body| ensures OnCells(RenameStmt(m, top.loop.body[p])) { assert OnCells(top.loop.body[p]); }
    }
  }

  lemma {:induction false} LoopOnCells(l: Loop, acc: nat, updates: set<Id>, tile: nat, n: nat)
    requires SameArity(l) && acc < |l.args| && BodyOnCells(l.body)
    ensures BodyOnCells(RewriteLoop(l, acc, updates, tile, n).body)
  {
    RewriteLength(l.body, ArgMap(l, acc, n), updates, tile, n);
    forall p | 0 <= p < |l.body| ensures OnCells(RewriteLoop(l, acc, updates, tile, n).body[p]) {
      RewriteAt(l.body, ArgMap(l, acc, n), updates, tile, n, p);
      assert OnCells(l.body[p]);
    }
  }

  lemma {:induction false} EditOnCells(prog: seq<Top>, work: Work, tile: nat, n: nat, e: Edit)
    requires Shaped(prog, work) && tile < MACHINE_TILES && TopOnCells(prog[Place(work)])
    requires work.Looped? ==> Position(work) < |prog[Place(work)].loop.results|
    requires e == EditOf(prog, work, Position(work), tile, n)
    ensures OnCells(e.init) && TopOnCells(e.core)
  {
    if work.Looped? { LoopOnCells(prog[work.f.k].loop, work.f.acc, So.Names(work.f.us), tile, n); }
  }

  /** The rewrite covers its own write and leaves the others to their chains. */
  lemma {:induction false} CoveredNext(prog: seq<Top>, works: seq<Work>, e: Edit, prog': seq<Top>)
    requires Covered(prog, works) && works != [] && IsEdited(prog, e, prog') && e.w == WriteOf(works[0])
    requires OnCells(e.init) && TopOnCells(e.core)
    ensures Covered(prog', MoveAll(e, works[1..]))
  {
    forall j | 0 <= j < |prog'| ensures TopOnCells(prog'[j]) || WrittenBy(MoveAll(e, works[1..]), j) {
      if !Inserted(e, j) {
        OldTop(prog, e, prog', j);
        CoveredOne(prog, works, e, OldAt(e, j));
      }
    }
  }

  lemma {:induction false} CoveredOne(prog: seq<Top>, works: seq<Work>, e: Edit, i: nat)
    requires Covered(prog, works) && works != [] && EditAt(prog, e) && i < |prog| && e.w == WriteOf(works[0])
    ensures TopOnCells(Kept(prog, e, i)) || WrittenBy(MoveAll(e, works[1..]), Moved(e, i))
  {
    if i != e.w {
      if TopOnCells(prog[i]) {
        RenamedOnCells(e.m, prog[i]);
      } else {
        var x :| 0 <= x < |works| && WriteOf(works[x]) == i;
        assert MoveAll(e, works[1..])[x - 1] == MovedWork(e, works[x]);
      }
    }
  }

  /** With every write lowered, the function runs on the cells. */
  lemma {:induction false} AllLoweredOnCells(prog: seq<Top>, works: seq<Work>, tiles: seq<nat>, n: nat)
    requires AllRight(prog, works, tiles, n) && Covered(prog, works) && forall i :: 0 <= i < |tiles| ==> tiles[i] < MACHINE_TILES
    ensures AllOnCells(LowerAll(prog, works, tiles, n))
    decreases |works|
  {
    if works != [] {
      var work, tile := works[0], tiles[0];
      RightShaped(prog, work, tile, n);
      var e := EditOf(prog, work, Position(work), tile, n);
      var prog' := LowerOne(prog, work, tile, n);
      OneIsEdit(prog, work, tile, n);
      PlaceOnCells(prog, works, tiles, n);
      EditOnCells(prog, work, tile, n, e);
      CoveredNext(prog, works, e, prog');
      RestRight(prog, works, tiles, n, e, prog');
      AllLoweredOnCells(prog', MoveAll(e, works[1..]), tiles[1..], 2 * n);
    }
  }

  /** The operation that a chain replaces is not a write. */
  lemma {:induction false} PlaceOnCells(prog: seq<Top>, works: seq<Work>, tiles: seq<nat>, n: nat)
    requires AllRight(prog, works, tiles, n) && Covered(prog, works) && works != [] && Shaped(prog, works[0])
    ensures TopOnCells(prog[Place(works[0])])
  {
    var i := Place(works[0]);
    if !TopOnCells(prog[i]) {
      var x :| 0 <= x < |works| && WriteOf(works[x]) == i;
      RightShaped(prog, works[x], tiles[x], n);
    }
  }

  /** The cells after the run hold the memory of the source function: for every configuration of
      disjoint blocks, every meaning of the other operations, and any number of chains and
      iterations. */
  lemma {:induction false} LoweredOnCells<E(!new)>(c: Config<E>, sem: Sem<Value<E>>, prog: seq<Top>, works: seq<Work>,
                                            tiles: seq<nat>, n: nat,
                                                   st: Cells<E>) returns (r: Cells<E>)
    requires Setting(c, sem) && Sound(c, st) && AllRight(prog, works, tiles, n) && Covered(prog, works)
    requires forall i :: 0 <= i < |tiles| ==> tiles[i] < MACHINE_TILES
    requires MatrixPass.Arguments(prog, n, BlockState(c, st)) && Run(sem, prog, BlockState(c, st)).Some?
    requires Run(sem, prog, BlockState(c, st)).value.mem.Keys <= c.addrs
    ensures CellRun(c, sem, LowerAll(prog, works, tiles, n), st) == Some(r)
    ensures BlockState(c, r).mem == Run(sem, prog, BlockState(c, st)).value.mem
  {
    var code := LowerAll(prog, works, tiles, n);
    AllAgree(sem, prog, works, tiles, n, BlockState(c, st));
    AllLoweredOnCells(prog, works, tiles, n);
    RunRefines(c, sem, code, st);
    r := CellRun(c, sem, code, st).value;
  }
}
