/** What the whole pass returns for the matrix product, operation by operation. */
module MatmulLowering {
  import opened Options
  import opened TensorIR
  import opened TileRewrite
  import opened MatrixProgram
  import opened MatrixLowering
  import opened MatmulExample
  import opened SsaEdits
  import CS = ChainStarts
  import MP = MatrixPass
  import PC = PassComposition
  import An = ChainAnalysis
  import So = ChainSoundness

  /** The initial value is filled into the tile before the loop, the contraction of the body is a
      tile update, nothing is carried, the former result is zero, and the tile is stored. */
  function LoweredFrom(start: Stmt, fill: Stmt, target: Id): seq<Top> {
    [ Simple(start),
      Simple(fill),
      For(Loop([], 18, [], 0, 1, 2, [], [Other(20, 1, [18]), Other(21, 2, [18]), TileMac(0, 20, 21)], [])),
      Simple(Const(23, true, 0)),
      Simple(TileStore(0, target)) ]
  }

  // ----- the trace -----

  lemma {:induction false} Through(start: Stmt, target: Id)
    requires StartOk(start, target)
    ensures CS.ThroughLoop(ProgFrom(start, target), 2, ZERO, 1, 0, [Update()])
  {
    ProgSsa(start, target);
    var us := [Update()];
    assert us[..0] == [] && CS.BodyChain(MatmulLoop().body, 6, [], 6) && MatmulLoop().body[2] == Update();
  }

  /** The one chain of the function. */
  function TraceFrom(start: Stmt): Trace {
    if Supported(start) then Traced(PC.Looped(FoundFrom(start))) else Skipped
  }

  lemma {:induction false} TraceIs(start: Stmt, target: Id)
    requires StartOk(start, target)
    ensures WriteAt(ProgFrom(start, target), 2) && TraceOf(ProgFrom(start, target), 2) == TraceFrom(start)
  {
    var prog := ProgFrom(start, target);
    Through(start, target);
    if start.Read? {
      CS.LoopFromRead(prog, 2, ZERO, 1, 0, [Update()], 0, BLOCK);
    } else if start.zero {
      CS.LoopFromZero(prog, 2, ZERO, 1, 0, [Update()], 0, start.code);
    } else {
      CS.OthersSkipped(prog, 2, ZERO, 1, 0, [Update()], [], 0, start.code);
    }
  }

  lemma {:induction false} TracesAre(start: Stmt, target: Id)
    requires StartOk(start, target)
    ensures An.Ssa(ProgFrom(start, target)) && Traces(ProgFrom(start, target), 3) == [TraceFrom(start)]
  {
    var prog := ProgFrom(start, target);
    TraceIs(start, target);
    TracesNext(prog, 0);
    TracesNext(prog, 1);
    TracesNext(prog, 2);
    assert Traces(prog, 0) == [];
  }

  // ----- the rewrite -----

  lemma {:induction false} BodyIs()
    ensures RewriteBody(MatmulLoop().body, ArgMap(MatmulLoop(), 0, LIMIT), {9}, 0, LIMIT) ==
            [Other(20, 1, [18]), Other(21, 2, [18]), TileMac(0, 20, 21)]
  {
    var body := MatmulLoop().body;
    var m := ArgMap(MatmulLoop(), 0, LIMIT);
    assert body[1..] == [Rhs(), Update()] && body[1..][1..] == [Update()] && body[1..][1..][1..] == [];
    BlockArguments();
    assert m == map[5 := 18];
    assert SubstAll(m, [5]) == [18];
    var m1 := m[7 := 20];
    assert SubstAll(m1, [5]) == [18];
    var m2 := m1[8 := 21];
    assert RewriteBody([Update()], m2, {9}, 0, LIMIT) == [TileMac(0, 20, 21)];
    assert RewriteBody([Rhs(), Update()], m1, {9}, 0, LIMIT) == [Other(21, 2, [18]), TileMac(0, 20, 21)];
  }

  lemma {:induction false} LoopIs()
    ensures RewriteLoop(MatmulLoop(), 0, {9}, 0, LIMIT) ==
            Loop([], 18, [], 0, 1, 2, [], [Other(20, 1, [18]), Other(21, 2, [18]), TileMac(0, 20, 21)], [])
  {
    BodyIs();
  }

  /** The tile operation that gives the initial value. */
  function FillOf(start: Stmt): Stmt {
    if start.Read? then TileLoad(0, BLOCK) else TileZero(0)
  }

  function LoweredLoop(): Loop {
    Loop([], 18, [], 0, 1, 2, [], [Other(20, 1, [18]), Other(21, 2, [18]), TileMac(0, 20, 21)], [])
  }

  function EditFrom(start: Stmt): Edit {
    Edit(1, 2, FillOf(start), For(LoweredLoop()), 10, 0, map[10 := 23], 0, LIMIT)
  }

  lemma {:induction false} EditIs(start: Stmt, target: Id)
    requires StartOk(start, target) && Supported(start)
    ensures var prog, work := ProgFrom(start, target), PC.Looped(FoundFrom(start));
            PC.Shaped(prog, work) && PC.EditOf(prog, work, 0, 0, LIMIT) == EditFrom(start)
  {
    assert So.Names([Update()]) == {9} by { assert [Update()][0] == Update(); }
    LoopIs();
    assert ResultMap(MatmulLoop().results, LIMIT) == map[10 := 23] by { assert MatmulLoop().results[0] == 10; }
  }

  lemma {:induction false} EditedIs(start: Stmt, target: Id)
    requires StartOk(start, target) && Supported(start)
    ensures Edited(ProgFrom(start, target), EditFrom(start)) == LoweredFrom(start, FillOf(start), target)
  {
    var prog, e := ProgFrom(start, target), EditFrom(start);
    assert prog[..1] == [Simple(start)];
    assert RenameProg(e.m, prog[2..2]) == [] && RenameProg(e.m, prog[3..]) == [];
    assert Subst(e.m, target) == target;
  }

  lemma {:induction false} AllIs(start: Stmt, target: Id)
    requires StartOk(start, target) && Supported(start)
    ensures PC.LowerAll(ProgFrom(start, target), [PC.Looped(FoundFrom(start))], [0], LIMIT) == LoweredFrom(start, FillOf(start), target)
  {
    EditIs(start, target);
    EditedIs(start, target);
    var works := [PC.Looped(FoundFrom(start))];
    assert works[1..] == [];
  }

  lemma {:induction false} OneChain(trace: Trace)
    ensures WorksIn([trace]) == if trace.Traced? then [trace.work] else []
    ensures TilesIn([trace]) == if trace.Traced? then [0] else []
  {
    assert [trace][..0] == [];
  }

  function Expected(start: Stmt, target: Id): seq<Top> {
    if Supported(start) then LoweredFrom(start, FillOf(start), target) else ProgFrom(start, target)
  }

  /** The pass on a function whose only chain is given. */
  method LowerOneChain(prog: seq<Top>, trace: Trace) returns (r: Outcome)
    requires An.Ssa(prog) && Traces(prog, |prog|) == [trace] && trace != Unmodelled
    requires PC.AllRight(prog, WorksIn([trace]), TilesIn([trace]), LIMIT)
    ensures r == Code(PC.LowerAll(prog, WorksIn([trace]), TilesIn([trace]), LIMIT))
  {
    r := LowerFunction(prog, LIMIT);
  }

  method LowerStart(start: Stmt, target: Id) returns (r: Outcome)
    requires StartOk(start, target)
    ensures r == Code(Expected(start, target))
  {
    TracesAre(start, target);
    OneChain(TraceFrom(start));
    if Supported(start) {
      MatmulRight(start, target, 0);
      AllIs(start, target);
    } else {
      MatmulUses(start, target);
    }
    r := LowerOneChain(ProgFrom(start, target), TraceFrom(start));
  }

  /** The pass on the matrix product: a block that is read is loaded into tile 0 and a zero constant
      clears it; with any other constant the function comes back unchanged. */
  method LowerMatmul(start: Stmt, target: Id) returns (r: Outcome)
    requires start == Read(3, 12) || (start.Const? && start.def == 3)
    requires target == 4 || target == 12
    ensures start.Read? ==> r == Code(LoweredFrom(start, TileLoad(0, 12), target))
    ensures start.Const? && start.zero ==> r == Code(LoweredFrom(start, TileZero(0), target))
    ensures start.Const? && !start.zero ==>
              r == Code([Simple(start),
                         For(Loop([10], 5, [6], 0, 1, 2, [3], [Other(7, 1, [5]), Other(8, 2, [5]), Contract(9, 7, 8, 6, true, false)], [9])),
                         Simple(Write(target, 10))])
  {
    r := LowerStart(start, target);
  }
}
