/** The simplest function the matrix pass is for: an accumulator that starts from zero, one
    contraction per iteration, one write.  Everything the rewrite relies on holds for it. */
module MatmulExample {
  import opened Options
  import opened TensorIR
  import opened TileRewrite
  import opened MatrixProgram
  import opened MatrixExact
  import MP = MatrixPass
  import Al = MatrixAlways
  import PC = PassComposition
  import An = ChainAnalysis
  import So = ChainSoundness

  const LIMIT: nat := 13
  const ZERO: Id := 3
  const TARGET: Id := 4
  const BLOCK: Id := 12

  function Lhs(): Stmt { Other(7, 1, [5]) }
  function Rhs(): Stmt { Other(8, 2, [5]) }
  function Update(): Stmt { Contract(9, 7, 8, 6, true, false) }

  function MatmulLoop(): Loop {
    Loop([10], 5, [6], 0, 1, 2, [ZERO], [Lhs(), Rhs(), Update()], [9])
  }

  function Matmul(): Chain {
    Chain([Simple(Const(ZERO, true, 0))], MatmulLoop(), [], TARGET, [], 0, {9}, Init.Zero)
  }

  /** The function's arguments: loop bounds, step and the address written. */
  ghost predicate Arguments<V>(st: State<V>) {
    st.env.Keys == {0, 1, 2, TARGET}
  }

  lemma {:induction false} BodyRuns<V>(sem: Sem<V>, st: State<V>)
    requires 5 in st.env && 6 in st.env
    ensures Steps(sem, MatmulLoop().body, st).Some? && 9 in Steps(sem, MatmulLoop().body, st).value.env
  {
    var body := MatmulLoop().body;
    var s1 := Step(sem, Lhs(), st).value;
    var s2 := Step(sem, Rhs(), s1).value;
    assert body[1..] == [Rhs(), Update()] && body[1..][1..] == [Update()] && body[1..][1..][1..] == [];
    var s3 := Step(sem, Update(), s2).value;
    assert Steps(sem, body[1..][1..], s2) == Steps(sem, body[1..][1..][1..], s3);
    assert Steps(sem, body[1..], s1) == Steps(sem, body[1..][1..], s2);
  }

  lemma ReadsOne(def: Id, code: nat, x: Id)
    ensures Uses(Other(def, code, [x])) == {x}
  {
    assert [x][0] == x;
  }

  lemma BlockArguments()
    ensures ArgSet(MatmulLoop()) == {5, 6}
  {
    assert MatmulLoop().args[0] == 6;
  }

  lemma {:induction false} LoopRuns<V>(sem: Sem<V>, env: map<Id, V>, k: nat, p: Pass<V>)
    requires 0 in env && 2 in env && |p.carried| == 1
    ensures Iterate(sem, MatmulLoop(), env, k, p).Some? && |Iterate(sem, MatmulLoop(), env, k, p).value.carried| == 1
  {
    if k > 0 {
      LoopRuns(sem, env, k - 1, p);
      var q := Iterate(sem, MatmulLoop(), env, k - 1, p).value;
      BindOther(env, [6], q.carried, 6);
      BodyRuns(sem, BodyState(sem, MatmulLoop(), env, k - 1, q));
    }
  }

  lemma {:induction false} ChainHolds()
    ensures ChainBody(MatmulLoop().body, 6, {9}, {9, 6}, 9)
  {
    var body := MatmulLoop().body;
    assert body[1..] == [Rhs(), Update()] && body[1..][1..] == [Update()] && body[1..][1..][1..] == [];
    ReadsOne(7, 1, 5);
    ReadsOne(8, 2, 5);
    assert ChainBody([Update()], 6, {9}, {9, 6}, 9);
    assert ChainBody([Rhs(), Update()], 6, {9}, {9, 6}, 9);
  }

  lemma {:induction false} NamesHold(outer: set<Id>)
    requires outer == {0, 1, 2, 3, 4}
    ensures FreshDefs(MatmulLoop().body, outer + ArgSet(MatmulLoop()), LIMIT)
  {
    var body := MatmulLoop().body;
    assert body[1..] == [Rhs(), Update()] && body[1..][1..] == [Update()] && body[1..][1..][1..] == [];
    BlockArguments();
    var t0 := outer + ArgSet(MatmulLoop());
    assert t0 == {0, 1, 2, 3, 4, 5, 6};
    assert FreshDefs([Update()], t0 + {7} + {8}, LIMIT);
    assert FreshDefs([Rhs(), Update()], t0 + {7}, LIMIT);
  }

  lemma {:induction false} ReadyAtLoop<V>(sem: Sem<V>, tile: nat, st: State<V>)
    requires st.env.Keys == {0, 1, 2, 3, 4} && st.env[ZERO] == sem.zero
    ensures AtLoop(Matmul(), tile, LIMIT, st) && Faithful(sem, Matmul(), st)
  {
    ChainHolds();
    NamesHold(st.env.Keys);
    assert Hidden(MatmulLoop(), 0, {9}) == {9, 6};
    BlockArguments();
  }

  /** For every number of iterations, every meaning of the operations and every tile, the matrix
      function runs and leaves the memory of the vector function. */
  lemma {:induction false} MatmulCorrect<V>(sem: Sem<V>, tile: nat, st: State<V>)
    requires Arguments(st)
    ensures var r1, r2 := Run(sem, Source(Matmul()), st), Run(sem, Target(Matmul(), 0, tile, LIMIT), st);
            r1.Some? && r2.Some? && r1.value.mem == r2.value.mem
  {
    var c := Matmul();
    var s := Define(st, ZERO, sem.zero);
    RunOne(sem, c.pre[0], st);
    assert Run(sem, c.pre, st) == Some(s);
    ReadyAtLoop(sem, tile, s);
    SourceRuns(sem, st, s);
    RewriteCorrect(sem, c, tile, LIMIT, st, s);
  }

  lemma {:induction false} SourceRuns<V>(sem: Sem<V>, st: State<V>, s: State<V>)
    requires Arguments(st) && s == Define(st, ZERO, sem.zero) && Run(sem, Matmul().pre, st) == Some(s)
    ensures Run(sem, Source(Matmul()), st).Some?
  {
    var l := MatmulLoop();
    var k := Trips(sem, l, s.env);
    LoopRuns(sem, s.env, k, Entry(l, s));
    var vals := Iterate(sem, l, s.env, k, Entry(l, s)).value.carried;
    BindAt(s.env, l.results, vals, 0);
    BindOther(s.env, l.results, vals, TARGET);
    RunSource(sem, Matmul(), st);
    RunTail(sem, [], Writeback(Matmul()), [], RunLoop(sem, l, s).value);
  }

  // ----- as a function in SSA form -----

  /** The initial value is a constant or a block read from memory. */
  predicate StartOk(start: Stmt, target: Id) {
    (start == Read(ZERO, BLOCK) || (start.Const? && start.def == ZERO)) && target in {TARGET, BLOCK}
  }

  function ProgFrom(start: Stmt, target: Id): seq<Top> {
    [Simple(start), For(MatmulLoop()), Simple(Write(target, 10))]
  }

  function Prog(): seq<Top> {
    ProgFrom(Const(ZERO, true, 0), TARGET)
  }

  function Site(x: Id): An.Site {
    if x == ZERO then An.At(0)
    else if x == 10 then An.Result(1, 0)
    else if x == 6 then An.Arg(1, 0)
    else if x == 7 then An.InBody(1, 0)
    else if x == 8 then An.InBody(1, 1)
    else if x == 9 then An.InBody(1, 2)
    else if x == 5 then An.Induction(1)
    else An.Outside
  }

  lemma {:induction false} SiteIs(start: Stmt, target: Id, x: Id)
    requires StartOk(start, target)
    ensures An.SiteOf(ProgFrom(start, target), x) == Site(x)
  {
    var p, l := ProgFrom(start, target), MatmulLoop();
    assert An.SiteFrom(p, x, 3) == An.Outside;
    assert An.SiteFrom(p, x, 2) == An.Outside;
    assert An.IndexOf(l.results, x, 1) == None && An.IndexOf(l.args, x, 1) == None;
    assert An.DefinerOf(l.body, x, 3) == None;
    assert An.DefinerOf(l.body, x, 2) == if x == 9 then Some(2) else None;
    assert An.DefinerOf(l.body, x, 1) == if x == 8 then Some(1) else An.DefinerOf(l.body, x, 2);
    assert An.DefinerOf(l.body, x, 0) == if x == 7 then Some(0) else An.DefinerOf(l.body, x, 1);
    assert An.SiteFrom(p, x, 1) == match An.SiteIn(p[1], 1, x) case Some(s) => s case None => An.Outside;
  }

  ghost predicate SitesAre(prog: seq<Top>) {
    forall x :: An.SiteOf(prog, x) == Site(x)
  }

  lemma {:induction false} BodySsa(prog: seq<Top>, p: nat)
    requires SitesAre(prog) && p < 3
    ensures An.SsaBodyStmt(prog, MatmulLoop().body[p], 1, p)
  {
    ReadsOne(7, 1, 5);
    ReadsOne(8, 2, 5);
  }

  lemma {:induction false} LoopSsa(prog: seq<Top>)
    requires SitesAre(prog)
    ensures An.SsaLoop(prog, MatmulLoop(), 1)
  {
    var l := MatmulLoop();
    assert l.results[0] == 10 && l.args[0] == 6 && l.inits[0] == ZERO && l.yielded[0] == 9;
    forall p | 0 <= p < |l.body| ensures An.SsaBodyStmt(prog, l.body[p], 1, p) { BodySsa(prog, p); }
  }

  lemma {:induction false} StmtsSsa(prog: seq<Top>, start: Stmt, target: Id)
    requires SitesAre(prog) && StartOk(start, target)
    ensures An.SsaStmt(prog, start, 0) && An.SsaStmt(prog, Write(target, 10), 2)
  {
  }

  lemma {:induction false} TopsSsa(prog: seq<Top>, start: Stmt, target: Id)
    requires SitesAre(prog) && StartOk(start, target) && |prog| == 3
    requires prog[0] == Simple(start) && prog[1] == For(MatmulLoop()) && prog[2] == Simple(Write(target, 10))
    ensures An.Ssa(prog)
  {
    forall k | 0 <= k < |prog| ensures An.SsaTop(prog, k) {
      if k == 1 { LoopSsa(prog); } else { StmtsSsa(prog, start, target); }
    }
  }

  lemma {:induction false} ProgSsa(start: Stmt, target: Id)
    requires StartOk(start, target)
    ensures An.Ssa(ProgFrom(start, target))
  {
    forall x ensures An.SiteOf(ProgFrom(start, target), x) == Site(x) { SiteIs(start, target, x); }
    TopsSsa(ProgFrom(start, target), start, target);
  }

  /** The initial value is one the tile can be filled with. */
  predicate Supported(start: Stmt) {
    start.Const? ==> start.zero
  }

  function FoundFrom(start: Stmt): MP.Found {
    MP.Found(2, 1, 0, [Update()], if start.Read? then Init.Block(BLOCK) else Init.Zero, 0)
  }

  function MatmulFound(): MP.Found {
    FoundFrom(Const(ZERO, true, 0))
  }

  lemma {:induction false} CarriesUpdate(start: Stmt, target: Id)
    requires StartOk(start, target)
    ensures So.CarriesChain(ProgFrom(start, target), 1, 0, [Update()])
  {
    ProgSsa(start, target);
    SiteIs(start, target, 9);
    SiteIs(start, target, 6);
    var prog := ProgFrom(start, target);
    assert An.WalkBody(prog, 1, 0, 6, 2) == Some([]);
    assert An.WalkBody(prog, 1, 0, 9, 3) == Some([] + [Update()]);
    assert [] + [Update()] == [Update()];
  }

  lemma {:induction false} MatmulIsFound(start: Stmt, target: Id)
    requires StartOk(start, target) && Supported(start)
    ensures MP.FoundOk(ProgFrom(start, target), FoundFrom(start))
  {
    CarriesUpdate(start, target);
  }

  lemma {:induction false} BodyNames()
    ensures Al.BodyUses(MatmulLoop().body) == {5, 6, 7, 8}
  {
    var body := MatmulLoop().body;
    ReadsOne(7, 1, 5);
    ReadsOne(8, 2, 5);
    assert body[1..] == [Rhs(), Update()] && body[1..][1..] == [Update()] && body[1..][1..][1..] == [];
    assert Al.BodyUses(body[1..][1..]) == {7, 8, 6} + {};
    assert Al.BodyUses(body[1..]) == {5} + {7, 8, 6};
  }

  lemma {:induction false} LoopNames()
    ensures Al.TopUses(For(MatmulLoop())) == {0, 1, 2, ZERO, 5, 6, 7, 8, 9}
  {
    BodyNames();
    assert Al.Members([ZERO]) == {ZERO} by { assert [ZERO][0] == ZERO; }
    assert Al.Members([9]) == {9} by { assert [9][0] == 9; }
  }

  lemma {:induction false} UsedByThree(a: Top, b: Top, c: Top)
    ensures Al.UsedNames([a, b, c]) == Al.TopUses(a) + Al.TopUses(b) + Al.TopUses(c)
  {
    assert [a, b, c][1..] == [b, c] && [b, c][1..] == [c] && [c][1..] == [];
    assert Al.UsedNames([c]) == Al.TopUses(c) + Al.UsedNames([]);
    assert Al.UsedNames([b, c]) == Al.TopUses(b) + Al.UsedNames([c]);
  }

  lemma {:induction false} ThreeBelow(a: Top, b: Top, c: Top, n: nat)
    requires Below(Al.TopUses(a), n) && Below(Al.TopUses(b), n) && Below(Al.TopUses(c), n)
    ensures Al.UsesBelow([a, b, c], n)
  {
    UsedByThree(a, b, c);
  }

  lemma {:induction false} MatmulNames(start: Stmt, target: Id)
    requires StartOk(start, target)
    ensures MP.NamesBelow(ProgFrom(start, target), LIMIT) && Al.VectorOnly(ProgFrom(start, target))
  {
    var l := MatmulLoop();
    assert MP.DefsBelow(l.body, LIMIT) && MP.IdsBelow(l.args, LIMIT) && MP.IdsBelow(l.results, LIMIT) && Al.NoTileOps(l.body);
  }

  lemma {:induction false} MatmulUses(start: Stmt, target: Id)
    requires StartOk(start, target)
    ensures Al.UsesBelow(ProgFrom(start, target), LIMIT)
  {
    LoopNames();
    assert Below({0, 1, 2, ZERO, 5, 6, 7, 8, 9}, LIMIT);
    ThreeBelow(Simple(start), For(MatmulLoop()), Simple(Write(target, 10)), LIMIT);
  }

  lemma {:induction false} MatmulUsable(start: Stmt, target: Id, tile: nat)
    requires StartOk(start, target) && Supported(start)
    ensures MP.FoundOk(ProgFrom(start, target), FoundFrom(start))
    ensures MP.Usable(ProgFrom(start, target), FoundFrom(start), tile, LIMIT)
  {
    MatmulIsFound(start, target);
    MatmulNames(start, target);
    ReadsOne(7, 1, 5);
    ReadsOne(8, 2, 5);
    var prog, l, names := ProgFrom(start, target), MatmulLoop(), So.Names([Update()]);
    assert names == {9} by { assert [Update()][0] == Update(); }
    assert Hidden(l, 0, names) == {9, 6};
    assert So.PrivateStmt(l.body[0], names, {9, 6}) && So.PrivateStmt(l.body[1], names, {9, 6}) && So.PrivateStmt(l.body[2], names, {9, 6});
    assert MP.FreeBody(l.body, 10);
    assert MP.FreeTop(prog[0], 10) && MP.FreeTop(prog[1], 10);
    assert MP.TopLeaves(prog[0], tile) && MP.TopLeaves(prog[1], tile) && MP.TopLeaves(prog[2], tile);
  }

  lemma {:induction false} MatmulPlainly(tile: nat)
    ensures Al.Plainly(Prog(), MatmulFound(), 0, tile, LIMIT)
  {
    var start := Const(ZERO, true, 0);
    MatmulUsable(start, TARGET, tile);
    MatmulNames(start, TARGET);
    MatmulUses(start, TARGET);
    var l := MatmulLoop();
    assert IsFirst(l.inits, l.inits[0], 0) by { assert l.inits[0] == ZERO && ZERO in l.inits; }
  }

  lemma {:induction false} MatmulConditions(start: Stmt, target: Id)
    ensures MP.UniqueInit(MatmulLoop(), 0) && NoTransposed(MatmulLoop().body, So.Names([Update()]))
    ensures MP.YieldsOutside(ProgFrom(start, target), 1, 0)
  {
  }

  /** The pass is right for it, whatever its operations mean. */
  lemma {:induction false} MatmulAlways(tile: nat)
    ensures MP.FoundOk(Prog(), MatmulFound()) && Al.AlwaysAgrees(Prog(), MP.Lowered(Prog(), MatmulFound(), 0, tile, LIMIT), LIMIT)
  {
    MatmulPlainly(tile);
    MatmulConditions(Const(ZERO, true, 0), TARGET);
    Al.AlwaysExact(Prog(), MatmulFound(), 0, tile, LIMIT);
  }

  /** It is one of the functions that the whole pass handles rightly, whether it starts from zero or
      from a block in memory. */
  lemma {:induction false} MatmulRight(start: Stmt, target: Id, tile: nat)
    requires StartOk(start, target) && Supported(start)
    ensures PC.AllRight(ProgFrom(start, target), [PC.Looped(FoundFrom(start))], [tile], LIMIT)
  {
    MatmulUsable(start, target, tile);
    MatmulUses(start, target);
    MatmulConditions(start, target);
    assert PC.Right(ProgFrom(start, target), PC.Looped(FoundFrom(start)), tile, LIMIT);
  }
}
