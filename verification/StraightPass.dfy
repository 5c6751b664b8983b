/** Chains without a loop: one contraction whose result is written.  The pass fills the tile and
    updates it where the contraction stood. */
module StraightPass {
  import opened Options
  import opened TensorIR
  import opened TileRewrite
  import opened MatrixProgram
  import opened MatrixExact
  import opened MatrixPass
  import opened MatrixAlways
  import An = ChainAnalysis
  import So = ChainSoundness

  // ----- the rewritten function -----

  /** One contraction whose result is written to `addr`. */
  datatype Straight = Straight(pre: seq<Top>, update: Stmt, mid: seq<Top>, addr: Id, post: seq<Top>, init: Init)

  function StraightSource(c: Straight): seq<Top>
    requires c.update.Contract?
  {
    c.pre + ([Simple(c.update)] + Tail(c.mid, Write(c.addr, c.update.def), c.post))
  }

  function StraightMap(c: Straight, n: nat): map<Id, Id>
    requires c.update.Contract?
  {
    map[c.update.def := c.update.def + n]
  }

  /** Initialise, update once, put a zero vector in the contraction's place. */
  function StraightPart(c: Straight, tile: nat, n: nat): seq<Top>
    requires c.update.Contract?
  {
    [Simple(InitOp(c.init, tile)), Simple(TileMac(tile, c.update.lhs, c.update.rhs)), Simple(Const(c.update.def + n, true, 0))]
  }

  /** Then store the tile instead of the vector. */
  function StraightTarget(c: Straight, tile: nat, n: nat): seq<Top>
    requires c.update.Contract?
  {
    c.pre + (StraightPart(c, tile, n) + StraightTail(c, tile, n))
  }

  function StraightTail(c: Straight, tile: nat, n: nat): seq<Top>
    requires c.update.Contract?
  {
    var m := StraightMap(c, n);
    Tail(RenameProg(m, c.mid), TileStore(tile, Subst(m, c.addr)), RenameProg(m, c.post))
  }

  /** The state at the contraction is one the rewrite can start from. */
  ghost predicate StraightReady<V>(c: Straight, tile: nat, n: nat, st: State<V>) {
    && c.update.Contract? && Below(st.env.Keys, n) && c.update.def < n && c.update.def !in st.env && InitRuns(c.init, st)
    && c.update.acc in st.env && c.update.lhs in st.env && c.update.rhs in st.env
    && var m, hidden := StraightMap(c, n), {c.update.def};
       && Clean(c.mid, m, hidden, tile, n) && Clean(c.post, m, hidden, tile, n)
       && c.addr != c.update.def && NeverBinds(c.mid, c.update.def)
  }

  /** What the tile is filled with. */
  ghost function Filled<V>(sem: Sem<V>, init: Init, st: State<V>): V
    requires InitRuns(init, st)
  {
    if init.Zero? then sem.zero else st.mem[st.env[init.addr]]
  }

  ghost function Contracted<V>(sem: Sem<V>, s: Stmt, acc: V, st: State<V>): V
    requires s.Contract? && s.lhs in st.env && s.rhs in st.env
  {
    if s.transposed then sem.macTransposed(acc, st.env[s.lhs], st.env[s.rhs]) else sem.mac(acc, st.env[s.lhs], st.env[s.rhs])
  }

  /** The contraction on one side, the three operations on the other. */
  lemma {:induction false} StraightUpdate<V>(sem: Sem<V>, c: Straight, tile: nat, n: nat, st: State<V>)
      returns (r1: State<V>, r2: State<V>)
    requires StraightReady(c, tile, n, st)
    ensures Step(sem, c.update, st) == Some(r1) && Run(sem, StraightPart(c, tile, n), st) == Some(r2)
    ensures Alike(r1, r2, StraightMap(c, n), {c.update.def}, tile) && Follows(r1, r2, tile, c.update.def, false)
    ensures r1.env[c.update.def] == Contracted(sem, c.update, st.env[c.update.acc], st)
    ensures r2.tiles[tile] == sem.mac(Filled(sem, c.init, st), st.env[c.update.lhs], st.env[c.update.rhs])
  {
    InitStep(sem, c.init, c.update.acc, tile, st);
    r1 := Step(sem, c.update, st).value;
    var s1 := Step(sem, InitOp(c.init, tile), st).value;
    var mac := TileMac(tile, c.update.lhs, c.update.rhs);
    var s2 := Step(sem, mac, s1).value;
    r2 := Define(s2, c.update.def + n, sem.zero);
    RunThreeSteps(sem, InitOp(c.init, tile), mac, Const(c.update.def + n, true, 0), st, s1, s2, r2);
  }

  lemma {:induction false} RunThreeSteps<V>(sem: Sem<V>, a: Stmt, b: Stmt, c: Stmt, st: State<V>, s1: State<V>, s2: State<V>,
                                            s3: State<V>)
    requires Step(sem, a, st) == Some(s1) && Step(sem, b, s1) == Some(s2) && Step(sem, c, s2) == Some(s3)
    ensures Run(sem, [Simple(a), Simple(b), Simple(c)], st) == Some(s3)
  {
    assert [Simple(a), Simple(b), Simple(c)] == [Simple(a)] + ([Simple(b)] + [Simple(c)]);
    RunAppend(sem, [Simple(a)], [Simple(b)] + [Simple(c)], st);
    RunOne(sem, Simple(a), st);
    RunAppend(sem, [Simple(b)], [Simple(c)], s1);
    RunOne(sem, Simple(b), s1);
    RunOne(sem, Simple(c), s2);
  }

  lemma {:induction false} RunStraight<V>(sem: Sem<V>, c: Straight, tile: nat, n: nat, st: State<V>, s: State<V>,
                                          r1: State<V>, r2: State<V>)
    requires c.update.Contract? && Run(sem, c.pre, st) == Some(s)
    requires Step(sem, c.update, s) == Some(r1) && Run(sem, StraightPart(c, tile, n), s) == Some(r2)
    ensures Run(sem, StraightSource(c), st) == Run(sem, Tail(c.mid, Write(c.addr, c.update.def), c.post), r1)
    ensures Run(sem, StraightTarget(c, tile, n), st) == Run(sem, StraightTail(c, tile, n), r2)
  {
    var tail := Tail(c.mid, Write(c.addr, c.update.def), c.post);
    RunAppend(sem, c.pre, [Simple(c.update)] + tail, st);
    RunAppend(sem, [Simple(c.update)], tail, s);
    RunOne(sem, Simple(c.update), s);
    RunAppend(sem, c.pre, StraightPart(c, tile, n) + StraightTail(c, tile, n), st);
    RunAppend(sem, StraightPart(c, tile, n), StraightTail(c, tile, n), s);
  }

  /** The function with its contraction moved to the tile leaves the same memory and other tiles
      when the tile update gives the contraction's value; when nothing is stored after the
      writeback, only then. */
  lemma {:induction false} StraightExact<V>(sem: Sem<V>, c: Straight, tile: nat, n: nat, st: State<V>, s: State<V>)
    requires Run(sem, c.pre, st) == Some(s) && StraightReady(c, tile, n, s) && Run(sem, StraightSource(c), st).Some?
    ensures var f1, f2 := Run(sem, StraightSource(c), st).value, Run(sem, StraightTarget(c, tile, n), st);
            var same := Contracted(sem, c.update, s.env[c.update.acc], s) ==
                        sem.mac(Filled(sem, c.init, s), s.env[c.update.lhs], s.env[c.update.rhs]);
            && (same ==> f2.Some? && f1.mem == f2.value.mem && TilesAgree(f1.tiles, f2.value.tiles, tile))
            && (Quiet(c.post) && f2.Some? && f1.mem == f2.value.mem ==> same)
  {
    var m, vec := StraightMap(c, n), c.update.def;
    var r1, r2 := StraightUpdate(sem, c, tile, n, s);
    RunStraight(sem, c, tile, n, st, s, r1, r2);
    if r2.tiles[tile] == r1.env[vec] {
      TailAlike(sem, c.mid, c.addr, vec, c.post, m, {vec}, tile, n, r1, r2);
    } else if Quiet(c.post) {
      TailApart(sem, c.mid, c.addr, vec, c.post, m, {vec}, tile, n, r1, r2);
    }
  }

  // ----- the pass on a function in SSA form -----

  /** The write at `w` of the contraction at `k`, whose accumulator comes from the operation at `j`. */
  datatype Single = Single(w: nat, k: nat, init: Init, j: nat)

  ghost predicate SingleOk(prog: seq<Top>, f: Single) {
    && An.Ssa(prog) && f.j < f.k < f.w < |prog| && prog[f.k].Simple? && An.IsLink(prog[f.k].stmt)
    && prog[f.w].Simple? && prog[f.w].stmt.Write? && prog[f.w].stmt.vec == prog[f.k].stmt.def
    && prog[f.j].Simple? && Starts(prog[f.j].stmt, f.init, prog[f.k].stmt.acc)
  }

  /** The contraction's result is used by the writeback alone, and the tile is free. */
  ghost predicate SingleUsable(prog: seq<Top>, f: Single, tile: nat, n: nat)
    requires SingleOk(prog, f)
  {
    && NamesBelow(prog, n) && prog[f.w].stmt.addr != prog[f.k].stmt.def
    && (forall i {:trigger TopLeaves(prog[i], tile)} :: 0 <= i < |prog| ==> TopLeaves(prog[i], tile))
    && (forall i {:trigger FreeTop(prog[i], prog[f.k].stmt.def)} :: 0 <= i < |prog| && i != f.w ==> FreeTop(prog[i], prog[f.k].stmt.def))
  }

  function StraightOf(prog: seq<Top>, f: Single): Straight
    requires SingleOk(prog, f)
  {
    Straight(prog[..f.k], prog[f.k].stmt, prog[f.k + 1..f.w], prog[f.w].stmt.addr, prog[f.w + 1..], f.init)
  }

  function SingleLowered(prog: seq<Top>, f: Single, tile: nat, n: nat): seq<Top>
    requires SingleOk(prog, f)
  {
    StraightTarget(StraightOf(prog, f), tile, n)
  }

  lemma SingleSource(prog: seq<Top>, f: Single)
    requires SingleOk(prog, f)
    ensures StraightSource(StraightOf(prog, f)) == prog
  {
    var c := StraightOf(prog, f);
    assert prog == prog[..f.k] + ([prog[f.k]] + (prog[f.k + 1..f.w] + ([prog[f.w]] + prog[f.w + 1..])));
    assert prog[f.w] == Simple(Write(c.addr, c.update.def)) && prog[f.k] == Simple(c.update);
  }

  lemma {:induction false} SingleReady<V>(sem: Sem<V>, prog: seq<Top>, f: Single, tile: nat, n: nat, st: State<V>) returns (s: State<V>)
    requires SingleOk(prog, f) && SingleUsable(prog, f, tile, n) && Arguments(prog, n, st) && Run(sem, prog, st).Some?
    ensures So.StateAt(sem, prog, st, f.k) == Some(s) && StraightReady(StraightOf(prog, f), tile, n, s)
    ensures KeepsInit(prog, f.init, f.j, f.k) ==> InitHolds(sem, f.init, prog[f.k].stmt.acc, s)
  {
    var u := prog[f.k].stmt;
    s := Reach(sem, prog, f.k, st);
    NamesBefore(sem, prog, n, st, f.k, s);
    InitReady(sem, prog, f.init, u.acc, f.j, f.k, st, s);
    assert An.SsaTop(prog, f.k) && TopBelow(prog[f.k], n);
    SingleClean(prog, f, tile, n);
  }

  lemma {:induction false} SingleClean(prog: seq<Top>, f: Single, tile: nat, n: nat)
    requires SingleOk(prog, f) && SingleUsable(prog, f, tile, n)
    ensures var c, x := StraightOf(prog, f), prog[f.k].stmt.def;
            var m := StraightMap(c, n);
            Clean(c.mid, m, {x}, tile, n) && Clean(c.post, m, {x}, tile, n) && NeverBinds(c.mid, x)
  {
    assert An.SsaTop(prog, f.k);
    CleanAround(prog, f.k, f.w, StraightMap(StraightOf(prog, f), n), n, tile, prog[f.k].stmt.def);
  }

  /** The two functions agree on a run exactly when the plain contraction of the initial value is
      what the contraction computes: always, unless its result map is transposed. */
  lemma {:induction false} SingleExact<V>(sem: Sem<V>, prog: seq<Top>, f: Single, tile: nat, n: nat, st: State<V>) returns (s: State<V>)
    requires SingleOk(prog, f) && SingleUsable(prog, f, tile, n) && KeepsInit(prog, f.init, f.j, f.k)
    requires Arguments(prog, n, st) && Run(sem, prog, st).Some?
    ensures So.StateAt(sem, prog, st, f.k) == Some(s)
    ensures var u, r := prog[f.k].stmt, Run(sem, SingleLowered(prog, f, tile, n), st);
            && {u.acc, u.lhs, u.rhs} <= s.env.Keys
            && var same := !u.transposed || Contracted(sem, u, s.env[u.acc], s) == sem.mac(s.env[u.acc], s.env[u.lhs], s.env[u.rhs]);
            && (same ==> r.Some? && r.value.mem == Run(sem, prog, st).value.mem && TilesAgree(Run(sem, prog, st).value.tiles, r.value.tiles, tile))
            && (Quiet(prog[f.w + 1..]) && r.Some? && r.value.mem == Run(sem, prog, st).value.mem ==> same)
  {
    s := SingleReady(sem, prog, f, tile, n, st);
    SingleSource(prog, f);
    StraightExact(sem, StraightOf(prog, f), tile, n, st, s);
  }

  lemma {:induction false} SingleAgrees<V>(sem: Sem<V>, prog: seq<Top>, f: Single, tile: nat, n: nat, st: State<V>)
    requires SingleOk(prog, f) && SingleUsable(prog, f, tile, n) && KeepsInit(prog, f.init, f.j, f.k) && !prog[f.k].stmt.transposed
    requires Arguments(prog, n, st) && Run(sem, prog, st).Some?
    ensures SameResult(sem, prog, SingleLowered(prog, f, tile, n), st)
  {
    var s := SingleExact(sem, prog, f, tile, n, st);
  }

  /** The pass is right for such a function whatever its operations mean, if and only if the
      contraction's result map is not transposed. */
  lemma {:induction false} SingleAlways(prog: seq<Top>, f: Single, tile: nat, n: nat)
    requires SingleOk(prog, f) && SingleUsable(prog, f, tile, n) && KeepsInit(prog, f.init, f.j, f.k)
    requires VectorOnly(prog) && UsesBelow(prog, n) && Quiet(prog[f.w + 1..])
    ensures AlwaysAgrees(prog, SingleLowered(prog, f, tile, n), n) <==> !prog[f.k].stmt.transposed
  {
    if prog[f.k].stmt.transposed {
      SourceRuns(2, 0, {}, prog, n, {});
      var st := Initial(prog, 2, {});
      var s := SingleExact(Counting(2, 0, {}), prog, f, tile, n, st);
      InitialStarts(prog, n, 2, {});
      Progress(2, 0, {}, prog, n, st, f.k);
      assert !SameResult(Counting(2, 0, {}), prog, SingleLowered(prog, f, tile, n), st);
    } else {
      forall sem: Sem<int>, st: State<int> | Arguments(prog, n, st) && Run(sem, prog, st).Some?
        ensures SameResult(sem, prog, SingleLowered(prog, f, tile, n), st)
      {
        SingleAgrees(sem, prog, f, tile, n, st);
      }
    }
  }

  /** A path of one contraction outside loops gives such a chain. */
  lemma {:induction false} WalkSingle(prog: seq<Top>, w: nat) returns (f: Single)
    requires An.Ssa(prog) && w < |prog| && prog[w].Simple? && prog[w].stmt.Write? && An.Before(An.SiteOf(prog, prog[w].stmt.vec), w)
    requires OneStepPath(prog, An.Walk(prog, prog[w].stmt.vec, w))
    ensures SingleOk(prog, f) && f.w == w && An.SiteOf(prog, prog[w].stmt.vec) == An.At(f.k)
    ensures prog[f.k].stmt.acc == An.Walk(prog, prog[w].stmt.vec, w).value.initVal && f.init == InitOf(prog, prog[f.k].stmt.acc)
    ensures f.j == An.SiteOf(prog, prog[f.k].stmt.acc).top
    ensures An.Finish(prog, An.Walk(prog, prog[w].stmt.vec, w), []) == Some(An.Chain(prog[f.k].stmt.acc, [prog[f.k].stmt]))
  {
    var vec := prog[w].stmt.vec;
    var path := An.Walk(prog, vec, w).value;
    WalkLast(prog, vec, w);
    var k := An.SiteOf(prog, vec).top;
    var u := prog[k].stmt;
    assert An.SsaTop(prog, k) && u.acc in Uses(u);
    var rest := An.Walk(prog, u.acc, k).value;
    assert (rest.pieces + [An.One(k)])[|rest.pieces|] == An.One(k) && rest.pieces == [];
    WalkEnds(prog, u.acc, k);
    var j := An.SiteOf(prog, u.acc).top;
    assert An.SsaTop(prog, j);
    if prog[j].stmt.Read? { assert prog[j].stmt.addr in Uses(prog[j].stmt); }
    f := Single(w, k, InitOf(prog, u.acc), j);
    An.FlatAppend(prog, [], An.One(k));
    assert [] + [An.One(k)] == path.pieces && [] + [u] + [] == [u];
  }

  /** The path is one contraction outside loops, and starts from a supported value. */
  ghost predicate OneStepPath(prog: seq<Top>, path: Option<An.Path>) {
    path.Some? && |path.value.pieces| == 1 && path.value.pieces[0].One? && SupportedInit(prog, path.value.initVal)
  }
}
