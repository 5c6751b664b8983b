/** The pass on a whole function in SSA form: what the analysis finds is what the rewrite relies
    on, so the only conditions left are those on the source text. */
module MatrixPass {
  import opened Options
  import opened TensorIR
  import opened TileRewrite
  import opened MatrixProgram
  import opened MatrixExact
  import An = ChainAnalysis
  import So = ChainSoundness

  // ----- names -----

  predicate DefsBelow(body: seq<Stmt>, n: nat) {
    forall p :: 0 <= p < |body| && Defines(body[p]) ==> body[p].def < n
  }

  predicate IdsBelow(ids: seq<Id>, n: nat) {
    forall i :: 0 <= i < |ids| ==> ids[i] < n
  }

  predicate TopBelow(top: Top, n: nat) {
    match top
    case Simple(s) => Defines(s) ==> s.def < n
    case For(l) => l.iv < n && IdsBelow(l.args, n) && IdsBelow(l.results, n) && DefsBelow(l.body, n)
  }

  /** Every name the function defines is below `n`. */
  predicate NamesBelow(prog: seq<Top>, n: nat) {
    forall k {:trigger TopBelow(prog[k], n)} :: 0 <= k < |prog| ==> TopBelow(prog[k], n)
  }

  /** The state holds nothing but the function's arguments. */
  ghost predicate Arguments<V>(prog: seq<Top>, n: nat, st: State<V>) {
    forall x :: x in st.env ==> An.SiteOf(prog, x).Outside? && x < n
  }

  lemma TopKeys<V>(sem: Sem<V>, top: Top, st: State<V>, x: Id)
    requires RunTop(sem, top, st).Some? && x in RunTop(sem, top, st).value.env
    ensures x in st.env || (if top.Simple? then Defines(top.stmt) && top.stmt.def == x else x in top.loop.results)
  {
    if top.For? {
      var l := top.loop;
      BindOther(st.env, l.results, Iterate(sem, l, st.env, Trips(sem, l, st.env), Entry(l, st)).value.carried, x);
    }
  }

  /** A value that exists before operation `i` is an argument or was defined before. */
  lemma {:induction false} KeysBefore<V>(sem: Sem<V>, prog: seq<Top>, n: nat, st: State<V>, i: nat, x: Id)
    requires An.Ssa(prog) && NamesBelow(prog, n) && Arguments(prog, n, st)
    requires So.StateAt(sem, prog, st, i).Some? && x in So.StateAt(sem, prog, st, i).value.env
    ensures An.Before(An.SiteOf(prog, x), i) && x < n
    decreases i
  {
    if i == 0 {
      assert prog[..0] == [];
    } else {
      So.StateStep(sem, prog, st, i - 1);
      var s := So.StateAt(sem, prog, st, i - 1).value;
      TopKeys(sem, prog[i - 1], s, x);
      if x in s.env {
        KeysBefore(sem, prog, n, st, i - 1, x);
      } else {
        assert An.SsaTop(prog, i - 1) && TopBelow(prog[i - 1], n);
      }
    }
  }

  // ----- the loop -----

  /** None of the taken names is defined from position `p` of the body on. */
  ghost predicate Untaken(prog: seq<Top>, k: nat, p: nat, taken: set<Id>) {
    forall x :: x in taken ==> !(An.SiteOf(prog, x).InBody? && An.SiteOf(prog, x).top == k && An.SiteOf(prog, x).pos >= p)
  }

  lemma {:induction false} BodyFresh(prog: seq<Top>, k: nat, p: nat, taken: set<Id>, n: nat)
    requires An.Ssa(prog) && NamesBelow(prog, n) && k < |prog| && prog[k].For? && p <= |prog[k].loop.body|
    requires Untaken(prog, k, p, taken)
    ensures FreshDefs(prog[k].loop.body[p..], taken, n)
    decreases |prog[k].loop.body| - p
  {
    var body := prog[k].loop.body;
    if p < |body| {
      assert body[p..][0] == body[p] && body[p..][1..] == body[p + 1..];
      assert An.SsaTop(prog, k) && An.SsaBodyStmt(prog, body[p], k, p) && TopBelow(prog[k], n);
      BodyFresh(prog, k, p + 1, if Defines(body[p]) then taken + {body[p].def} else taken, n);
    }
  }

  lemma ArgSites(prog: seq<Top>, k: nat, x: Id)
    requires An.Ssa(prog) && k < |prog| && prog[k].For? && x in ArgSet(prog[k].loop)
    ensures An.SiteOf(prog, x).Arg? || An.SiteOf(prog, x).Induction?
  {
    assert An.SsaTop(prog, k);
  }

  lemma UpdateSites(prog: seq<Top>, k: nat, acc: nat, us: seq<Stmt>, x: Id)
    requires So.CarriesChain(prog, k, acc, us) && x in So.Names(us)
    ensures An.SiteOf(prog, x).InBody?
  {
    var l := prog[k].loop;
    So.WalkPositions(prog, k, acc, l.yielded[acc], |l.body|);
    var i :| 0 <= i < |us| && us[i].Contract? && us[i].def == x;
    assert us[i] in us;
  }

  lemma LoopNames(prog: seq<Top>, k: nat, n: nat)
    requires An.Ssa(prog) && NamesBelow(prog, n) && k < |prog| && prog[k].For?
    ensures var l := prog[k].loop;
            SameArity(l) && Distinct(l.args) && l.iv !in l.args && NamesOk(l.results, n) && forall x :: x in ArgSet(l) ==> x < n
  {
    var l := prog[k].loop;
    assert An.SsaTop(prog, k) && TopBelow(prog[k], n);
    forall i, j | 0 <= i < j < |l.args| ensures l.args[i] != l.args[j] {
      assert An.SiteOf(prog, l.args[i]) == An.Arg(k, i) && An.SiteOf(prog, l.args[j]) == An.Arg(k, j);
    }
    forall i, j | 0 <= i < j < |l.results| ensures l.results[i] != l.results[j] {
      assert An.SiteOf(prog, l.results[i]) == An.Result(k, i) && An.SiteOf(prog, l.results[j]) == An.Result(k, j);
    }
  }

  /** A loop whose carried value the analysis traced can be rewritten. */
  lemma {:induction false} LoopRewritable(prog: seq<Top>, k: nat, acc: nat, us: seq<Stmt>, tile: nat, n: nat, outer: set<Id>)
    requires So.CarriesChain(prog, k, acc, us) && NamesBelow(prog, n)
    requires So.Private(prog[k].loop.body, So.Names(us), Hidden(prog[k].loop, acc, So.Names(us)))
    requires LeavesTile(prog[k].loop.body, tile)
    requires forall x :: x in outer ==> An.Before(An.SiteOf(prog, x), k) && x < n
    ensures Rewritable(prog[k].loop, acc, So.Names(us), tile, n, outer)
  {
    var l, updates := prog[k].loop, So.Names(us);
    LoopNames(prog, k, n);
    So.AnalysisFeedsRewrite(prog, k, acc, us);
    forall x | x in ArgSet(l) ensures x !in outer { ArgSites(prog, k, x); }
    forall x | x in updates ensures x !in outer && x !in ArgSet(l) {
      UpdateSites(prog, k, acc, us, x);
      if x in ArgSet(l) { ArgSites(prog, k, x); }
    }
    assert Untaken(prog, k, 0, outer + ArgSet(l)) by {
      forall x | x in ArgSet(l) ensures !An.SiteOf(prog, x).InBody? { ArgSites(prog, k, x); }
    }
    BodyFresh(prog, k, 0, outer + ArgSet(l), n);
    assert l.body[0..] == l.body;
  }

  // ----- what the analysis found -----

  /** The write at `w` of result `acc` of the loop at `k`, with updates `us`, and the operation at
      `j` that gives the initial value. */
  datatype Found = Found(w: nat, k: nat, acc: nat, us: seq<Stmt>, init: Init, j: nat)

  ghost predicate FoundOk(prog: seq<Top>, f: Found) {
    && f.j < f.k < f.w < |prog| && So.CarriesChain(prog, f.k, f.acc, f.us)
    && prog[f.w].Simple? && prog[f.w].stmt.Write? && prog[f.w].stmt.vec == Vec(prog, f)
    && prog[f.j].Simple? && Starts(prog[f.j].stmt, f.init, prog[f.k].loop.inits[f.acc])
  }

  function Vec(prog: seq<Top>, f: Found): Id
    requires f.k < |prog| && prog[f.k].For? && f.acc < |prog[f.k].loop.results|
  {
    prog[f.k].loop.results[f.acc]
  }

  /** The chain in the form the rewrite takes it. */
  function ChainOf(prog: seq<Top>, f: Found): Chain
    requires FoundOk(prog, f)
  {
    Chain(prog[..f.k], prog[f.k].loop, prog[f.k + 1..f.w], prog[f.w].stmt.addr, prog[f.w + 1..], f.acc, So.Names(f.us), f.init)
  }

  /** The backward walk ends at a constant zero or a read, with one loop on its path, the one whose
      result is written. */
  lemma WalkFinds(prog: seq<Top>, w: nat, v: Id, k: nat, us: seq<Stmt>) returns (f: Found)
    requires An.Ssa(prog) && w < |prog| && prog[w].Simple? && prog[w].stmt.Write?
    requires An.Before(An.SiteOf(prog, prog[w].stmt.vec), w) && An.Walk(prog, prog[w].stmt.vec, w) == Some(An.Path(v, [An.Rep(k, us)]))
    requires An.SiteOf(prog, v).At? && (prog[An.SiteOf(prog, v).top].stmt.Const? ==> prog[An.SiteOf(prog, v).top].stmt.zero)
    ensures FoundOk(prog, f) && f.w == w && f.k == k && f.us == us && prog[k].loop.inits[f.acc] == v
    ensures An.SiteOf(prog, prog[w].stmt.vec) == An.Result(k, f.acc) && f.j == An.SiteOf(prog, v).top
    ensures f.init == if prog[f.j].stmt.Read? then Block(prog[f.j].stmt.addr) else Init.Zero
  {
    var vec := prog[w].stmt.vec;
    var site := An.SiteOf(prog, vec);
    WalkLast(prog, vec, w);
    assert site.Result?;
    assert An.SsaTop(prog, site.top);
    var l := prog[site.top].loop;
    var us' := An.WalkBody(prog, site.top, site.index, l.yielded[site.index], |l.body|).value;
    var path := An.Walk(prog, l.inits[site.index], site.top).value;
    assert (path.pieces + [An.Rep(site.top, us')])[|path.pieces|] == An.Rep(site.top, us');
    assert path.pieces == [] && k == site.top && us == us';
    WalkEnds(prog, l.inits[site.index], k);
    var j := An.SiteOf(prog, v).top;
    var s := prog[j].stmt;
    if s.Read? { assert An.SsaTop(prog, j) && s.addr in Uses(s); }
    f := Found(w, k, site.index, us, if s.Read? then Block(s.addr) else Init.Zero, j);
  }

  /** The last piece of a path that starts at an operation is that operation. */
  lemma WalkLast(prog: seq<Top>, v: Id, i: nat)
    requires An.Ssa(prog) && An.Before(An.SiteOf(prog, v), i) && An.Walk(prog, v, i).Some?
    ensures var pieces := An.Walk(prog, v, i).value.pieces;
            pieces != [] && !An.SiteOf(prog, v).Result? ==> pieces[|pieces| - 1].One?
  {
    if An.SiteOf(prog, v).At? && An.IsLink(prog[An.SiteOf(prog, v).top].stmt) {
      var k := An.SiteOf(prog, v).top;
      assert An.SsaTop(prog, k) && prog[k].stmt.acc in Uses(prog[k].stmt);
      var path := An.Walk(prog, prog[k].stmt.acc, k).value;
      assert (path.pieces + [An.One(k)])[|path.pieces|] == An.One(k);
    }
  }

  /** A path without pieces starts where it ends. */
  lemma WalkEnds(prog: seq<Top>, v: Id, i: nat)
    requires An.Ssa(prog) && An.Before(An.SiteOf(prog, v), i) && An.Walk(prog, v, i).Some? && An.Walk(prog, v, i).value.pieces == []
    ensures An.Walk(prog, v, i).value.initVal == v
    ensures An.SiteOf(prog, v).At? ==> prog[An.SiteOf(prog, v).top].stmt.Const? || prog[An.SiteOf(prog, v).top].stmt.Read?
  {
  }

  // ----- conditions on the text -----

  /** Operation `i` writes a vector. */
  predicate StoresAt(prog: seq<Top>, i: nat) {
    i < |prog| && prog[i].Simple? && prog[i].stmt.Write?
  }

  predicate FreeBody(body: seq<Stmt>, x: Id) {
    forall p :: 0 <= p < |body| ==> x !in Uses(body[p])
  }

  /** The operation does not use `x`. */
  predicate FreeTop(top: Top, x: Id) {
    match top
    case Simple(s) => x !in Uses(s)
    case For(l) => x !in {l.lb, l.ub, l.step} && x !in l.inits && x !in l.yielded && FreeBody(l.body, x)
  }

  predicate TopLeaves(top: Top, tile: nat) {
    match top
    case Simple(s) => !TouchesTile(s, tile)
    case For(l) => LeavesTile(l.body, tile)
  }

  /** The accumulator is used by its chain and the writeback alone, and the tile is free. */
  ghost predicate Usable(prog: seq<Top>, f: Found, tile: nat, n: nat)
    requires FoundOk(prog, f)
  {
    && NamesBelow(prog, n) && prog[f.w].stmt.addr != Vec(prog, f)
    && So.Private(prog[f.k].loop.body, So.Names(f.us), Hidden(prog[f.k].loop, f.acc, So.Names(f.us)))
    && (forall i {:trigger TopLeaves(prog[i], tile)} :: 0 <= i < |prog| ==> TopLeaves(prog[i], tile))
    && (forall i {:trigger FreeTop(prog[i], Vec(prog, f))} :: 0 <= i < |prog| && i != f.w ==> FreeTop(prog[i], Vec(prog, f)))
  }

  lemma SourceIs(prog: seq<Top>, f: Found)
    requires FoundOk(prog, f)
    ensures Source(ChainOf(prog, f)) == prog
  {
    var c := ChainOf(prog, f);
    assert prog == prog[..f.k] + ([prog[f.k]] + (prog[f.k + 1..f.w] + ([prog[f.w]] + prog[f.w + 1..])));
    assert prog[f.w] == Simple(Writeback(c)) && prog[f.k] == For(c.loop);
  }

  // ----- one operation after the loop -----

  /** The redirected names are those of operation `k`. */
  ghost predicate LocalMap(prog: seq<Top>, k: nat, m: map<Id, Id>) {
    forall x :: x in m ==> !An.SiteOf(prog, x).Outside? && An.SiteOf(prog, x).top == k
  }

  lemma ResultsLocal(prog: seq<Top>, k: nat, n: nat)
    requires An.Ssa(prog) && k < |prog| && prog[k].For?
    ensures LocalMap(prog, k, ResultMap(prog[k].loop.results, n))
  {
    assert An.SsaTop(prog, k);
  }

  lemma OthersOwn(prog: seq<Top>, k: nat, i: nat, m: map<Id, Id>, n: nat, ids: seq<Id>)
    requires LocalMap(prog, k, m) && i != k && IdsBelow(ids, n)
    requires forall a :: 0 <= a < |ids| ==> !An.SiteOf(prog, ids[a]).Outside? && An.SiteOf(prog, ids[a]).top == i
    ensures OwnIds(ids, m, n)
  {
  }

  lemma {:induction false} TopIsClean(prog: seq<Top>, k: nat, i: nat, m: map<Id, Id>, n: nat, tile: nat, x: Id)
    requires An.Ssa(prog) && NamesBelow(prog, n) && LocalMap(prog, k, m) && i < |prog| && i != k
    requires FreeTop(prog[i], x) && TopLeaves(prog[i], tile)
    ensures CleanTop(prog[i], m, {x}, tile, n)
  {
    assert An.SsaTop(prog, i) && TopBelow(prog[i], n);
    match prog[i] {
      case Simple(s) =>
      case For(l) =>
        OthersOwn(prog, k, i, m, n, [l.iv]);
        OthersOwn(prog, k, i, m, n, l.args);
        OthersOwn(prog, k, i, m, n, l.results);
        forall p | 0 <= p < |l.body| ensures CleanStmt(l.body[p], m, {x}, tile, n) {
          assert An.SsaBodyStmt(prog, l.body[p], i, p);
        }
    }
  }

  lemma {:induction false} OnlyUseHolds(prog: seq<Top>, f: Found, tile: nat, n: nat)
    requires FoundOk(prog, f) && Usable(prog, f, tile, n)
    ensures OnlyUse(ChainOf(prog, f), tile, n)
  {
    assert An.SsaTop(prog, f.k);
    ResultsLocal(prog, f.k, n);
    CleanAround(prog, f.k, f.w, ResultMap(prog[f.k].loop.results, n), n, tile, Vec(prog, f));
  }

  lemma {:induction false} CleanAround(prog: seq<Top>, k: nat, w: nat, m: map<Id, Id>, n: nat, tile: nat, x: Id)
    requires An.Ssa(prog) && NamesBelow(prog, n) && k < w < |prog| && LocalMap(prog, k, m) && An.Before(An.SiteOf(prog, x), k + 1)
    requires forall i {:trigger TopLeaves(prog[i], tile)} :: 0 <= i < |prog| ==> TopLeaves(prog[i], tile)
    requires forall i {:trigger FreeTop(prog[i], x)} :: 0 <= i < |prog| && i != w ==> FreeTop(prog[i], x)
    ensures Clean(prog[k + 1..w], m, {x}, tile, n) && Clean(prog[w + 1..], m, {x}, tile, n) && NeverBinds(prog[k + 1..w], x)
  {
    CleanRange(prog, k, k + 1, w, m, n, tile, x);
    CleanRange(prog, k, w + 1, |prog|, m, n, tile, x);
    assert prog[w + 1..|prog|] == prog[w + 1..];
    NeverBound(prog, x, k + 1, w);
  }

  lemma {:induction false} CleanRange(prog: seq<Top>, k: nat, lo: nat, hi: nat, m: map<Id, Id>, n: nat, tile: nat, x: Id)
    requires An.Ssa(prog) && NamesBelow(prog, n) && k < lo <= hi <= |prog| && LocalMap(prog, k, m)
    requires forall i :: lo <= i < hi ==> FreeTop(prog[i], x) && TopLeaves(prog[i], tile)
    ensures Clean(prog[lo..hi], m, {x}, tile, n)
  {
    var part := prog[lo..hi];
    forall i | 0 <= i < |part| ensures CleanTop(part[i], m, {x}, tile, n) {
      assert part[i] == prog[lo + i];
      TopIsClean(prog, k, lo + i, m, n, tile, x);
    }
  }

  /** A value that exists before operation `lo` is not bound from there on. */
  lemma NeverBound(prog: seq<Top>, x: Id, lo: nat, hi: nat)
    requires An.Ssa(prog) && lo <= hi <= |prog| && An.Before(An.SiteOf(prog, x), lo)
    ensures NeverBinds(prog[lo..hi], x)
  {
    forall i | 0 <= i < |prog[lo..hi]| ensures match prog[lo..hi][i] case Simple(s) => Defines(s) ==> s.def != x case For(l) => x !in l.results {
      assert An.SsaTop(prog, lo + i);
    }
  }

  // ----- the initial value -----

  /** Memory only grows. */
  lemma {:induction false} StepsGrow<V>(sem: Sem<V>, body: seq<Stmt>, st: State<V>)
    requires Steps(sem, body, st).Some?
    ensures st.mem.Keys <= Steps(sem, body, st).value.mem.Keys
    decreases |body|
  {
    if body != [] { StepsGrow(sem, body[1..], Step(sem, body[0], st).value); }
  }

  lemma {:induction false} IterateGrow<V>(sem: Sem<V>, l: Loop, env: map<Id, V>, k: nat, p: Pass<V>)
    requires Iterate(sem, l, env, k, p).Some?
    ensures p.mem.Keys <= Iterate(sem, l, env, k, p).value.mem.Keys
  {
    if k > 0 {
      IterateGrow(sem, l, env, k - 1, p);
      StepsGrow(sem, l.body, BodyState(sem, l, env, k - 1, Iterate(sem, l, env, k - 1, p).value));
    }
  }

  lemma {:induction false} RunGrow<V>(sem: Sem<V>, prog: seq<Top>, st: State<V>)
    requires Run(sem, prog, st).Some?
    ensures st.mem.Keys <= Run(sem, prog, st).value.mem.Keys
    decreases |prog|
  {
    if prog != [] {
      if prog[0].For? {
        var l := prog[0].loop;
        IterateGrow(sem, l, st.env, Trips(sem, l, st.env), Entry(l, st));
      }
      RunGrow(sem, prog[1..], RunTop(sem, prog[0], st).value);
    }
  }

  /** Nothing is stored between the operation at `j`, which gives the initial value, and `k`. */
  predicate KeepsInit(prog: seq<Top>, init: Init, j: nat, k: nat)
    requires j < k <= |prog|
  {
    init.Zero? || Quiet(prog[j + 1..k])
  }

  /** Nothing is stored between the read of the initial value and the loop. */
  predicate KeepsBlock(prog: seq<Top>, f: Found)
    requires f.j < f.k <= |prog|
  {
    KeepsInit(prog, f.init, f.j, f.k)
  }

  /** At `k` the tile can be filled, and is filled with the initial value `v` if nothing was stored
      since. */
  lemma {:induction false} InitReady<V>(sem: Sem<V>, prog: seq<Top>, init: Init, v: Id, j: nat, k: nat, st: State<V>, s: State<V>)
    requires An.Ssa(prog) && j < k <= |prog| && prog[j].Simple? && Starts(prog[j].stmt, init, v)
    requires So.StateAt(sem, prog, st, k) == Some(s)
    ensures InitRuns(init, s) && v in s.env
    ensures KeepsInit(prog, init, j, k) ==> InitHolds(sem, init, v, s)
  {
    var op, between := prog[j].stmt, prog[j + 1..k];
    assert An.SsaTop(prog, j);
    var s0 := SplitAt(sem, prog, j, k, st, s);
    RunAppend(sem, [prog[j]], between, s0);
    RunOne(sem, prog[j], s0);
    var s1 := Step(sem, op, s0).value;
    NeverBound(prog, v, j + 1, k);
    ResultKept(sem, between, s1, v);
    if init.Block? {
      assert init.addr in Uses(op);
      NeverBound(prog, init.addr, j + 1, k);
      ResultKept(sem, between, s1, init.addr);
      RunGrow(sem, between, s1);
    }
    if KeepsInit(prog, init, j, k) { InitStillHolds(sem, op, between, init, v, s0); }
  }

  lemma {:induction false} SplitAt<V>(sem: Sem<V>, prog: seq<Top>, j: nat, k: nat, st: State<V>, s: State<V>) returns (s0: State<V>)
    requires j < k <= |prog| && So.StateAt(sem, prog, st, k) == Some(s)
    ensures So.StateAt(sem, prog, st, j) == Some(s0) && Run(sem, [prog[j]] + prog[j + 1..k], s0) == Some(s)
  {
    assert prog[..k] == prog[..j] + ([prog[j]] + prog[j + 1..k]);
    RunAppend(sem, prog[..j], [prog[j]] + prog[j + 1..k], st);
    s0 := Run(sem, prog[..j], st).value;
  }

  // ----- the pass -----

  /** The source ran up to the loop, and the rewrite can start there. */
  lemma {:induction false} AtLoopHolds<V>(sem: Sem<V>, prog: seq<Top>, f: Found, tile: nat, n: nat, st: State<V>) returns (s: State<V>)
    requires FoundOk(prog, f) && Usable(prog, f, tile, n) && Arguments(prog, n, st) && Run(sem, prog, st).Some?
    ensures So.StateAt(sem, prog, st, f.k) == Some(s) && Run(sem, ChainOf(prog, f).pre, st) == Some(s)
    ensures AtLoop(ChainOf(prog, f), tile, n, s) && CanEnter(prog[f.k].loop, s.env) && RunLoop(sem, prog[f.k].loop, s).Some?
    ensures KeepsBlock(prog, f) ==> InitHolds(sem, f.init, prog[f.k].loop.inits[f.acc], s)
    ensures forall x :: x in s.env ==> An.Before(An.SiteOf(prog, x), f.k) && x < n
  {
    s := Reach(sem, prog, f.k, st);
    NamesBefore(sem, prog, n, st, f.k, s);
    assert TopLeaves(prog[f.k], tile);
    LoopRewritable(prog, f.k, f.acc, f.us, tile, n, s.env.Keys);
    LoopNames(prog, f.k, n);
    InitReady(sem, prog, f.init, prog[f.k].loop.inits[f.acc], f.j, f.k, st, s);
  }

  lemma {:induction false} NamesBefore<V>(sem: Sem<V>, prog: seq<Top>, n: nat, st: State<V>, i: nat, s: State<V>)
    requires An.Ssa(prog) && NamesBelow(prog, n) && Arguments(prog, n, st) && So.StateAt(sem, prog, st, i) == Some(s)
    ensures forall x :: x in s.env ==> An.Before(An.SiteOf(prog, x), i) && x < n
  {
    forall x | x in s.env ensures An.Before(An.SiteOf(prog, x), i) && x < n { KeysBefore(sem, prog, n, st, i, x); }
  }

  lemma {:induction false} Reach<V>(sem: Sem<V>, prog: seq<Top>, k: nat, st: State<V>) returns (s: State<V>)
    requires k < |prog| && Run(sem, prog, st).Some?
    ensures So.StateAt(sem, prog, st, k) == Some(s) && RunTop(sem, prog[k], s).Some?
  {
    assert prog == prog[..k] + ([prog[k]] + prog[k + 1..]);
    RunAppend(sem, prog[..k], [prog[k]] + prog[k + 1..], st);
    s := Run(sem, prog[..k], st).value;
    RunAppend(sem, [prog[k]], prog[k + 1..], s);
    RunOne(sem, prog[k], s);
  }

  /** Every other yield operand is defined before the loop. */
  ghost predicate YieldsOutside(prog: seq<Top>, k: nat, acc: nat)
    requires k < |prog| && prog[k].For?
  {
    forall i :: 0 <= i < |prog[k].loop.yielded| && i != acc ==> An.Before(An.SiteOf(prog, prog[k].loop.yielded[i]), k)
  }

  /** For a loop that iterates this is what the run needs. */
  lemma {:induction false} YieldsExact<V>(sem: Sem<V>, prog: seq<Top>, f: Found, s: State<V>)
    requires FoundOk(prog, f) && CanEnter(prog[f.k].loop, s.env) && RunLoop(sem, prog[f.k].loop, s).Some?
    requires forall x :: x in s.env ==> An.Before(An.SiteOf(prog, x), f.k)
    requires Trips(sem, prog[f.k].loop, s.env) > 0
    ensures OuterYields(prog[f.k].loop, f.acc, s.env.Keys) <==> YieldsOutside(prog, f.k, f.acc)
  {
    var l := prog[f.k].loop;
    FirstIteration(sem, l, s.env, Trips(sem, l, s.env), Entry(l, s));
    forall i | 0 <= i < |l.yielded| && An.Before(An.SiteOf(prog, l.yielded[i]), f.k) ensures l.yielded[i] in s.env {
      YieldFromOutside(sem, prog, f.k, s, i);
    }
  }

  lemma {:induction false} YieldFromOutside<V>(sem: Sem<V>, prog: seq<Top>, k: nat, s: State<V>, i: nat)
    requires An.Ssa(prog) && k < |prog| && prog[k].For? && i < |prog[k].loop.yielded|
    requires An.Before(An.SiteOf(prog, prog[k].loop.yielded[i]), k) && CanEnter(prog[k].loop, s.env)
    requires Iteration(sem, prog[k].loop, s.env, 0, Entry(prog[k].loop, s)).Some?
    ensures prog[k].loop.yielded[i] in s.env
  {
    var l := prog[k].loop;
    var y, p := l.yielded[i], Entry(l, s);
    var st := BodyState(sem, l, s.env, 0, p);
    assert An.SsaTop(prog, k);
    So.VisibleKept(prog, k, 0, y);
    assert l.body[0..] == l.body;
    StepsKeep(sem, l.body, st, y);
    BindOther(s.env, l.args, p.carried, y);
    assert y in Steps(sem, l.body, st).value.env;
  }

  /** No earlier carried value starts from the accumulator's initial operand. */
  predicate UniqueInit(l: Loop, acc: nat)
    requires acc < |l.inits|
  {
    forall j :: 0 <= j < acc ==> l.inits[j] != l.inits[acc]
  }

  /** The rewritten function: `found` is the position that the pass drops. */
  function Lowered(prog: seq<Top>, f: Found, found: nat, tile: nat, n: nat): seq<Top>
    requires FoundOk(prog, f) && found < |prog[f.k].loop.results|
  {
    Target(ChainOf(prog, f), found, tile, n)
  }

  /** When nothing is known of the values: the pass is right for this loop. */
  ghost predicate RightFor<V>(sem: Sem<V>, prog: seq<Top>, f: Found, found: nat, tile: nat, n: nat, s: State<V>)
    requires FoundOk(prog, f) && found < |prog[f.k].loop.results| && CanEnter(prog[f.k].loop, s.env)
  {
    var l := prog[f.k].loop;
    if Trips(sem, l, s.env) > 0 then UniqueInit(l, f.acc) && YieldsOutside(prog, f.k, f.acc)
    else found == f.acc || Unused(ChainOf(prog, f), found, tile, n) || s.env[l.inits[f.acc]] == sem.zero
  }

  /** The pass on a function in SSA form.  The analysis traced the written vector to one loop and a
      constant zero or a read; nothing else uses the accumulator, nothing is stored between the
      read and the loop, no update is transposed.  Then, for every meaning of the operations and
      every number of iterations: a loop that iterates still runs exactly when no earlier carried
      value has the same initial operand and every other yield is defined before the loop; and the
      functions leave the same memory whenever that holds, or the loop does not iterate and the
      dropped result is the chain's own, unused, or zero. */
  lemma {:induction false} PassExact<V>(sem: Sem<V>, prog: seq<Top>, f: Found, found: nat, tile: nat, n: nat, st: State<V>)
      returns (s: State<V>)
    requires FoundOk(prog, f) && Usable(prog, f, tile, n) && Arguments(prog, n, st) && Run(sem, prog, st).Some?
    requires KeepsBlock(prog, f) && NoTransposed(prog[f.k].loop.body, So.Names(f.us))
    requires IsFirst(prog[f.k].loop.inits, prog[f.k].loop.inits[f.acc], found) && found < |prog[f.k].loop.results|
    ensures So.StateAt(sem, prog, st, f.k) == Some(s) && CanEnter(prog[f.k].loop, s.env)
    ensures Trips(sem, prog[f.k].loop, s.env) > 0 ==>
              (Run(sem, Lowered(prog, f, found, tile, n), st).Some? <==> RightFor(sem, prog, f, found, tile, n, s))
    ensures RightFor(sem, prog, f, found, tile, n, s) ==>
              var r := Run(sem, Lowered(prog, f, found, tile, n), st);
              r.Some? && r.value.mem == Run(sem, prog, st).value.mem && TilesAgree(Run(sem, prog, st).value.tiles, r.value.tiles, tile)
  {
    s := AtLoopHolds(sem, prog, f, tile, n, st);
    OnlyUseHolds(prog, f, tile, n);
    SourceIs(prog, f);
    if Trips(sem, prog[f.k].loop, s.env) > 0 { YieldsExact(sem, prog, f, s); }
    RewriteExact(sem, ChainOf(prog, f), found, tile, n, st, s);
  }

  /** The initial value is a read or the constant zero. */
  predicate SupportedInit(prog: seq<Top>, v: Id) {
    var site := An.SiteOf(prog, v);
    site.At? && (prog[site.top].stmt.Read? || (prog[site.top].stmt.Const? && prog[site.top].stmt.zero))
  }

  function InitOf(prog: seq<Top>, v: Id): Init
    requires SupportedInit(prog, v)
  {
    var s := prog[An.SiteOf(prog, v).top].stmt;
    if s.Read? then Block(s.addr) else Init.Zero
  }
}
