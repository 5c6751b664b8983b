/** For which functions the matrix pass is right whatever the operations mean.  Well-formed source
    functions always run on a memory that holds every address, so each condition that the pass
    needs can be shown necessary by a meaning of the operations that tells the two functions
    apart. */
module MatrixAlways {
  import opened Options
  import opened TensorIR
  import opened TileRewrite
  import opened MatrixProgram
  import opened MatrixExact
  import opened MatrixPass
  import An = ChainAnalysis
  import So = ChainSoundness

  // ----- names in use -----

  function Members(ids: seq<Id>): set<Id> {
    set i | 0 <= i < |ids| :: ids[i]
  }

  function BodyUses(body: seq<Stmt>): set<Id> {
    if body == [] then {} else Uses(body[0]) + BodyUses(body[1..])
  }

  function TopUses(top: Top): set<Id> {
    match top
    case Simple(s) => Uses(s)
    case For(l) => {l.lb, l.ub, l.step} + Members(l.inits) + Members(l.yielded) + BodyUses(l.body)
  }

  function UsedNames(prog: seq<Top>): set<Id> {
    if prog == [] then {} else TopUses(prog[0]) + UsedNames(prog[1..])
  }

  lemma {:induction false} BodyUsesHas(body: seq<Stmt>, p: nat)
    requires p < |body|
    ensures Uses(body[p]) <= BodyUses(body)
    decreases |body|
  {
    if p > 0 { BodyUsesHas(body[1..], p - 1); }
  }

  lemma {:induction false} UsedNamesHas(prog: seq<Top>, k: nat)
    requires k < |prog|
    ensures TopUses(prog[k]) <= UsedNames(prog)
    decreases |prog|
  {
    if k > 0 { UsedNamesHas(prog[1..], k - 1); }
  }

  predicate IsTileOp(s: Stmt) {
    s.TileZero? || s.TileLoad? || s.TileMac? || s.TileStore?
  }

  predicate NoTileOps(body: seq<Stmt>) {
    forall p :: 0 <= p < |body| ==> !IsTileOp(body[p])
  }

  /** The function has not been lowered yet. */
  predicate VectorOnly(prog: seq<Top>) {
    forall k :: 0 <= k < |prog| ==> match prog[k] case Simple(s) => !IsTileOp(s) case For(l) => NoTileOps(l.body)
  }

  // ----- a finite meaning -----

  function Next(a: int, m: nat): int {
    if a + 1 < m then a + 1 else 0
  }

  /** Values below `m`; an update keeps the accumulator, a transposed one counts it up modulo `m`;
      the operations in `marked` give 1, the others 0, and every loop makes `t` iterations. */
  function Counting(m: nat, t: nat, marked: set<nat>): Sem<int>
    requires m > 0
  {
    Sem(0, (a: int, x: int, y: int) => a, (a: int, x: int, y: int) => Next(a, m),
        (code: nat, args: seq<int>, mem: map<int, int>) => if code in marked && m > 1 then 1 else 0,
        (lb: int, ub: int, step: int) => t, (lb: int, step: int, i: nat) => 0)
  }

  ghost predicate AllBelow(env: map<Id, int>, m: nat) {
    forall x :: x in env ==> 0 <= env[x] < m
  }

  /** Memory holds every address below `m`, and only values below `m`. */
  ghost predicate TotalMemory(mem: map<int, int>, m: nat) {
    (forall a :: 0 <= a < m ==> a in mem) && forall a :: a in mem ==> 0 <= mem[a] < m
  }

  ghost predicate Closed(st: State<int>, m: nat) {
    AllBelow(st.env, m) && TotalMemory(st.mem, m)
  }

  /** Every value in use that exists by position `i` is there. */
  ghost predicate Ready(prog: seq<Top>, i: nat, env: map<Id, int>) {
    forall x :: x in UsedNames(prog) && An.Before(An.SiteOf(prog, x), i) ==> x in env
  }

  ghost predicate BodyReady(prog: seq<Top>, k: nat, p: nat, env: map<Id, int>) {
    forall x :: x in UsedNames(prog) && An.Visible(An.SiteOf(prog, x), k, p) ==> x in env
  }

  lemma StepRuns(m: nat, t: nat, cs: set<nat>, s: Stmt, st: State<int>)
    requires m > 0 && Closed(st, m) && Uses(s) <= st.env.Keys && !IsTileOp(s)
    ensures Step(Counting(m, t, cs), s, st).Some? && Closed(Step(Counting(m, t, cs), s, st).value, m)
    ensures Step(Counting(m, t, cs), s, st).value.env.Keys == if Defines(s) then st.env.Keys + {s.def} else st.env.Keys
  {
    if s.Other? {
      forall i | 0 <= i < |s.args| ensures s.args[i] in st.env { assert s.args[i] in Uses(s); }
    }
  }

  lemma {:induction false} StepsRun(m: nat, t: nat, cs: set<nat>, prog: seq<Top>, k: nat, p: nat, st: State<int>)
    requires m > 0 && An.Ssa(prog) && VectorOnly(prog) && k < |prog| && prog[k].For? && p <= |prog[k].loop.body|
    requires Closed(st, m) && BodyReady(prog, k, p, st.env)
    ensures var body := prog[k].loop.body;
            var r := Steps(Counting(m, t, cs), body[p..], st);
            r.Some? && Closed(r.value, m) && BodyReady(prog, k, |body|, r.value.env)
    decreases |prog[k].loop.body| - p
  {
    var body := prog[k].loop.body;
    if p < |body| {
      var s := body[p];
      assert body[p..][0] == s && body[p..][1..] == body[p + 1..];
      assert An.SsaTop(prog, k) && An.SsaBodyStmt(prog, s, k, p);
      BodyUsesHas(body, p);
      UsedNamesHas(prog, k);
      LoopUses(prog[k].loop);
      assert Uses(s) <= UsedNames(prog);
      StepRuns(m, t, cs, s, st);
      var next := Step(Counting(m, t, cs), s, st).value;
      forall x | x in UsedNames(prog) && An.Visible(An.SiteOf(prog, x), k, p + 1) ensures x in next.env {
        if An.SiteOf(prog, x) != An.InBody(k, p) { assert An.Visible(An.SiteOf(prog, x), k, p); }
      }
      StepsRun(m, t, cs, prog, k, p + 1, next);
    }
  }

  ghost predicate ValuesBelow(vals: seq<int>, m: nat) {
    forall i :: 0 <= i < |vals| ==> 0 <= vals[i] < m
  }

  ghost predicate PassClosed(p: Pass<int>, l: Loop, m: nat) {
    |p.carried| == |l.args| && ValuesBelow(p.carried, m) && TotalMemory(p.mem, m)
  }

  lemma {:induction false} BodyStarts(m: nat, t: nat, cs: set<nat>, prog: seq<Top>, k: nat, env: map<Id, int>, i: nat, p: Pass<int>)
    requires m > 0 && An.Ssa(prog) && k < |prog| && prog[k].For? && AllBelow(env, m) && Ready(prog, k, env)
    requires prog[k].loop.lb in env && prog[k].loop.step in env && PassClosed(p, prog[k].loop, m)
    ensures var st := BodyState(Counting(m, t, cs), prog[k].loop, env, i, p);
            Closed(st, m) && BodyReady(prog, k, 0, st.env)
  {
    var l := prog[k].loop;
    var st := BodyState(Counting(m, t, cs), l, env, i, p);
    BoundBelow(env, l.args, p.carried, m);
    forall x | x in UsedNames(prog) && An.Visible(An.SiteOf(prog, x), k, 0) ensures x in st.env {
      BindOther(env, l.args, p.carried, x);
    }
  }

  lemma {:induction false} BoundBelow(env: map<Id, int>, ids: seq<Id>, vals: seq<int>, m: nat)
    requires |ids| == |vals| && AllBelow(env, m) && ValuesBelow(vals, m)
    ensures AllBelow(Bind(env, ids, vals), m)
    decreases |ids|
  {
    if ids != [] { BoundBelow(env, ids[1..], vals[1..], m); }
  }

  lemma {:induction false} IterationRuns(m: nat, t: nat, cs: set<nat>, prog: seq<Top>, k: nat, env: map<Id, int>, i: nat, p: Pass<int>)
    requires m > 0 && An.Ssa(prog) && VectorOnly(prog) && k < |prog| && prog[k].For? && AllBelow(env, m) && Ready(prog, k, env)
    requires prog[k].loop.lb in env && prog[k].loop.step in env && PassClosed(p, prog[k].loop, m)
    ensures var r := Iteration(Counting(m, t, cs), prog[k].loop, env, i, p);
            r.Some? && PassClosed(r.value, prog[k].loop, m)
  {
    var l := prog[k].loop;
    BodyStarts(m, t, cs, prog, k, env, i, p);
    var st := BodyState(Counting(m, t, cs), l, env, i, p);
    StepsRun(m, t, cs, prog, k, 0, st);
    assert l.body[0..] == l.body;
    var r := Steps(Counting(m, t, cs), l.body, st).value;
    assert An.SsaTop(prog, k);
    UsedNamesHas(prog, k);
    LoopUses(l);
    forall a | 0 <= a < |l.yielded| ensures l.yielded[a] in r.env {
      assert l.yielded[a] in TopUses(For(l));
    }
  }

  lemma {:induction false} IterateRuns(m: nat, t: nat, cs: set<nat>, prog: seq<Top>, k: nat, env: map<Id, int>, i: nat, p: Pass<int>)
    requires m > 0 && An.Ssa(prog) && VectorOnly(prog) && k < |prog| && prog[k].For? && AllBelow(env, m) && Ready(prog, k, env)
    requires prog[k].loop.lb in env && prog[k].loop.step in env && PassClosed(p, prog[k].loop, m)
    ensures var r := Iterate(Counting(m, t, cs), prog[k].loop, env, i, p);
            r.Some? && PassClosed(r.value, prog[k].loop, m)
  {
    if i > 0 {
      IterateRuns(m, t, cs, prog, k, env, i - 1, p);
      IterationRuns(m, t, cs, prog, k, env, i - 1, Iterate(Counting(m, t, cs), prog[k].loop, env, i - 1, p).value);
    }
  }

  lemma {:induction false} LoopRuns(m: nat, t: nat, cs: set<nat>, prog: seq<Top>, k: nat, st: State<int>)
    requires m > 0 && An.Ssa(prog) && VectorOnly(prog) && k < |prog| && prog[k].For? && Closed(st, m) && Ready(prog, k, st.env)
    ensures var r := RunLoop(Counting(m, t, cs), prog[k].loop, st);
            r.Some? && Closed(r.value, m) && Ready(prog, k + 1, r.value.env)
  {
    var l := prog[k].loop;
    NeededByLoop(prog, k, st.env);
    EntryClosed(l, st, m);
    var p := Entry(l, st);
    assert An.SsaTop(prog, k);
    IterateRuns(m, t, cs, prog, k, st.env, t, p);
    ResultsReady(m, prog, k, st.env, Iterate(Counting(m, t, cs), l, st.env, t, p).value.carried);
  }

  lemma EntryClosed(l: Loop, st: State<int>, m: nat)
    requires SameArity(l) && CanEnter(l, st.env) && Closed(st, m)
    ensures PassClosed(Entry(l, st), l, m)
  {
  }

  lemma {:induction false} ResultsReady(m: nat, prog: seq<Top>, k: nat, env: map<Id, int>, vals: seq<int>)
    requires An.Ssa(prog) && k < |prog| && prog[k].For? && AllBelow(env, m) && Ready(prog, k, env)
    requires |vals| == |prog[k].loop.results| && ValuesBelow(vals, m)
    ensures var e := Bind(env, prog[k].loop.results, vals);
            AllBelow(e, m) && Ready(prog, k + 1, e)
  {
    var l := prog[k].loop;
    BoundBelow(env, l.results, vals, m);
    forall x | x in UsedNames(prog) && An.Before(An.SiteOf(prog, x), k + 1) ensures x in Bind(env, l.results, vals) {
      BindOther(env, l.results, vals, x);
    }
  }

  /** The operands of the loop exist. */
  lemma {:induction false} NeededByLoop(prog: seq<Top>, k: nat, env: map<Id, int>)
    requires An.Ssa(prog) && k < |prog| && prog[k].For? && Ready(prog, k, env)
    ensures SameArity(prog[k].loop) && CanEnter(prog[k].loop, env)
  {
    var l := prog[k].loop;
    assert An.SsaTop(prog, k);
    UsedNamesHas(prog, k);
    LoopUses(l);
    forall i | 0 <= i < |l.inits| ensures l.inits[i] in env { assert l.inits[i] in TopUses(For(l)); }
  }

  lemma LoopUses(l: Loop)
    ensures {l.lb, l.ub, l.step} <= TopUses(For(l))
    ensures forall i :: 0 <= i < |l.inits| ==> l.inits[i] in TopUses(For(l))
    ensures forall i :: 0 <= i < |l.yielded| ==> l.yielded[i] in TopUses(For(l))
    ensures BodyUses(l.body) <= TopUses(For(l))
  {
    forall i | 0 <= i < |l.inits| ensures l.inits[i] in TopUses(For(l)) { assert l.inits[i] in Members(l.inits); }
    forall i | 0 <= i < |l.yielded| ensures l.yielded[i] in TopUses(For(l)) { assert l.yielded[i] in Members(l.yielded); }
  }

  // ----- whole functions run -----

  /** All arguments in use are there, and nothing else. */
  ghost predicate Start(prog: seq<Top>, n: nat, st: State<int>, m: nat) {
    Arguments(prog, n, st) && Closed(st, m) && Ready(prog, 0, st.env)
  }

  lemma {:induction false} StmtRuns(m: nat, t: nat, cs: set<nat>, prog: seq<Top>, k: nat, st: State<int>)
    requires m > 0 && An.Ssa(prog) && VectorOnly(prog) && k < |prog| && prog[k].Simple? && Closed(st, m) && Ready(prog, k, st.env)
    ensures var r := Step(Counting(m, t, cs), prog[k].stmt, st);
            r.Some? && Closed(r.value, m) && Ready(prog, k + 1, r.value.env)
  {
    var s := prog[k].stmt;
    assert An.SsaTop(prog, k);
    UsedNamesHas(prog, k);
    StepRuns(m, t, cs, s, st);
    var next := Step(Counting(m, t, cs), s, st).value;
    forall x | x in UsedNames(prog) && An.Before(An.SiteOf(prog, x), k + 1) ensures x in next.env {
      if An.SiteOf(prog, x) != An.At(k) { assert An.Before(An.SiteOf(prog, x), k); }
    }
  }

  /** A well-formed function runs to its end. */
  lemma {:induction false} Progress(m: nat, t: nat, cs: set<nat>, prog: seq<Top>, n: nat, st: State<int>, i: nat)
    requires m > 0 && An.Ssa(prog) && VectorOnly(prog) && i <= |prog| && Start(prog, n, st, m)
    ensures var r := So.StateAt(Counting(m, t, cs), prog, st, i);
            r.Some? && Closed(r.value, m) && Ready(prog, i, r.value.env)
  {
    var sem := Counting(m, t, cs);
    if i == 0 {
      assert prog[..0] == [];
    } else {
      Progress(m, t, cs, prog, n, st, i - 1);
      var s := So.StateAt(sem, prog, st, i - 1).value;
      assert prog[..i] == prog[..i - 1] + [prog[i - 1]];
      RunAppend(sem, prog[..i - 1], [prog[i - 1]], st);
      RunOne(sem, prog[i - 1], s);
      if prog[i - 1].Simple? { StmtRuns(m, t, cs, prog, i - 1, s); } else { LoopRuns(m, t, cs, prog, i - 1, s); }
    }
  }

  ghost function Zeros(m: nat): map<int, int> {
    if m == 0 then map[] else Zeros(m - 1)[m - 1 := 0]
  }

  lemma {:induction false} ZerosTotal(m: nat, a: int)
    ensures a in Zeros(m) <==> 0 <= a < m
    ensures a in Zeros(m) ==> Zeros(m)[a] == 0
  {
    if m > 0 { ZerosTotal(m - 1, a); }
  }

  /** The arguments with value 0, except `marked` with value 1, and a memory of zeros. */
  ghost function Initial(prog: seq<Top>, m: nat, marked: set<Id>): State<int> {
    State(map x | x in UsedNames(prog) && An.SiteOf(prog, x).Outside? :: if x in marked then 1 else 0,
          map[], Zeros(m))
  }

  /** Every name in use is below `n`. */
  ghost predicate UsesBelow(prog: seq<Top>, n: nat) {
    forall x :: x in UsedNames(prog) ==> x < n
  }

  lemma InitialStarts(prog: seq<Top>, n: nat, m: nat, marked: set<Id>)
    requires UsesBelow(prog, n) && m > 0 && (marked == {} || m > 1)
    ensures Start(prog, n, Initial(prog, m, marked), m)
  {
    forall a ensures a in Zeros(m) <==> 0 <= a < m ensures a in Zeros(m) ==> Zeros(m)[a] == 0 { ZerosTotal(m, a); }
  }

  lemma {:induction false} SourceRuns(m: nat, t: nat, cs: set<nat>, prog: seq<Top>, n: nat, marked: set<Id>)
    requires m > 0 && (marked == {} || m > 1) && An.Ssa(prog) && VectorOnly(prog) && UsesBelow(prog, n)
    ensures Arguments(prog, n, Initial(prog, m, marked)) && Run(Counting(m, t, cs), prog, Initial(prog, m, marked)).Some?
  {
    InitialStarts(prog, n, m, marked);
    Progress(m, t, cs, prog, n, Initial(prog, m, marked), |prog|);
    assert prog[..|prog|] == prog;
  }

  // ----- what the accumulator counts -----

  function Transposed(us: seq<Stmt>): nat {
    if us == [] then 0
    else Transposed(us[..|us| - 1]) + (if us[|us| - 1].Contract? && us[|us| - 1].transposed then 1 else 0)
  }

  /** `a` counted up `t` times. */
  function CountedUp(a: int, t: nat, m: nat): int {
    if a + t < m then a + t else a + t - m
  }

  lemma {:induction false} FoldCounts(m: nat, t: nat, cs: set<nat>, env: map<Id, int>, us: seq<Stmt>, a: int)
    requires m > 0 && 0 <= a < m && Operands(env, us) && Transposed(us) < m
    ensures So.FoldUpdates(Counting(m, t, cs), env, us, a) == CountedUp(a, Transposed(us), m)
    decreases |us|
  {
    if us != [] {
      var front, last := us[..|us| - 1], us[|us| - 1];
      FoldCounts(m, t, cs, env, front, a);
      assert last.Contract? && last.lhs in env && last.rhs in env;
    }
  }

  /** Every update is a contraction whose operands exist. */
  ghost predicate Operands(env: map<Id, int>, us: seq<Stmt>) {
    forall i :: 0 <= i < |us| ==> us[i].Contract? && us[i].lhs in env && us[i].rhs in env
  }

  lemma {:induction false} UpdatesHaveOperands(sem: Sem<int>, prog: seq<Top>, k: nat, acc: nat, us: seq<Stmt>, st: State<int>)
    requires So.CarriesChain(prog, k, acc, us) && Steps(sem, prog[k].loop.body, st).Some?
    ensures Operands(Steps(sem, prog[k].loop.body, st).value.env, us)
  {
    var l := prog[k].loop;
    So.WalkMembers(prog, k, acc, l.yielded[acc], |l.body|);
    forall i | 0 <= i < |us|
      ensures us[i].Contract? && us[i].lhs in Steps(sem, l.body, st).value.env && us[i].rhs in Steps(sem, l.body, st).value.env
    {
      assert us[i] in us;
      var q :| 0 <= q < |l.body| && l.body[q] == us[i];
      So.ContractAtEnd(sem, prog, k, q, st);
    }
  }

  /** After one iteration the written vector counts the transposed updates. */
  lemma {:induction false} LoopCounts(m: nat, prog: seq<Top>, k: nat, acc: nat, us: seq<Stmt>, s: State<int>)
    requires m > 0 && So.CarriesChain(prog, k, acc, us) && CanEnter(prog[k].loop, s.env) && AllBelow(s.env, m)
    requires RunLoop(Counting(m, 1, {}), prog[k].loop, s).Some? && Transposed(us) < m
    ensures var l, e := prog[k].loop, RunLoop(Counting(m, 1, {}), prog[k].loop, s).value.env;
            l.results[acc] in e && e[l.results[acc]] == CountedUp(s.env[l.inits[acc]], Transposed(us), m)
  {
    var sem, l := Counting(m, 1, {}), prog[k].loop;
    So.LoopResult(sem, prog, k, acc, us, s);
    FirstIteration(sem, l, s.env, 1, Entry(l, s));
    var st := BodyState(sem, l, s.env, 0, Entry(l, s));
    UpdatesHaveOperands(sem, prog, k, acc, us, st);
    FoldCounts(m, 1, {}, Steps(sem, l.body, st).value.env, us, s.env[l.inits[acc]]);
    OneIteration(sem, l, s.env, Entry(l, s), us, s.env[l.inits[acc]], st);
  }

  lemma {:induction false} OneIteration(sem: Sem<int>, l: Loop, env: map<Id, int>, p: Pass<int>, us: seq<Stmt>, a: int, st: State<int>)
    requires l.lb in env && l.step in env && |l.args| == |p.carried| && st == BodyState(sem, l, env, 0, p) && Steps(sem, l.body, st).Some?
    ensures So.FoldLoop(sem, l, env, p, us, a, 1) == So.FoldUpdates(sem, Steps(sem, l.body, st).value.env, us, a)
  {
    assert So.IterationEnd(sem, l, env, 0, p) == Steps(sem, l.body, st).value.env;
    assert So.FoldLoop(sem, l, env, p, us, a, 0) == a;
  }

  // ----- the tile does not count -----

  predicate KeepsOrMacs(body: seq<Stmt>, tile: nat) {
    forall p :: 0 <= p < |body| ==> body[p].TileMac? || !TouchesTile(body[p], tile)
  }

  lemma {:induction false} TileKept(m: nat, t: nat, cs: set<nat>, body: seq<Stmt>, tile: nat, st: State<int>)
    requires m > 0 && KeepsOrMacs(body, tile) && tile in st.tiles && Steps(Counting(m, t, cs), body, st).Some?
    ensures tile in Steps(Counting(m, t, cs), body, st).value.tiles && Steps(Counting(m, t, cs), body, st).value.tiles[tile] == st.tiles[tile]
    decreases |body|
  {
    if body != [] {
      assert body[0].TileMac? || !TouchesTile(body[0], tile);
      TileKept(m, t, cs, body[1..], tile, Step(Counting(m, t, cs), body[0], st).value);
    }
  }

  lemma {:induction false} TileKeptByLoop(m: nat, t: nat, cs: set<nat>, l: Loop, tile: nat, env: map<Id, int>, i: nat, p: Pass<int>)
    requires m > 0 && KeepsOrMacs(l.body, tile) && tile in p.tiles && Iterate(Counting(m, t, cs), l, env, i, p).Some?
    ensures var q := Iterate(Counting(m, t, cs), l, env, i, p).value;
            tile in q.tiles && q.tiles[tile] == p.tiles[tile]
  {
    if i > 0 {
      TileKeptByLoop(m, t, cs, l, tile, env, i - 1, p);
      var q := Iterate(Counting(m, t, cs), l, env, i - 1, p).value;
      TileKept(m, t, cs, l.body, tile, BodyState(Counting(m, t, cs), l, env, i - 1, q));
    }
  }

  lemma {:induction false} RewrittenKeeps(body: seq<Stmt>, map0: map<Id, Id>, updates: set<Id>, tile: nat, n: nat)
    requires LeavesTile(body, tile)
    ensures KeepsOrMacs(RewriteBody(body, map0, updates, tile, n), tile)
    decreases |body|
  {
    if body != [] {
      var rest := RewriteBody(body[1..], NextMap(body[0], map0, updates, n), updates, tile, n);
      RewrittenKeeps(body[1..], NextMap(body[0], map0, updates, n), updates, tile, n);
      assert !TouchesTile(body[0], tile);
      var code := RewriteBody(body, map0, updates, tile, n);
      forall p | 0 <= p < |code| ensures code[p].TileMac? || !TouchesTile(code[p], tile) {
        if p > 0 { assert code[p] == rest[p - 1]; }
      }
    }
  }

  /** The tile ends as it began. */
  lemma {:induction false} TileStays(m: nat, t: nat, cs: set<nat>, c: Chain, tile: nat, n: nat, st: State<int>)
    requires m > 0 && WellFormed(c) && LeavesTile(c.loop.body, tile) && InitRuns(c.init, st)
    requires AfterLoop(Counting(m, t, cs), c, c.acc, tile, n, st).Some?
    ensures var r := AfterLoop(Counting(m, t, cs), c, c.acc, tile, n, st).value;
            tile in r.tiles && r.tiles[tile] == Step(Counting(m, t, cs), InitOp(c.init, tile), st).value.tiles[tile]
  {
    var sem := Counting(m, t, cs);
    InitStep(sem, c.init, 0, tile, st);
    var st', l' := Step(sem, InitOp(c.init, tile), st).value, RewriteLoop(c.loop, c.acc, c.updates, tile, n);
    RewrittenKeeps(c.loop.body, ArgMap(c.loop, c.acc, n), c.updates, tile, n);
    TileKeptByLoop(m, t, cs, l', tile, st'.env, Trips(sem, l', st'.env), Entry(l', st'));
  }

  // ----- agreement for every meaning -----

  ghost predicate SameResult<V>(sem: Sem<V>, prog: seq<Top>, prog': seq<Top>, st: State<V>)
    requires Run(sem, prog, st).Some?
  {
    var r := Run(sem, prog', st);
    r.Some? && r.value.mem == Run(sem, prog, st).value.mem
  }

  /** Whatever the operations mean and the arguments are, `code` runs whenever `prog` does, and
      leaves the same memory. */
  ghost predicate AlwaysAgrees(prog: seq<Top>, code: seq<Top>, n: nat) {
    forall sem: Sem<int>, st: State<int> :: Arguments(prog, n, st) && Run(sem, prog, st).Some? ==> SameResult(sem, prog, code, st)
  }

  /** A chain as the pass meets it, in a function that stores nothing after the writeback. */
  ghost predicate Plainly(prog: seq<Top>, f: Found, found: nat, tile: nat, n: nat) {
    && FoundOk(prog, f) && Usable(prog, f, tile, n) && VectorOnly(prog) && UsesBelow(prog, n) && Quiet(prog[f.w + 1..])
    && IsFirst(prog[f.k].loop.inits, prog[f.k].loop.inits[f.acc], found) && found < |prog[f.k].loop.results|
  }

  /** What the pass would have to check and does not. */
  ghost predicate Conditions(prog: seq<Top>, f: Found)
    requires FoundOk(prog, f)
  {
    UniqueInit(prog[f.k].loop, f.acc) && YieldsOutside(prog, f.k, f.acc) && NoTransposed(prog[f.k].loop.body, So.Names(f.us))
  }

  lemma {:induction false} SomeTransposed(us: seq<Stmt>, i: nat)
    requires i < |us| && us[i].Contract? && us[i].transposed
    ensures Transposed(us) > 0
    decreases |us|
  {
    if i < |us| - 1 { SomeTransposed(us[..|us| - 1], i); }
  }

  lemma TransposedCounted(prog: seq<Top>, f: Found)
    requires FoundOk(prog, f) && !NoTransposed(prog[f.k].loop.body, So.Names(f.us))
    ensures Transposed(f.us) > 0
  {
    var l := prog[f.k].loop;
    var p :| 0 <= p < |l.body| && IsUpdate(l.body[p], So.Names(f.us)) && l.body[p].transposed;
    So.UpdateIsMember(prog, f.k, f.acc, l.yielded[f.acc], |l.body|, f.us, p);
    var i :| 0 <= i < |f.us| && f.us[i] == l.body[p];
    SomeTransposed(f.us, i);
  }

  /** If one of the conditions fails, counting modulo one more than the transposed updates tells the
      two functions apart. */
  lemma {:induction false} Counterexample(m: nat, prog: seq<Top>, f: Found, found: nat, tile: nat, n: nat) returns (st: State<int>)
    requires Plainly(prog, f, found, tile, n) && KeepsBlock(prog, f) && m == Transposed(f.us) + 1 && !Conditions(prog, f)
    ensures Start(prog, n, st, m) && Run(Counting(m, 1, {}), prog, st).Some?
    ensures !SameResult(Counting(m, 1, {}), prog, Lowered(prog, f, found, tile, n), st)
  {
    st := Witness(m, prog, n);
    ToldApart(m, prog, f, found, tile, n, st);
  }

  lemma {:induction false} Witness(m: nat, prog: seq<Top>, n: nat) returns (st: State<int>)
    requires m > 0 && An.Ssa(prog) && VectorOnly(prog) && UsesBelow(prog, n)
    ensures Start(prog, n, st, m) && Run(Counting(m, 1, {}), prog, st).Some?
  {
    st := Initial(prog, m, {});
    InitialStarts(prog, n, m, {});
    SourceRuns(m, 1, {}, prog, n, {});
  }

  lemma {:induction false} ToldApart(m: nat, prog: seq<Top>, f: Found, found: nat, tile: nat, n: nat, st: State<int>)
    requires Plainly(prog, f, found, tile, n) && KeepsBlock(prog, f) && m == Transposed(f.us) + 1 && Start(prog, n, st, m)
    requires !Conditions(prog, f) && Run(Counting(m, 1, {}), prog, st).Some?
    ensures !SameResult(Counting(m, 1, {}), prog, Lowered(prog, f, found, tile, n), st)
  {
    var s := AtLoopHolds(Counting(m, 1, {}), prog, f, tile, n, st);
    AccIdxExact(prog[f.k].loop.inits, f.acc, found);
    if found != f.acc {
      OtherPosition(Counting(m, 1, {}), prog, f, found, tile, n, st, s);
    } else {
      OwnPosition(m, prog, f, tile, n, st, s);
    }
  }

  lemma {:induction false} OtherPosition<V>(sem: Sem<V>, prog: seq<Top>, f: Found, found: nat, tile: nat, n: nat,
                                            st: State<V>, s: State<V>)
    requires FoundOk(prog, f) && Run(sem, ChainOf(prog, f).pre, st) == Some(s) && AtLoop(ChainOf(prog, f), tile, n, s)
    requires CanEnter(prog[f.k].loop, s.env) && RunLoop(sem, prog[f.k].loop, s).Some? && Trips(sem, prog[f.k].loop, s.env) > 0
    requires found < |prog[f.k].loop.results| && found != f.acc
    ensures Run(sem, Lowered(prog, f, found, tile, n), st) == None
  {
    RunTarget(sem, ChainOf(prog, f), found, tile, n, st);
    WrongPosition(sem, ChainOf(prog, f), found, tile, n, s);
  }

  lemma {:induction false} OwnPosition(m: nat, prog: seq<Top>, f: Found, tile: nat, n: nat, st: State<int>, s: State<int>)
    requires Plainly(prog, f, f.acc, tile, n) && m == Transposed(f.us) + 1 && Start(prog, n, st, m)
    requires Run(Counting(m, 1, {}), prog, st).Some? && So.StateAt(Counting(m, 1, {}), prog, st, f.k) == Some(s)
    requires Run(Counting(m, 1, {}), ChainOf(prog, f).pre, st) == Some(s) && AtLoop(ChainOf(prog, f), tile, n, s)
    requires CanEnter(prog[f.k].loop, s.env) && RunLoop(Counting(m, 1, {}), prog[f.k].loop, s).Some?
    requires InitHolds(Counting(m, 1, {}), f.init, prog[f.k].loop.inits[f.acc], s)
    requires forall x :: x in s.env ==> An.Before(An.SiteOf(prog, x), f.k)
    requires !(YieldsOutside(prog, f.k, f.acc) && NoTransposed(prog[f.k].loop.body, So.Names(f.us)))
    ensures !SameResult(Counting(m, 1, {}), prog, Lowered(prog, f, f.acc, tile, n), st)
  {
    var sem, c := Counting(m, 1, {}), ChainOf(prog, f);
    LoopPartAgrees(sem, c, tile, n, s, false);
    YieldsExact(sem, prog, f, s);
    var r2 := AfterLoop(sem, c, f.acc, tile, n, s);
    if r2.None? {
      RunTarget(sem, c, f.acc, tile, n, st);
    } else {
      TransposedCounted(prog, f);
      Progress(m, 1, {}, prog, n, st, f.k);
      LoopCounts(m, prog, f.k, f.acc, f.us, s);
      InitStep(sem, c.init, c.loop.inits[f.acc], tile, s);
      assert TopLeaves(prog[f.k], tile);
      TileStays(m, 1, {}, c, tile, n, s);
      OnlyUseHolds(prog, f, tile, n);
      SourceIs(prog, f);
      WritebackExact(sem, c, tile, n, st, s, RunLoop(sem, c.loop, s).value, r2.value);
    }
  }

  /** The pass is right for every meaning of the operations, every argument and every trip count if
      and only if no earlier carried value has the accumulator's initial operand, every other yield
      is defined before the loop, and no update has the transposed result map. */
  lemma {:induction false} AlwaysExact(prog: seq<Top>, f: Found, found: nat, tile: nat, n: nat)
    requires Plainly(prog, f, found, tile, n) && KeepsBlock(prog, f)
    ensures AlwaysAgrees(prog, Lowered(prog, f, found, tile, n), n) <==>
            UniqueInit(prog[f.k].loop, f.acc) && YieldsOutside(prog, f.k, f.acc) && NoTransposed(prog[f.k].loop.body, So.Names(f.us))
  {
    if Conditions(prog, f) {
      AccIdxExact(prog[f.k].loop.inits, f.acc, found);
      forall sem: Sem<int>, st: State<int> | Arguments(prog, n, st) && Run(sem, prog, st).Some?
        ensures SameResult(sem, prog, Lowered(prog, f, found, tile, n), st)
      {
        OneAgrees(sem, prog, f, tile, n, st);
      }
    } else {
      var st := Counterexample(Transposed(f.us) + 1, prog, f, found, tile, n);
    }
  }

  lemma {:induction false} OneAgrees<V>(sem: Sem<V>, prog: seq<Top>, f: Found, tile: nat, n: nat, st: State<V>)
    requires FoundOk(prog, f) && Usable(prog, f, tile, n) && Arguments(prog, n, st) && Run(sem, prog, st).Some?
    requires KeepsBlock(prog, f) && NoTransposed(prog[f.k].loop.body, So.Names(f.us))
    requires UniqueInit(prog[f.k].loop, f.acc) && YieldsOutside(prog, f.k, f.acc)
    ensures SameResult(sem, prog, Lowered(prog, f, f.acc, tile, n), st)
  {
    var s := PassExact(sem, prog, f, f.acc, tile, n, st);
  }
}
