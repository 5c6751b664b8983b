/** Functions on which the matrix pass goes wrong.  Each meets every hypothesis of the rewrite but
    the one it is named for. */
module MatrixFailures {
  import opened Options
  import opened TensorIR
  import opened TileRewrite
  import opened MatrixProgram
  import opened MatrixExact

  // ----- one accumulator, one update -----

  const LIMIT: nat := 16
  const LOWER: Id := 0
  const UPPER: Id := 1
  const STEP: Id := 2
  const INIT_VAL: Id := 3
  const ADDRESS: Id := 4
  const IV: Id := 5
  const ARG: Id := 6
  const LHS: Id := 7
  const RHS: Id := 8
  const UPDATED: Id := 9
  const SUM: Id := 10
  const BLOCK: Id := 11
  const STORED: Id := 12
  const SECOND_ARG: Id := 13
  const SECOND_SUM: Id := 14
  const OTHER_ADDRESS: Id := 15

  function Update(transposed: bool): Stmt {
    Contract(UPDATED, LHS, RHS, ARG, true, transposed)
  }

  function OneLoop(transposed: bool): Loop {
    Loop([SUM], IV, [ARG], LOWER, UPPER, STEP, [INIT_VAL], [Update(transposed)], [UPDATED])
  }

  function OneChain(pre: seq<Top>, transposed: bool, init: Init): Chain {
    Chain(pre, OneLoop(transposed), [], ADDRESS, [], 0, {UPDATED}, init)
  }

  /** The values that exist at the loop. */
  ghost predicate Outer(outer: set<Id>) {
    {LOWER, UPPER, STEP, INIT_VAL, ADDRESS, LHS, RHS} <= outer <= {LOWER, UPPER, STEP, INIT_VAL, ADDRESS, LHS, RHS, BLOCK, STORED}
  }

  lemma {:induction false} OneRewritable(transposed: bool, tile: nat, outer: set<Id>)
    requires Outer(outer)
    ensures Rewritable(OneLoop(transposed), 0, {UPDATED}, tile, LIMIT, outer)
  {
    var l := OneLoop(transposed);
    assert l.args[0] == ARG;
    assert ArgSet(l) == {IV, ARG} && Hidden(l, 0, {UPDATED}) == {UPDATED, ARG};
    assert l.body[1..] == [];
    assert FreshDefs(l.body, outer + ArgSet(l), LIMIT);
  }

  lemma {:induction false} OneAtLoop<V>(pre: seq<Top>, transposed: bool, init: Init, tile: nat, st: State<V>)
    requires Outer(st.env.Keys) && InitRuns(init, st)
    ensures AtLoop(OneChain(pre, transposed, init), tile, LIMIT, st) && OnlyUse(OneChain(pre, transposed, init), tile, LIMIT)
  {
    OneRewritable(transposed, tile, st.env.Keys);
  }

  ghost function Product<V>(sem: Sem<V>, transposed: bool, a: V, x: V, y: V): V {
    if transposed then sem.macTransposed(a, x, y) else sem.mac(a, x, y)
  }

  /** One iteration of the source loop. */
  lemma {:induction false} OneSource<V>(sem: Sem<V>, transposed: bool, st: State<V>)
    requires Outer(st.env.Keys) && CanEnter(OneLoop(transposed), st.env) && Trips(sem, OneLoop(transposed), st.env) == 1
    ensures var r := RunLoop(sem, OneLoop(transposed), st);
            && r.Some? && ADDRESS in r.value.env && SUM in r.value.env
            && r.value.env[SUM] == Product(sem, transposed, st.env[INIT_VAL], st.env[LHS], st.env[RHS])
  {
    var l, p := OneLoop(transposed), Entry(OneLoop(transposed), st);
    var b := BodyState(sem, l, st.env, 0, p);
    BindAt(st.env, l.args, p.carried, 0);
    BindOther(st.env, l.args, p.carried, LHS);
    BindOther(st.env, l.args, p.carried, RHS);
    var b' := Step(sem, l.body[0], b).value;
    assert l.body[1..] == [] && Steps(sem, l.body, b) == Some(b');
    assert Iterate(sem, l, st.env, 0, p) == Some(p);
    var q := Iterate(sem, l, st.env, 1, p).value;
    assert l.yielded[0] == UPDATED && q.carried[0] == b'.env[UPDATED];
    BindAt(st.env, l.results, q.carried, 0);
    BindOther(st.env, l.results, q.carried, ADDRESS);
  }

  /** One iteration of the rewritten loop. */
  lemma {:induction false} OneTarget<V>(sem: Sem<V>, transposed: bool, tile: nat, st: State<V>)
    requires Outer(st.env.Keys) && CanEnter(OneLoop(transposed), st.env) && Trips(sem, OneLoop(transposed), st.env) == 1
    requires tile in st.tiles
    ensures var r := RunLoop(sem, RewriteLoop(OneLoop(transposed), 0, {UPDATED}, tile, LIMIT), st);
            && r.Some? && tile in r.value.tiles
            && r.value.tiles[tile] == sem.mac(st.tiles[tile], st.env[LHS], st.env[RHS])
  {
    var l := OneLoop(transposed);
    var l' := RewriteLoop(l, 0, {UPDATED}, tile, LIMIT);
    var m := ArgMap(l, 0, LIMIT);
    assert l.args[0] == ARG;
    assert ArgSet(l) == {IV, ARG};
    assert Subst(m, LHS) == LHS && Subst(m, RHS) == RHS;
    OneBody(Update(transposed), m, {UPDATED}, tile, LIMIT);
    assert l'.body == [TileMac(tile, LHS, RHS)];
    assert l'.args == [] && l'.inits == [] && l'.yielded == [] && l'.results == [];
    var p := Entry(l', st);
    var b := BodyState(sem, l', st.env, 0, p);
    assert l'.body[1..] == [];
    var b' := Step(sem, l'.body[0], b).value;
    assert Steps(sem, l'.body, b) == Some(b');
    assert Iterate(sem, l', st.env, 0, p) == Some(p);
  }

  /** The states after the two loops. */
  lemma {:induction false} OneLoops<V>(sem: Sem<V>, c: Chain, transposed: bool, tile: nat,
                                       s: State<V>) returns (r1: State<V>, r2: State<V>)
    requires c.loop == OneLoop(transposed) && c.acc == 0 && c.updates == {UPDATED} && Outer(s.env.Keys) && InitRuns(c.init, s)
    requires Trips(sem, c.loop, s.env) == 1
    ensures RunLoop(sem, c.loop, s) == Some(r1) && AfterLoop(sem, c, 0, tile, LIMIT, s) == Some(r2)
    ensures ADDRESS in r1.env && SUM in r1.env && r1.env[SUM] == Product(sem, transposed, s.env[INIT_VAL], s.env[LHS], s.env[RHS])
    ensures tile in r2.tiles
    ensures r2.tiles[tile] == sem.mac(Step(sem, InitOp(c.init, tile), s).value.tiles[tile], s.env[LHS], s.env[RHS])
  {
    OneSource(sem, transposed, s);
    InitStep(sem, c.init, INIT_VAL, tile, s);
    OneTarget(sem, transposed, tile, Step(sem, InitOp(c.init, tile), s).value);
    r1 := RunLoop(sem, c.loop, s).value;
    r2 := AfterLoop(sem, c, 0, tile, LIMIT, s).value;
  }

  lemma {:induction false} WriteLast<V>(sem: Sem<V>, c: Chain, st: State<V>, s: State<V>, r1: State<V>)
    requires WellFormed(c) && c.mid == [] && c.post == [] && Run(sem, c.pre, st) == Some(s) && RunLoop(sem, c.loop, s) == Some(r1)
    requires c.addr in r1.env && c.loop.results[c.acc] in r1.env
    ensures Run(sem, Source(c), st).Some?
  {
    RunSource(sem, c, st);
    RunTail(sem, [], Writeback(c), [], r1);
  }

  /** The function with one iteration: the memories agree exactly when the accumulated vector and
      the accumulated tile do. */
  lemma {:induction false} OneExact<V>(sem: Sem<V>, pre: seq<Top>, transposed: bool, init: Init, tile: nat, st: State<V>, s: State<V>)
    requires Run(sem, pre, st) == Some(s) && Outer(s.env.Keys) && InitRuns(init, s) && Trips(sem, OneLoop(transposed), s.env) == 1
    ensures var c := OneChain(pre, transposed, init);
            var r1, r2 := Run(sem, Source(c), st), Run(sem, Target(c, 0, tile, LIMIT), st);
            var t := Step(sem, InitOp(init, tile), s).value.tiles[tile];
            && r1.Some? && r2.Some?
            && (r1.value.mem == r2.value.mem <==>
                Product(sem, transposed, s.env[INIT_VAL], s.env[LHS], s.env[RHS]) == sem.mac(t, s.env[LHS], s.env[RHS]))
  {
    var c := OneChain(pre, transposed, init);
    OneAtLoop(pre, transposed, init, tile, s);
    var r1, r2 := OneLoops(sem, c, transposed, tile, s);
    assert c.loop.results[0] == SUM;
    WriteLast(sem, c, st, s, r1);
    WritebackExact(sem, c, tile, LIMIT, st, s, r1, r2);
  }

  lemma {:induction false} OneBody(s: Stmt, m: map<Id, Id>, updates: set<Id>, tile: nat, n: nat)
    ensures RewriteBody([s], m, updates, tile, n) == [RewriteStmt(s, m, updates, tile, n)]
  {
    assert [s][1..] == [] && RewriteBody([], NextMap(s, m, updates, n), updates, tile, n) == [];
  }

  // ----- a transposed result map -----

  /** An address, a vector of two elements, or a block of two by two. */
  datatype Value = Index(i: int) | Vector(e0: int, e1: int) | Matrix(e00: int, e01: int, e10: int, e11: int)

  /** C[i][j] + a[i] * b[j]. */
  function OuterSum(c: Value, a: Value, b: Value): Value {
    if c.Matrix? && a.Vector? && b.Vector? then
      Matrix(c.e00 + a.e0 * b.e0, c.e01 + a.e0 * b.e1, c.e10 + a.e1 * b.e0, c.e11 + a.e1 * b.e1)
    else c
  }

  /** The result map (N, M): C[j][i] + a[i] * b[j]. */
  function OuterSumTransposed(c: Value, a: Value, b: Value): Value {
    if c.Matrix? && a.Vector? && b.Vector? then
      Matrix(c.e00 + a.e0 * b.e0, c.e01 + a.e1 * b.e0, c.e10 + a.e0 * b.e1, c.e11 + a.e1 * b.e1)
    else c
  }

  function Elements(trips: nat): Sem<Value> {
    Sem(Matrix(0, 0, 0, 0), (c: Value, a: Value, b: Value) => OuterSum(c, a, b),
        (c: Value, a: Value, b: Value) => OuterSumTransposed(c, a, b),
        (code: nat, args: seq<Value>, mem: map<Value, Value>) => Index(0),
        (lb: Value, ub: Value, step: Value) => trips, (lb: Value, step: Value, i: nat) => Index(i))
  }

  /** acc = 0; for one iteration: acc = transposed contraction; write acc. */
  function TransposedMatmul(): Chain {
    OneChain([Simple(Const(INIT_VAL, true, 0))], true, Init.Zero)
  }

  lemma {:induction false} RunZero<V>(sem: Sem<V>, st: State<V>)
    ensures Run(sem, [Simple(Const(INIT_VAL, true, 0))], st) == Some(Define(st, INIT_VAL, sem.zero))
  {
    RunOne(sem, Simple(Const(INIT_VAL, true, 0)), st);
  }

  /** The accepted function with a transposed result map: on the vectors (a0, a1) and (b0, b1) the
      two functions leave the same memory exactly when a0 * b1 == a1 * b0. */
  lemma {:induction false} TransposedExact(tile: nat, st: State<Value>)
    requires st.env.Keys == {LOWER, UPPER, STEP, ADDRESS, LHS, RHS} && st.env[LHS].Vector? && st.env[RHS].Vector?
    ensures var c := TransposedMatmul();
            var r1, r2 := Run(Elements(1), Source(c), st), Run(Elements(1), Target(c, 0, tile, LIMIT), st);
            && r1.Some? && r2.Some?
            && (r1.value.mem == r2.value.mem <==> st.env[LHS].e0 * st.env[RHS].e1 == st.env[LHS].e1 * st.env[RHS].e0)
  {
    var sem := Elements(1);
    var s := Define(st, INIT_VAL, sem.zero);
    RunZero(sem, st);
    OneExact(sem, [Simple(Const(INIT_VAL, true, 0))], true, Init.Zero, tile, st, s);
  }

  /** It goes wrong on (0, 1) and (1, 0): the one is in the wrong corner. */
  lemma {:induction false} TransposedFails(tile: nat) returns (st: State<Value>)
    ensures st.env.Keys == {LOWER, UPPER, STEP, ADDRESS, LHS, RHS}
    ensures var c := TransposedMatmul();
            var r1, r2 := Run(Elements(1), Source(c), st), Run(Elements(1), Target(c, 0, tile, LIMIT), st);
            r1.Some? && r2.Some? && r1.value.mem != r2.value.mem
  {
    st := State(map[LOWER := Index(0), UPPER := Index(1), STEP := Index(1), ADDRESS := Index(100),
                    LHS := Vector(0, 1), RHS := Vector(1, 0)], map[], map[]);
    TransposedExact(tile, st);
  }

  // ----- a store between the read and the loop -----

  function Numbers(trips: nat): Sem<int> {
    Sem(0, (c: int, a: int, b: int) => c + a * b, (c: int, a: int, b: int) => c + a * b,
        (code: nat, args: seq<int>, mem: map<int, int>) => 0,
        (lb: int, ub: int, step: int) => trips, (lb: int, step: int, i: nat) => i)
  }

  /** v = read block; store to the block; for one iteration: acc = contraction, from v; write. */
  function LateLoad(): Chain {
    OneChain([Simple(Read(INIT_VAL, BLOCK)), Simple(Write(BLOCK, STORED))], false, Block(BLOCK))
  }

  /** With one iteration the two functions agree exactly when the store did not change the block. */
  lemma {:induction false} LateLoadFails(tile: nat, st: State<int>)
    requires st.env.Keys == {LOWER, UPPER, STEP, ADDRESS, LHS, RHS, BLOCK, STORED} && st.env[BLOCK] in st.mem
    ensures var r1, r2 := Run(Numbers(1), Source(LateLoad()), st), Run(Numbers(1), Target(LateLoad(), 0, tile, LIMIT), st);
            r1.Some? && r2.Some? && (r1.value.mem == r2.value.mem <==> st.mem[st.env[BLOCK]] == st.env[STORED])
  {
    var sem, pre := Numbers(1), LateLoad().pre;
    var s0 := Define(st, INIT_VAL, st.mem[st.env[BLOCK]]);
    var s := s0.(mem := s0.mem[s0.env[BLOCK] := s0.env[STORED]]);
    assert pre == [pre[0]] + [pre[1]];
    RunAppend(sem, [pre[0]], [pre[1]], st);
    RunOne(sem, pre[0], st);
    RunOne(sem, pre[1], s0);
    OneExact(sem, pre, false, Block(BLOCK), tile, st, s);
  }

  // ----- two carried values -----

  function TwoLoop(inits: seq<Id>, body: seq<Stmt>, yielded: seq<Id>): Loop {
    Loop([SUM, SECOND_SUM], IV, [ARG, SECOND_ARG], LOWER, UPPER, STEP, inits, body, yielded)
  }

  function Zeroed(): seq<Top> {
    [Simple(Const(INIT_VAL, true, 0))]
  }

  /** The second carried value is yielded from the body. */
  function CarriedCounter(): Chain {
    Chain(Zeroed(), TwoLoop([INIT_VAL, STORED], [Update(false), Other(BLOCK, 1, [SECOND_ARG])], [UPDATED, BLOCK]), [], ADDRESS, [], 0,
          {UPDATED}, Init.Zero)
  }

  /** Both carried values start from the same constant, and the second is the accumulator. */
  function SharedZero(): Chain {
    Chain(Zeroed(), TwoLoop([INIT_VAL, INIT_VAL], [Contract(UPDATED, LHS, RHS, SECOND_ARG, true, false)], [STORED, UPDATED]), [], ADDRESS, [], 1,
          {UPDATED}, Init.Zero)
  }

  ghost predicate TwoArguments<V>(st: State<V>) {
    st.env.Keys == {LOWER, UPPER, STEP, ADDRESS, LHS, RHS, STORED}
  }

  ghost predicate TwoOuter<V>(sem: Sem<V>, st: State<V>) {
    st.env.Keys == {LOWER, UPPER, STEP, INIT_VAL, ADDRESS, LHS, RHS, STORED} && st.env[INIT_VAL] == sem.zero
  }

  /** The loop has two carried values and names only what is there. */
  ghost predicate TwoCarried(l: Loop, outer: set<Id>) {
    && |l.results| == |l.inits| == |l.yielded| == 2 && l.iv == IV && l.args == [ARG, SECOND_ARG]
    && outer <= {LOWER, UPPER, STEP, INIT_VAL, ADDRESS, LHS, RHS, BLOCK, STORED, OTHER_ADDRESS}
  }

  lemma {:induction false} TwoRewritable(l: Loop, acc: nat, tile: nat, outer: set<Id>)
    requires TwoCarried(l, outer) && acc < 2 && l.yielded[acc] == UPDATED
    requires var arg := if acc == 0 then ARG else SECOND_ARG;
             BodyOk(l.body, arg, outer + {IV, ARG, SECOND_ARG}) && LeavesTile(l.body, tile)
    ensures Rewritable(l, acc, {UPDATED}, tile, LIMIT, outer)
  {
    assert ArgSet(l) == {IV, ARG, SECOND_ARG} by { assert l.args[0] == ARG && l.args[1] == SECOND_ARG; }
    assert Hidden(l, acc, {UPDATED}) == {UPDATED, l.args[acc]};
  }

  ghost predicate BodyOk(body: seq<Stmt>, arg: Id, taken: set<Id>) {
    ChainBody(body, arg, {UPDATED}, {UPDATED, arg}, UPDATED) && FreshDefs(body, taken, LIMIT)
  }

  lemma {:induction false} CounterAtLoop<V>(sem: Sem<V>, tile: nat, st: State<V>)
    requires TwoOuter(sem, st)
    ensures var c := CarriedCounter();
            AtLoop(c, tile, LIMIT, st) && Faithful(sem, c, st) && OnlyUse(c, tile, LIMIT)
  {
    var l := CarriedCounter().loop;
    CounterBody(st.env.Keys + {IV, ARG, SECOND_ARG});
    TwoRewritable(l, 0, tile, st.env.Keys);
  }

  lemma {:induction false} SharedAtLoop<V>(sem: Sem<V>, tile: nat, st: State<V>)
    requires TwoOuter(sem, st)
    ensures var c := SharedZero();
            AtLoop(c, tile, LIMIT, st) && Faithful(sem, c, st) && OnlyUse(c, tile, LIMIT)
  {
    var l := SharedZero().loop;
    SecondBody(st.env.Keys + {IV, ARG, SECOND_ARG});
    TwoRewritable(l, 1, tile, st.env.Keys);
  }

  lemma {:induction false} CounterBody(taken: set<Id>)
    requires UPDATED !in taken && BLOCK !in taken
    ensures BodyOk(CarriedCounter().loop.body, ARG, taken)
  {
    var body := CarriedCounter().loop.body;
    var other := Other(BLOCK, 1, [SECOND_ARG]);
    assert body[1..] == [other] && body[1..][1..] == [];
    assert Uses(other) == {SECOND_ARG} by { assert [SECOND_ARG][0] == SECOND_ARG; }
    assert ChainBody([other], UPDATED, {UPDATED}, {UPDATED, ARG}, UPDATED);
    assert FreshDefs([other], taken + {UPDATED}, LIMIT);
  }

  lemma {:induction false} SecondBody(taken: set<Id>)
    requires UPDATED !in taken
    ensures BodyOk([Contract(UPDATED, LHS, RHS, SECOND_ARG, true, false)], SECOND_ARG, taken)
  {
    var body := [Contract(UPDATED, LHS, RHS, SECOND_ARG, true, false)];
    assert body[1..] == [];
  }

  lemma {:induction false} TwoBodyRuns<V>(sem: Sem<V>, l: Loop, st: State<V>)
    requires l == CarriedCounter().loop || l == SharedZero().loop
    requires {LHS, RHS, ARG, SECOND_ARG, STORED} <= st.env.Keys
    ensures Steps(sem, l.body, st).Some? && Defined(Steps(sem, l.body, st).value.env, l.yielded)
  {
    var s1 := Step(sem, l.body[0], st).value;
    if l == CarriedCounter().loop {
      assert l.body[1..] == [Other(BLOCK, 1, [SECOND_ARG])] && l.body[1..][1..] == [];
      var s2 := Step(sem, Other(BLOCK, 1, [SECOND_ARG]), s1).value;
      assert Steps(sem, l.body[1..], s1) == Steps(sem, [], s2);
    } else {
      assert l.body[1..] == [];
    }
  }

  lemma {:induction false} TwoIterate<V>(sem: Sem<V>, l: Loop, env: map<Id, V>, k: nat, p: Pass<V>)
    requires l == CarriedCounter().loop || l == SharedZero().loop
    requires {LOWER, STEP, LHS, RHS, STORED} <= env.Keys && |p.carried| == 2
    ensures Iterate(sem, l, env, k, p).Some? && |Iterate(sem, l, env, k, p).value.carried| == 2
  {
    if k > 0 {
      TwoIterate(sem, l, env, k - 1, p);
      var q := Iterate(sem, l, env, k - 1, p).value;
      assert l.args[0] == ARG && l.args[1] == SECOND_ARG;
      BindOther(env, l.args, q.carried, LHS);
      BindOther(env, l.args, q.carried, RHS);
      BindOther(env, l.args, q.carried, ARG);
      BindOther(env, l.args, q.carried, SECOND_ARG);
      BindOther(env, l.args, q.carried, STORED);
      TwoBodyRuns(sem, l, BodyState(sem, l, env, k - 1, q));
    }
  }

  lemma {:induction false} TwoLoopRuns<V>(sem: Sem<V>, l: Loop, acc: nat, s: State<V>) returns (r: State<V>)
    requires l == CarriedCounter().loop || l == SharedZero().loop
    requires acc < 2 && TwoOuter(sem, s)
    ensures CanEnter(l, s.env) && RunLoop(sem, l, s) == Some(r) && ADDRESS in r.env && l.results[acc] in r.env
  {
    var p := Entry(l, s);
    var k := Trips(sem, l, s.env);
    TwoIterate(sem, l, s.env, k, p);
    var vals := Iterate(sem, l, s.env, k, p).value.carried;
    BindAt(s.env, l.results, vals, acc);
    BindOther(s.env, l.results, vals, ADDRESS);
    r := RunLoop(sem, l, s).value;
  }

  lemma {:induction false} TwoSourceRuns<V>(sem: Sem<V>, c: Chain, st: State<V>, s: State<V>)
    requires c == CarriedCounter() || c == SharedZero()
    requires TwoArguments(st) && s == Define(st, INIT_VAL, sem.zero)
    ensures Run(sem, c.pre, st) == Some(s) && CanEnter(c.loop, s.env) && Run(sem, Source(c), st).Some?
  {
    RunZero(sem, st);
    var r := TwoLoopRuns(sem, c.loop, c.acc, s);
    WriteLast(sem, c, st, s, r);
  }

  /** Unmapped yields: the source runs for every trip count, the rewritten function for none but
      zero, whatever the operations mean. */
  lemma {:induction false} CarriedCounterFails<V>(sem: Sem<V>, tile: nat, st: State<V>)
    requires TwoArguments(st)
    ensures Run(sem, Source(CarriedCounter()), st).Some?
    ensures Run(sem, Target(CarriedCounter(), 0, tile, LIMIT), st).Some? <==>
            sem.trips(st.env[LOWER], st.env[UPPER], st.env[STEP]) == 0
  {
    var c, s := CarriedCounter(), Define(st, INIT_VAL, sem.zero);
    TwoSourceRuns(sem, c, st, s);
    CounterAtLoop(sem, tile, s);
    RewriteCorrect(sem, c, tile, LIMIT, st, s);
    assert c.loop.yielded[1] == BLOCK && BLOCK !in s.env;
  }

  /** Shared initial operand: the pass drops position 0 instead of 1, and the rewritten function
      runs for no trip count but zero. */
  lemma {:induction false} SharedZeroFails<V>(sem: Sem<V>, tile: nat, st: State<V>)
    requires TwoArguments(st)
    ensures IsFirst(SharedZero().loop.inits, INIT_VAL, 0) && Run(sem, Source(SharedZero()), st).Some?
    ensures Run(sem, Target(SharedZero(), 0, tile, LIMIT), st).Some? <==>
            sem.trips(st.env[LOWER], st.env[UPPER], st.env[STEP]) == 0
    ensures Run(sem, Target(SharedZero(), 1, tile, LIMIT), st).Some?
  {
    var c, s := SharedZero(), Define(st, INIT_VAL, sem.zero);
    TwoSourceRuns(sem, c, st, s);
    SharedAtLoop(sem, tile, s);
    assert c.loop.inits[0] == c.loop.inits[1] == INIT_VAL && INIT_VAL in c.loop.inits;
    RewriteExact(sem, c, 0, tile, LIMIT, st, s);
    assert c.loop.yielded[0] == STORED && STORED in s.env;
    RewriteCorrect(sem, c, tile, LIMIT, st, s);
  }

  // ----- a shared initial operand and no iteration -----

  /** Both carried values start from a block that is read; the first result is written, too. */
  function SharedBlock(): Chain {
    Chain([Simple(Read(INIT_VAL, BLOCK))],
          TwoLoop([INIT_VAL, INIT_VAL], [Contract(UPDATED, LHS, RHS, SECOND_ARG, true, false)], [INIT_VAL, UPDATED]),
          [Simple(Write(OTHER_ADDRESS, SUM))], ADDRESS, [], 1, {UPDATED}, Block(BLOCK))
  }

  ghost predicate BlockArguments<V>(st: State<V>) {
    st.env.Keys == {LOWER, UPPER, STEP, ADDRESS, LHS, RHS, BLOCK, OTHER_ADDRESS} && st.env[BLOCK] in st.mem
  }

  ghost predicate BlockOuter<V>(st: State<V>) {
    && st.env.Keys == {LOWER, UPPER, STEP, INIT_VAL, ADDRESS, LHS, RHS, BLOCK, OTHER_ADDRESS}
    && st.env[BLOCK] in st.mem && st.mem[st.env[BLOCK]] == st.env[INIT_VAL]
  }

  lemma {:induction false} SharedBlockReady<V>(sem: Sem<V>, tile: nat, st: State<V>)
    requires BlockOuter(st)
    ensures var c := SharedBlock();
            AtLoop(c, tile, LIMIT, st) && Faithful(sem, c, st) && OnlyUse(c, tile, LIMIT)
  {
    var l := SharedBlock().loop;
    SecondBody(st.env.Keys + {IV, ARG, SECOND_ARG});
    TwoRewritable(l, 1, tile, st.env.Keys);
    assert Uses(Write(OTHER_ADDRESS, SUM)) == {OTHER_ADDRESS, SUM};
  }

  /** Without iterations the rewritten function runs and writes zero for the first result.  The two
      functions agree exactly when the value read is zero, or the second write covers the first. */
  lemma {:induction false} SharedBlockFails<V>(sem: Sem<V>, tile: nat, st: State<V>)
    requires BlockArguments(st) && sem.trips(st.env[LOWER], st.env[UPPER], st.env[STEP]) == 0
    ensures IsFirst(SharedBlock().loop.inits, INIT_VAL, 0)
    ensures var r1, r2 := Run(sem, Source(SharedBlock()), st), Run(sem, Target(SharedBlock(), 0, tile, LIMIT), st);
            && r1.Some? && r2.Some?
            && (r1.value.mem == r2.value.mem <==> st.mem[st.env[BLOCK]] == sem.zero || st.env[ADDRESS] == st.env[OTHER_ADDRESS])
  {
    var c, v := SharedBlock(), st.mem[st.env[BLOCK]];
    var s := Define(st, INIT_VAL, v);
    RunOne(sem, c.pre[0], st);
    assert c.pre == [c.pre[0]] && Run(sem, c.pre, st) == Some(s);
    SharedBlockReady(sem, tile, s);
    assert c.loop.inits[0] == INIT_VAL && c.loop.inits[1] == INIT_VAL && INIT_VAL in c.loop.inits;
    var r1 := SharedIdle(sem, tile, s, v);
    RunSource(sem, c, st);
    IdleExact(sem, c, 0, tile, LIMIT, st, s);
    TwoWrites(s.mem, s.env[OTHER_ADDRESS], s.env[ADDRESS], v, sem.zero);
  }

  /** After the loop, and with the first result replaced by zero. */
  lemma {:induction false} SharedIdle<V>(sem: Sem<V>, tile: nat, s: State<V>, v: V) returns (r1: State<V>)
    requires BlockOuter(s) && v == s.env[INIT_VAL] && sem.trips(s.env[LOWER], s.env[UPPER], s.env[STEP]) == 0
    requires AtLoop(SharedBlock(), tile, LIMIT, s) && InitHolds(sem, Block(BLOCK), INIT_VAL, s)
    ensures RunLoop(sem, SharedBlock().loop, s) == Some(r1)
    ensures var f, z := Run(sem, Tail(SharedBlock().mid, Writeback(SharedBlock()), []), r1), WithZero(sem, SharedBlock(), 0, r1);
            && f.Some? && f.value.mem == s.mem[s.env[OTHER_ADDRESS] := v][s.env[ADDRESS] := v]
            && z.Some? && z.value.mem == s.mem[s.env[OTHER_ADDRESS] := sem.zero][s.env[ADDRESS] := v]
  {
    var l := SharedBlock().loop;
    assert l.inits[0] == INIT_VAL && l.inits[1] == INIT_VAL;
    var r2;
    r1, r2 := IdleOther(sem, SharedBlock(), 0, tile, LIMIT, s);
    IdleNames(sem, s, r1);
    SharedTail(sem, r1);
    assert l.results[0] == SUM;
    SharedTail(sem, Define(r1, SUM, sem.zero));
  }

  lemma {:induction false} IdleNames<V>(sem: Sem<V>, s: State<V>, r1: State<V>)
    requires BlockOuter(s) && sem.trips(s.env[LOWER], s.env[UPPER], s.env[STEP]) == 0
    requires RunLoop(sem, SharedBlock().loop, s) == Some(r1)
    ensures {ADDRESS, OTHER_ADDRESS, SUM, SECOND_SUM} <= r1.env.Keys && r1.mem == s.mem
    ensures r1.env[ADDRESS] == s.env[ADDRESS] && r1.env[OTHER_ADDRESS] == s.env[OTHER_ADDRESS]
    ensures r1.env[SUM] == s.env[INIT_VAL] && r1.env[SECOND_SUM] == s.env[INIT_VAL]
  {
    var l := SharedBlock().loop;
    IdleValues(l, s.env, 0);
    IdleValues(l, s.env, 1);
    BindOther(s.env, l.results, Values(s.env, l.inits), ADDRESS);
    BindOther(s.env, l.results, Values(s.env, l.inits), OTHER_ADDRESS);
  }

  /** The rest of the function: two writes. */
  lemma {:induction false} SharedTail<V>(sem: Sem<V>, r: State<V>)
    requires {ADDRESS, OTHER_ADDRESS, SUM, SECOND_SUM} <= r.env.Keys
    ensures var f := Run(sem, Tail(SharedBlock().mid, Writeback(SharedBlock()), []), r);
            f.Some? && f.value.mem == r.mem[r.env[OTHER_ADDRESS] := r.env[SUM]][r.env[ADDRESS] := r.env[SECOND_SUM]]
  {
    RunTail(sem, SharedBlock().mid, Writeback(SharedBlock()), [], r);
    RunOne(sem, SharedBlock().mid[0], r);
    assert SharedBlock().mid == [SharedBlock().mid[0]];
  }

  lemma TwoWrites<V>(mem: map<V, V>, a: V, b: V, v: V, zero: V)
    ensures mem[a := v][b := v] == mem[a := zero][b := v] <==> v == zero || a == b
  {
    if a != b { assert mem[a := v][b := v][a] == v && mem[a := zero][b := v][a] == zero; }
  }

  /** It goes wrong on the value 77. */
  lemma {:induction false} SharedBlockConcrete(tile: nat) returns (st: State<int>)
    ensures var r1, r2 := Run(Numbers(0), Source(SharedBlock()), st), Run(Numbers(0), Target(SharedBlock(), 0, tile, LIMIT), st);
            r1.Some? && r2.Some? && r1.value.mem != r2.value.mem
  {
    st := State(map[LOWER := 0, UPPER := 0, STEP := 1, ADDRESS := 500, LHS := 0, RHS := 0, BLOCK := 400, OTHER_ADDRESS := 600],
                map[], map[400 := 77]);
    SharedBlockFails(Numbers(0), tile, st);
  }
}
