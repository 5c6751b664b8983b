/** The plain matrix product through both lowerings: the row operations leave C = A * B in the cells
    of the addressed block. */
module MatmulCells {
  import opened Options
  import opened TensorIR
  import opened MatrixProgram
  import opened MatmulExample
  import opened CellRefinement
  import MP = MatrixPass
  import PC = PassComposition
  import OC = PassOnCells
  import TM = TileMemory

  type Entries = (nat, nat) -> int

  ghost function Column(a: Entries, m: nat, k: nat): Value<int> {
    Vector(seq(m, i requires 0 <= i < m => a(i, k)))
  }

  ghost function Row(b: Entries, n: nat, k: nat): Value<int> {
    Vector(seq(n, j requires 0 <= j < n => b(k, j)))
  }

  /** Integers with blocks at the given places. */
  ghost predicate Integers(c: Config<int>) {
    c.zero == 0 && forall x, y, z :: c.fma(x, y, z) == x + y * z
  }

  /** Operation 1 gives a column of A and operation 2 a row of B, selected by the induction
      variable; the loop makes `k` iterations. */
  ghost function MatrixSem(c: Config<int>, a: Entries, b: Entries, k: nat): Sem<Value<int>> {
    Sem(Filled(c.rows, c.cols, (i: nat, j: nat) => c.zero), (s: Value<int>, x: Value<int>, y: Value<int>) => OuterMac(c, s, x, y),
        (s: Value<int>, x: Value<int>, y: Value<int>) => s,
        (code: nat, args: seq<Value<int>>, mem: map<Value<int>, Value<int>>) =>
          if |args| == 1 && args[0].Index? then (if code == 1 then Column(a, c.rows, args[0].k) else Row(b, c.cols, args[0].k)) else Index(0),
        (lb: Value<int>, ub: Value<int>, step: Value<int>) => k, (lb: Value<int>, step: Value<int>, i: nat) => Index(i))
  }

  /** The value is the product of the first `k` columns and rows. */
  ghost predicate Holds(c: Config<int>, v: Value<int>, a: Entries, b: Entries, k: nat) {
    IsBlock(v, c.rows, c.cols) && forall i, j :: 0 <= i < c.rows && 0 <= j < c.cols ==> v.b[i][j] == TM.Dot(a, b, i, j, k)
  }

  lemma {:induction false} SumHolds(c: Config<int>, v: Value<int>, a: Entries, b: Entries, k: nat)
    requires Integers(c) && Holds(c, v, a, b, k)
    ensures Holds(c, OuterMac(c, v, Column(a, c.rows, k), Row(b, c.cols, k)), a, b, k + 1)
  {
    var r := OuterMac(c, v, Column(a, c.rows, k), Row(b, c.cols, k));
    forall i, j | 0 <= i < c.rows && 0 <= j < c.cols ensures r.b[i][j] == TM.Dot(a, b, i, j, k + 1) {
      assert v.b[i][j] == TM.Dot(a, b, i, j, k) && ElementAt(v, i, j, c.zero) == v.b[i][j];
      assert Element(Column(a, c.rows, k), i, c.zero) == a(i, k) && Element(Row(b, c.cols, k), j, c.zero) == b(k, j);
    }
  }

  /** One iteration adds the next outer product. */
  lemma {:induction false} BodyAdds(c: Config<int>, sem: Sem<Value<int>>, a: Entries, b: Entries, t: nat, st: State<Value<int>>, k: nat)
    requires sem == MatrixSem(c, a, b, t) && 5 in st.env && st.env[5] == Index(k) && 6 in st.env
    ensures var r := Steps(sem, MatmulLoop().body, st);
            r.Some? && 9 in r.value.env && r.value.env[9] == OuterMac(c, st.env[6], Column(a, c.rows, k), Row(b, c.cols, k))
  {
    var x, y := Column(a, c.rows, k), Row(b, c.cols, k);
    OperandRead(sem, 7, 1, st, k, x);
    var s1 := Define(st, 7, x);
    OperandRead(sem, 8, 2, s1, k, y);
    var s2 := Define(s1, 8, y);
    var s3 := Define(s2, 9, sem.mac(st.env[6], x, y));
    assert Step(sem, Update(), s2) == Some(s3);
    ThreeSteps(sem, Lhs(), Rhs(), Update(), st, s1, s2, s3);
  }

  lemma {:induction false} OperandRead(sem: Sem<Value<int>>, def: Id, code: nat, st: State<Value<int>>, k: nat, v: Value<int>)
    requires 5 in st.env && st.env[5] == Index(k) && sem.op(code, [Index(k)], st.mem) == v
    ensures Step(sem, Other(def, code, [5]), st) == Some(Define(st, def, v))
  {
    assert Values(st.env, [5]) == [Index(k)];
  }

  lemma {:induction false} ThreeSteps<V>(sem: Sem<V>, x: Stmt, y: Stmt, z: Stmt, st: State<V>, s1: State<V>, s2: State<V>, s3: State<V>)
    requires Step(sem, x, st) == Some(s1) && Step(sem, y, s1) == Some(s2) && Step(sem, z, s2) == Some(s3)
    ensures Steps(sem, [x, y, z], st) == Some(s3)
  {
    assert [x, y, z][1..] == [y, z] && [y, z][1..] == [z] && [z][1..] == [];
    assert Steps(sem, [z], s2) == Steps(sem, [], s3);
    assert Steps(sem, [y, z], s1) == Steps(sem, [z], s2);
  }

  ghost predicate Carries(c: Config<int>, a: Entries, b: Entries, k: nat, q: Option<Pass<Value<int>>>) {
    q.Some? && |q.value.carried| == 1 && Holds(c, q.value.carried[0], a, b, k)
  }

  lemma {:induction false} OneMore(c: Config<int>, sem: Sem<Value<int>>, a: Entries, b: Entries, t: nat, env: map<Id, Value<int>>, k: nat,
                                   q: Pass<Value<int>>)
    requires Integers(c) && sem == MatrixSem(c, a, b, t) && 0 in env && 2 in env && |q.carried| == 1 && Holds(c, q.carried[0], a, b, k)
    ensures Carries(c, a, b, k + 1, Iteration(sem, MatmulLoop(), env, k, q))
  {
    var l := MatmulLoop();
    var st := BodyState(sem, l, env, k, q);
    BindAt(env, l.args, q.carried, 0);
    assert st.env[6] == q.carried[0];
    BodyAdds(c, sem, a, b, t, st, k);
    SumHolds(c, q.carried[0], a, b, k);
    var r := Steps(sem, l.body, st).value;
    assert Values(r.env, l.yielded) == [r.env[9]];
  }

  lemma {:induction false} LoopAdds(c: Config<int>, sem: Sem<Value<int>>, a: Entries, b: Entries, t: nat, env: map<Id,
                                    Value<int>>, k: nat,
                                    p: Pass<Value<int>>)
    requires Integers(c) && sem == MatrixSem(c, a, b, t) && 0 in env && 2 in env
    requires |p.carried| == 1 && Holds(c, p.carried[0], a, b, 0)
    ensures Carries(c, a, b, k, Iterate(sem, MatmulLoop(), env, k, p))
  {
    var l := MatmulLoop();
    var inv := (j: nat, q: Pass<Value<int>>) => Carries(c, a, b, j, Some(q));
    forall j: nat, q | inv(j, q) ensures Iteration(sem, l, env, j, q).Some? && inv(j + 1, Iteration(sem, l, env, j, q).value) {
      OneMore(c, sem, a, b, t, env, j, q);
    }
    IterateInvariant(sem, l, env, k, p, inv);
    assert inv(k, Iterate(sem, l, env, k, p).value);
  }

  lemma {:induction false} LoopResult(c: Config<int>, sem: Sem<Value<int>>, a: Entries, b: Entries, k: nat, s: State<Value<int>>)
      returns (r: State<Value<int>>)
    requires Integers(c) && sem == MatrixSem(c, a, b, k)
    requires {0, 1, 2, ZERO, TARGET} <= s.env.Keys && Holds(c, s.env[ZERO], a, b, 0)
    ensures RunLoop(sem, MatmulLoop(), s) == Some(r)
    ensures TARGET in r.env && r.env[TARGET] == s.env[TARGET] && r.mem == s.mem
    ensures 10 in r.env && Holds(c, r.env[10], a, b, k)
  {
    var l := MatmulLoop();
    var p := Entry(l, s);
    LoopAdds(c, sem, a, b, k, s.env, k, p);
    var q := Iterate(sem, l, s.env, k, p).value;
    BindAt(s.env, l.results, q.carried, 0);
    BindOther(s.env, l.results, q.carried, TARGET);
    MatrixExact.QuietIterate(sem, l, s.env, k, p);
    r := RunLoop(sem, l, s).value;
  }

  /** The vector function stores the product of A and B, and nothing else. */
  lemma {:induction false} SourceStoresProduct(c: Config<int>, sem: Sem<Value<int>>, a: Entries, b: Entries, k: nat,
                                               st: State<Value<int>>)
      returns (v: Value<int>)
    requires Integers(c) && sem == MatrixSem(c, a, b, k) && Arguments(st)
    ensures var r := Run(sem, Prog(), st);
            r.Some? && r.value.mem == st.mem[st.env[TARGET] := v]
    ensures Holds(c, v, a, b, k)
  {
    var s := Define(st, ZERO, sem.zero);
    var r := LoopResult(c, sem, a, b, k, s);
    v := r.env[10];
    ProgRuns(sem, st, s, r);
  }

  lemma {:induction false} ProgRuns<V>(sem: Sem<V>, st: State<V>, s: State<V>, r: State<V>)
    requires Step(sem, Const(ZERO, true, 0), st) == Some(s) && RunLoop(sem, MatmulLoop(), s) == Some(r)
    ensures Run(sem, Prog(), st) == Step(sem, Write(TARGET, 10), r)
  {
    ThreeTops(sem, Simple(Const(ZERO, true, 0)), For(MatmulLoop()), Simple(Write(TARGET, 10)), st, s, r);
  }

  lemma {:induction false} ThreeTops<V>(sem: Sem<V>, x: Top, y: Top, z: Top, st: State<V>, s: State<V>, r: State<V>)
    requires RunTop(sem, x, st) == Some(s) && RunTop(sem, y, s) == Some(r)
    ensures Run(sem, [x, y, z], st) == RunTop(sem, z, r)
  {
    assert [x, y, z][1..] == [y, z] && [y, z][1..] == [z] && [z][1..] == [];
    RunOne(sem, z, r);
    assert Run(sem, [y, z], s) == Run(sem, [z], r);
  }

  function MatmulWorks(): seq<PC.Work> {
    [PC.Looped(MatmulFound())]
  }

  /** The function lowered to tile operations, and these to row operations: afterwards cell (i, j) of
      the addressed block is element (i, j) of A * B, whatever the strides. */
  lemma {:induction false} CellsHoldProduct(c: Config<int>, a: Entries, b: Entries, k: nat, tile: nat,
                                            st: Cells<int>) returns (r: Cells<int>)
    requires Integers(c) && Laid(c) && Sound(c, st) && tile < MACHINE_TILES
    requires st.env.Keys == {0, 1, 2, TARGET} && st.env[TARGET] in c.addrs
    ensures CellRun(c, MatrixSem(c, a, b, k), PC.LowerAll(Prog(), MatmulWorks(), [tile], LIMIT), st) == Some(r)
    ensures forall i: nat, j: nat :: i < c.rows && j < c.cols ==>
              r.machine.mem(TM.BlockAddr(c.place(st.env[TARGET]), i, j)) == TM.Dot(a, b, i, j, k)
  {
    var v;
    r, v := RunMatmul(c, MatrixSem(c, a, b, k), a, b, k, tile, st);
    forall i: nat, j: nat | i < c.rows && j < c.cols
      ensures r.machine.mem(TM.BlockAddr(c.place(st.env[TARGET]), i, j)) == TM.Dot(a, b, i, j, k)
    {
      CellOf(c, r.machine, st.env[TARGET], i, j);
    }
  }

  lemma CellOf(c: Config<int>, s: TM.Machine<int>, target: Value<int>, i: nat, j: nat)
    requires i < c.rows && j < c.cols
    ensures MemBlock(c, s, target).b[i][j] == s.mem(TM.BlockAddr(c.place(target), i, j))
  {
  }

  /** The block that the source stores is the one found in the cells. */
  lemma {:induction false} StoredBlock<E(!new)>(c: Config<E>, sem: Sem<Value<E>>, prog: seq<Top>, works: seq<PC.Work>,
                                         tiles: seq<nat>, n: nat,
                                                st: Cells<E>, target: Value<E>, v: Value<E>) returns (r: Cells<E>)
    requires Setting(c, sem) && Sound(c, st) && PC.AllRight(prog, works, tiles, n) && OC.Covered(prog, works)
    requires (forall i :: 0 <= i < |tiles| ==> tiles[i] < MACHINE_TILES) && MP.Arguments(prog, n, BlockState(c, st)) && target in c.addrs
    requires Run(sem, prog, BlockState(c, st)).Some? && Run(sem, prog, BlockState(c, st)).value.mem == BlockState(c, st).mem[target := v]
    ensures CellRun(c, sem, PC.LowerAll(prog, works, tiles, n), st) == Some(r) && MemBlock(c, r.machine, target) == v
  {
    r := OC.LoweredOnCells(c, sem, prog, works, tiles, n, st);
    assert target in BlockState(c, r).mem && BlockState(c, r).mem[target] == v;
  }

  lemma {:induction false} RunMatmul(c: Config<int>, sem: Sem<Value<int>>, a: Entries, b: Entries, k: nat, tile: nat, st: Cells<int>)
      returns (r: Cells<int>, v: Value<int>)
    requires Integers(c) && Laid(c) && Sound(c, st) && tile < MACHINE_TILES && sem == MatrixSem(c, a, b, k)
    requires st.env.Keys == {0, 1, 2, TARGET} && st.env[TARGET] in c.addrs
    ensures CellRun(c, sem, PC.LowerAll(Prog(), MatmulWorks(), [tile], LIMIT), st) == Some(r)
    ensures MemBlock(c, r.machine, st.env[TARGET]) == v && Holds(c, v, a, b, k)
  {
    v := SourceStoresProduct(c, sem, a, b, k, BlockState(c, st));
    MatmulRight(Const(ZERO, true, 0), TARGET, tile);
    MatmulCovered();
    MatmulArguments(BlockState(c, st));
    r := StoredBlock(c, sem, Prog(), MatmulWorks(), [tile], LIMIT, st, st.env[TARGET], v);
  }

  lemma {:induction false} MatmulCovered()
    ensures OC.Covered(Prog(), MatmulWorks())
  {
    var works := MatmulWorks();
    assert PC.WriteOf(works[0]) == 2 && OC.WrittenBy(works, 2);
    assert BodyOnCells(MatmulLoop().body);
    assert TopOnCells(Prog()[0]) && TopOnCells(Prog()[1]);
  }

  lemma {:induction false} MatmulArguments<V>(st: State<V>)
    requires Arguments(st)
    ensures MP.Arguments(Prog(), LIMIT, st)
  {
    forall x | x in st.env ensures MP.An.SiteOf(Prog(), x).Outside? && x < LIMIT {
      SiteIs(Const(ZERO, true, 0), TARGET, x);
    }
  }
}
