/** Exactly when the rewrite of CoralNPUVectorToMatrix.cpp is right: which carried position is
    dropped, what the tile starts from, and which result map the updates have. */
module MatrixExact {
  import opened Options
  import opened TensorIR
  import opened TileRewrite
  import opened MatrixProgram

  // ----- the dropped position -----

  lemma {:induction false} ChainLast(body: seq<Stmt>, acc: Id, updates: set<Id>, hidden: set<Id>, last: Id)
    requires ChainBody(body, acc, updates, hidden, last)
    ensures last == acc || last in updates
    decreases |body|
  {
    if body != [] {
      ChainLast(body[1..], NextAcc(body[0], acc, updates), updates, hidden, last);
    }
  }

  /** Dropping another position leaves the accumulator's yield without a value: no iteration of
      the new loop completes. */
  lemma {:induction false} WrongPosition<V>(sem: Sem<V>, c: Chain, dropped: nat, tile: nat, n: nat, st: State<V>)
    requires WellFormed(c) && AtLoop(c, tile, n, st) && RunLoop(sem, c.loop, st).Some?
    requires dropped < |c.loop.results| && dropped != c.acc && Trips(sem, c.loop, st.env) > 0
    ensures AfterLoop(sem, c, dropped, tile, n, st) == None
  {
    var l, l' := c.loop, RewriteLoop(c.loop, dropped, c.updates, tile, n);
    var k := Trips(sem, l, st.env);
    ChainLast(l.body, l.args[c.acc], c.updates, Hidden(l, c.acc, c.updates), l.yielded[c.acc]);
    FirstIteration(sem, l, st.env, k, Entry(l, st));
    YieldedBelow(sem, l, c.acc, c.updates, tile, n, st.env, 0, Entry(l, st), c.acc);
    InitStep(sem, c.init, l.inits[c.acc], tile, st);
    forall j, q ensures Iteration(sem, l', st.env, j, q) == None {
      DanglingYield(sem, l, dropped, c.updates, tile, n, st.env, j, q, c.acc);
    }
    var st' := Step(sem, InitOp(c.init, tile), st).value;
    if CanEnter(l', st'.env) { NeverIterates(sem, l', st.env, k, Entry(l', st')); }
  }

  /** The two loops without iterations, position `found` dropped. */
  lemma {:induction false} IdleLoops<V>(sem: Sem<V>, l: Loop, l': Loop, found: nat, tile: nat, n: nat, st: State<V>, st': State<V>)
      returns (r1: State<V>, r: State<V>)
    requires SameArity(l) && SameArity(l') && found < |l.results| && NamesOk(l.results, n) && Below(st.env.Keys, n)
    requires CanEnter(l, st.env) && Trips(sem, l, st.env) == 0 && l'.results == Drop(Shift(l.results, n), found)
    requires l'.inits == Drop(l.inits, found) && l'.lb == l.lb && l'.ub == l.ub && l'.step == l.step
    requires st'.env == st.env && st'.mem == st.mem && TilesAgree(st.tiles, st'.tiles, tile)
    requires tile in st'.tiles && st'.tiles[tile] == st.env[l.inits[found]]
    ensures RunLoop(sem, l, st) == Some(r1) && RunLoop(sem, l', st') == Some(r)
    ensures LoopAgrees(l.results, found, tile, n, r1, r, true)
    ensures r1.env == Bind(st.env, l.results, Values(st.env, l.inits)) && r.tiles == st'.tiles
  {
    DropValues(st.env, st'.env, l.inits, found);
    ResultsAgree(l.results, found, tile, n, st.env, Entry(l, st), Entry(l', st'), true);
    r1, r := RunLoop(sem, l, st).value, RunLoop(sem, l', st').value;
  }

  lemma NewLoopShape(l: Loop, dropped: nat, updates: set<Id>, tile: nat, n: nat)
    requires SameArity(l) && dropped < |l.args|
    ensures SameArity(RewriteLoop(l, dropped, updates, tile, n))
  {
  }

  /** Without iterations, dropping another carried value with the same initial operand leaves a
      state in which that result is a zero vector and everything else is right. */
  lemma {:induction false} IdleOther<V>(sem: Sem<V>, c: Chain, found: nat, tile: nat, n: nat, st: State<V>)
      returns (r1: State<V>, r2: State<V>)
    requires WellFormed(c) && AtLoop(c, tile, n, st) && InitHolds(sem, c.init, c.loop.inits[c.acc], st)
    requires CanEnter(c.loop, st.env) && Trips(sem, c.loop, st.env) == 0
    requires found < |c.loop.results| && c.loop.inits[found] == c.loop.inits[c.acc]
    ensures RunLoop(sem, c.loop, st) == Some(r1) && AfterLoop(sem, c, found, tile, n, st) == Some(r2)
    ensures c.loop.results[found] in r1.env && r1.env[c.loop.results[found]] == st.env[c.loop.inits[c.acc]]
    ensures Alike(Define(r1, c.loop.results[found], sem.zero), r2, ResultMap(c.loop.results, n), {}, tile)
    ensures Follows(r1, r2, tile, c.loop.results[c.acc], true)
  {
    assert Below(st.env.Keys, n);
    r1, r2 := IdleOtherFrom(sem, c, RewriteLoop(c.loop, found, c.updates, tile, n), found, tile, n, st);
  }

  lemma {:induction false} IdleOtherFrom<V>(sem: Sem<V>, c: Chain, l': Loop, found: nat, tile: nat, n: nat, st: State<V>)
      returns (r1: State<V>, r2: State<V>)
    requires WellFormed(c) && NamesOk(c.loop.results, n) && Below(st.env.Keys, n) && found < |c.loop.results|
    requires InitRuns(c.init, st) && InitHolds(sem, c.init, c.loop.inits[c.acc], st)
    requires CanEnter(c.loop, st.env) && Trips(sem, c.loop, st.env) == 0
    requires c.loop.inits[found] == c.loop.inits[c.acc] && l' == RewriteLoop(c.loop, found, c.updates, tile, n)
    ensures RunLoop(sem, c.loop, st) == Some(r1) && AfterLoop(sem, c, found, tile, n, st) == Some(r2)
    ensures c.loop.results[found] in r1.env && r1.env[c.loop.results[found]] == st.env[c.loop.inits[c.acc]]
    ensures Alike(Define(r1, c.loop.results[found], sem.zero), r2, ResultMap(c.loop.results, n), {}, tile)
    ensures Follows(r1, r2, tile, c.loop.results[c.acc], true)
  {
    InitStep(sem, c.init, c.loop.inits[c.acc], tile, st);
    var st' := Step(sem, InitOp(c.init, tile), st).value;
    NewLoopShape(c.loop, found, c.updates, tile, n);
    var r;
    r1, r := IdleStates(sem, c.loop, l', found, c.acc, tile, n, st, st', sem.zero);
    r2 := Define(r, c.loop.results[found] + n, sem.zero);
  }

  lemma {:induction false} IdleStates<V>(sem: Sem<V>, l: Loop, l': Loop, found: nat, acc: nat, tile: nat, n: nat, st: State<V>,
                                         st': State<V>, zero: V)
      returns (r1: State<V>, r: State<V>)
    requires SameArity(l) && SameArity(l') && found < |l.results| && NamesOk(l.results, n) && Below(st.env.Keys, n)
    requires CanEnter(l, st.env) && Trips(sem, l, st.env) == 0 && l'.results == Drop(Shift(l.results, n), found)
    requires l'.inits == Drop(l.inits, found) && l'.lb == l.lb && l'.ub == l.ub && l'.step == l.step
    requires st'.env == st.env && st'.mem == st.mem && TilesAgree(st.tiles, st'.tiles, tile) && tile in st'.tiles
    requires acc < |l.results| && l.inits[found] == l.inits[acc] && st'.tiles[tile] == st.env[l.inits[acc]]
    ensures RunLoop(sem, l, st) == Some(r1) && RunLoop(sem, l', st') == Some(r)
    ensures l.results[found] in r1.env && r1.env[l.results[found]] == st.env[l.inits[acc]]
    ensures var r2 := Define(r, l.results[found] + n, zero);
            && Alike(Define(r1, l.results[found], zero), r2, ResultMap(l.results, n), {}, tile)
            && Follows(r1, r2, tile, l.results[acc], true)
  {
    r1, r := IdleLoops(sem, l, l', found, tile, n, st, st');
    IdleValues(l, st.env, found);
    IdleValues(l, st.env, acc);
    ZeroAlike(l.results, found, tile, n, r1, r, zero);
  }

  lemma IdleValues<V>(l: Loop, env: map<Id, V>, i: nat)
    requires SameArity(l) && i < |l.results| && Distinct(l.results) && Defined(env, l.inits)
    ensures var e := Bind(env, l.results, Values(env, l.inits));
            l.results[i] in e && e[l.results[i]] == env[l.inits[i]]
  {
    BindAt(env, l.results, Values(env, l.inits), i);
  }

  lemma {:induction false} ZeroAlike<V>(results: seq<Id>, found: nat, tile: nat, n: nat, r1: State<V>, r: State<V>, zero: V)
    requires found < |results| && LoopAgrees(results, found, tile, n, r1, r, true)
    ensures Alike(Define(r1, results[found], zero), Define(r, results[found] + n, zero), ResultMap(results, n), {}, tile)
  {
    ResultMapAt(results, n, results[found]);
  }

  /** The function from the loop on, with result `found` replaced by a zero vector. */
  ghost function WithZero<V>(sem: Sem<V>, c: Chain, found: nat, r: State<V>): Option<State<V>>
    requires WellFormed(c) && found < |c.loop.results|
  {
    Run(sem, Tail(c.mid, Writeback(c), c.post), Define(r, c.loop.results[found], sem.zero))
  }

  /** A loop without iterations and another position dropped: the rewritten function does what the
      source does with result `found` replaced by zero.  So the two agree exactly when the rest of
      the function does not tell that result from a zero vector. */
  lemma {:induction false} IdleExact<V>(sem: Sem<V>, c: Chain, found: nat, tile: nat, n: nat, st: State<V>, s: State<V>)
    requires WellFormed(c) && OnlyUse(c, tile, n) && Run(sem, Source(c), st).Some?
    requires Run(sem, c.pre, st) == Some(s) && AtLoop(c, tile, n, s) && Faithful(sem, c, s)
    requires CanEnter(c.loop, s.env) && RunLoop(sem, c.loop, s).Some? && Trips(sem, c.loop, s.env) == 0
    requires found < |c.loop.results| && found != c.acc && c.loop.inits[found] == c.loop.inits[c.acc]
    ensures var z, r2 := WithZero(sem, c, found, RunLoop(sem, c.loop, s).value), Run(sem, Target(c, found, tile, n), st);
            z.Some? ==> r2.Some? && r2.value.mem == z.value.mem && TilesAgree(z.value.tiles, r2.value.tiles, tile)
  {
    RunTarget(sem, c, found, tile, n, st);
    var r1, r2 := IdleOther(sem, c, found, tile, n, s);
    var vec := c.loop.results[c.acc];
    var z := Define(r1, c.loop.results[found], sem.zero);
    MapAbove(c.loop.results, n);
    if WithZero(sem, c, found, r1).Some? {
      assert Sim(z.env, r2.env, ResultMap(c.loop.results, n), {vec}) && z.env[vec] == r1.env[vec];
      TailAlike(sem, c.mid, c.addr, vec, c.post, ResultMap(c.loop.results, n), {vec}, tile, n, z, r2);
    }
  }

  /** No operation after the loop uses result `found`. */
  ghost predicate Unused(c: Chain, found: nat, tile: nat, n: nat)
    requires c.acc < |c.loop.results| && found < |c.loop.results|
  {
    var m, hidden := ResultMap(c.loop.results, n), {c.loop.results[c.acc], c.loop.results[found]};
    Clean(c.mid, m, hidden, tile, n) && Clean(c.post, m, hidden, tile, n) && c.addr !in hidden
  }

  /** In particular they agree when result `found` is not used, or its value is zero. */
  lemma {:induction false} IdleAgrees<V>(sem: Sem<V>, c: Chain, found: nat, tile: nat, n: nat, st: State<V>, s: State<V>)
    requires WellFormed(c) && OnlyUse(c, tile, n) && Run(sem, Source(c), st).Some?
    requires Run(sem, c.pre, st) == Some(s) && AtLoop(c, tile, n, s) && Faithful(sem, c, s)
    requires CanEnter(c.loop, s.env) && Trips(sem, c.loop, s.env) == 0
    requires found < |c.loop.results| && found != c.acc && c.loop.inits[found] == c.loop.inits[c.acc]
    requires Unused(c, found, tile, n) || s.env[c.loop.inits[c.acc]] == sem.zero
    ensures var r1, r2 := Run(sem, Source(c), st).value, Run(sem, Target(c, found, tile, n), st);
            r2.Some? && r1.mem == r2.value.mem && TilesAgree(r1.tiles, r2.value.tiles, tile)
  {
    RunSource(sem, c, st);
    RunTarget(sem, c, found, tile, n, st);
    var r1, r2 := IdleOther(sem, c, found, tile, n, s);
    var vec, other := c.loop.results[c.acc], c.loop.results[found];
    var m := ResultMap(c.loop.results, n);
    MapAbove(c.loop.results, n);
    var hidden := if Unused(c, found, tile, n) then {vec, other} else {vec};
    AlikeWithoutZero(r1, r2, m, hidden, tile, other, sem.zero);
    TailAlike(sem, c.mid, c.addr, vec, c.post, m, hidden, tile, n, r1, r2);
  }

  lemma {:induction false} AlikeWithoutZero<V>(r1: State<V>, r2: State<V>, m: map<Id, Id>, hidden: set<Id>, tile: nat, other: Id, zero: V)
    requires Alike(Define(r1, other, zero), r2, m, {}, tile) && other in r1.env && (other in hidden || r1.env[other] == zero)
    ensures Alike(r1, r2, m, hidden, tile)
  {
    var z := Define(r1, other, zero);
    forall x | x in r1.env && x !in hidden ensures Subst(m, x) in r2.env && r2.env[Subst(m, x)] == r1.env[x] {
      assert x in z.env && z.env[x] == r1.env[x];
    }
  }

  /** The pass as it is: it drops the first carried value whose init operand is the chain's
      initial value.  For every trip count: a loop that iterates runs exactly when no earlier
      carried value starts from the same operand and every other yield comes from outside the
      body; a loop without iterations runs when its own position was found, when the result of the
      position found is not used, or when the initial value is zero.  Whenever one of these holds
      the two functions leave the same memory and the same other tiles. */
  lemma {:induction false} RewriteExact<V>(sem: Sem<V>, c: Chain, found: nat, tile: nat, n: nat, st: State<V>, s: State<V>)
    requires WellFormed(c) && OnlyUse(c, tile, n) && Run(sem, Source(c), st).Some?
    requires Run(sem, c.pre, st) == Some(s) && AtLoop(c, tile, n, s) && Faithful(sem, c, s) && CanEnter(c.loop, s.env)
    requires IsFirst(c.loop.inits, c.loop.inits[c.acc], found) && found < |c.loop.results|
    ensures Trips(sem, c.loop, s.env) > 0 ==>
              (Run(sem, Target(c, found, tile, n), st).Some? <==>
               (forall j :: 0 <= j < c.acc ==> c.loop.inits[j] != c.loop.inits[c.acc]) && OuterYields(c.loop, c.acc, s.env.Keys))
    ensures var r1, r2 := Run(sem, Source(c), st).value, Run(sem, Target(c, found, tile, n), st);
            (if Trips(sem, c.loop, s.env) > 0 then r2.Some?
             else found == c.acc || Unused(c, found, tile, n) || s.env[c.loop.inits[c.acc]] == sem.zero) ==>
              r2.Some? && r1.mem == r2.value.mem && TilesAgree(r1.tiles, r2.value.tiles, tile)
  {
    AccIdxExact(c.loop.inits, c.acc, found);
    if found == c.acc {
      RewriteCorrect(sem, c, tile, n, st, s);
    } else if Trips(sem, c.loop, s.env) > 0 {
      RunSource(sem, c, st);
      RunTarget(sem, c, found, tile, n, st);
      WrongPosition(sem, c, found, tile, n, s);
    } else if Unused(c, found, tile, n) || s.env[c.loop.inits[c.acc]] == sem.zero {
      IdleAgrees(sem, c, found, tile, n, st, s);
    }
  }

  // ----- the value that is stored -----

  /** The memory after a writeback with no store behind it. */
  lemma {:induction false} TailMemory<V>(sem: Sem<V>, mid: seq<Top>, store: Stmt, post: seq<Top>, st: State<V>, q: State<V>, a: V, v: V)
    requires Quiet(post) && Run(sem, mid, st) == Some(q) && Step(sem, store, q) == Some(q.(mem := q.mem[a := v]))
    ensures var r := Run(sem, Tail(mid, store, post), st);
            (post == [] ==> r.Some?) && (r.Some? ==> r.value.mem == q.mem[a := v])
  {
    RunTail(sem, mid, store, post, st);
    var w := q.(mem := q.mem[a := v]);
    if Run(sem, post, w).Some? { QuietRun(sem, post, w); }
  }

  /** When nothing is stored after the writeback, the difference between vector and tile shows. */
  lemma {:induction false} TailApart<V>(sem: Sem<V>, mid: seq<Top>, addr: Id, vec: Id, post: seq<Top>, m: map<Id, Id>,
                                        hidden: set<Id>, tile: nat, n: nat, r1: State<V>, r2: State<V>)
    requires Above(m, n) && Clean(mid, m, hidden, tile, n) && addr !in hidden && Quiet(post)
    requires NeverBinds(mid, vec) && Alike(r1, r2, m, hidden, tile) && Follows(r1, r2, tile, vec, false)
    requires Run(sem, Tail(mid, Write(addr, vec), post), r1).Some?
    ensures var q2 := Run(sem, Tail(RenameProg(m, mid), TileStore(tile, Subst(m, addr)), RenameProg(m, post)), r2);
            && (post == [] ==> q2.Some?)
            && (q2.Some? && q2.value.mem == Run(sem, Tail(mid, Write(addr, vec), post), r1).value.mem ==>
                r2.tiles[tile] == r1.env[vec])
  {
    RunTail(sem, mid, Write(addr, vec), post, r1);
    var q1, q2 := MidAlike(sem, mid, vec, m, hidden, tile, n, r1, r2, false);
    var a, v, w := q1.env[addr], r1.env[vec], r2.tiles[tile];
    TailMemory(sem, mid, Write(addr, vec), post, r1, q1, a, v);
    QuietRenamed(m, post);
    TailMemory(sem, RenameProg(m, mid), TileStore(tile, Subst(m, addr)), RenameProg(m, post), r2, q2, a, w);
    StoredDiffer(q1.mem, a, v, w);
  }

  lemma QuietRenamed(m: map<Id, Id>, prog: seq<Top>)
    requires Quiet(prog)
    ensures Quiet(RenameProg(m, prog))
  {
    forall k | 0 <= k < |prog| ensures QuietTop(RenameProg(m, prog)[k]) { QuietRenamedTop(m, prog[k]); }
  }

  lemma QuietRenamedTop(m: map<Id, Id>, top: Top)
    requires QuietTop(top)
    ensures QuietTop(RenameTop(m, top))
  {
    if top.For? {
      forall p | 0 <= p < |top.loop.body| ensures QuietStmt(RenameStmt(m, top.loop.body[p])) { assert QuietStmt(top.loop.body[p]); }
    }
  }

  /** When nothing is stored after the writeback, the rewritten function runs and leaves the same
      memory exactly when the tile holds the accumulated value after the loop. */
  lemma {:induction false} WritebackExact<V>(sem: Sem<V>, c: Chain, tile: nat, n: nat, st: State<V>, s: State<V>,
                                             r1: State<V>, r2: State<V>)
    requires WellFormed(c) && OnlyUse(c, tile, n) && Quiet(c.post) && Run(sem, Source(c), st).Some?
    requires Run(sem, c.pre, st) == Some(s) && AtLoop(c, tile, n, s)
    requires RunLoop(sem, c.loop, s) == Some(r1) && AfterLoop(sem, c, c.acc, tile, n, s) == Some(r2)
    ensures var f1, f2 := Run(sem, Source(c), st).value, Run(sem, Target(c, c.acc, tile, n), st);
            var vec := c.loop.results[c.acc];
            && tile in r2.tiles && vec in r1.env && (c.post == [] ==> f2.Some?)
            && (f2.Some? && f1.mem == f2.value.mem <==> r2.tiles[tile] == r1.env[vec])
  {
    var vec := c.loop.results[c.acc];
    RunSource(sem, c, st);
    RunTarget(sem, c, c.acc, tile, n, st);
    LoopPartAgrees(sem, c, tile, n, s, false);
    MapAbove(c.loop.results, n);
    TailApart(sem, c.mid, c.addr, vec, c.post, ResultMap(c.loop.results, n), {vec}, tile, n, r1, r2);
    if r2.tiles[tile] == r1.env[vec] {
      TailAlike(sem, c.mid, c.addr, vec, c.post, ResultMap(c.loop.results, n), {vec}, tile, n, r1, r2);
    }
  }

  lemma StoredDiffer<V>(mem: map<V, V>, a: V, v: V, w: V)
    ensures mem[a := v] == mem[a := w] <==> w == v
  {
    assert mem[a := v][a] == v && mem[a := w][a] == w;
  }

  // ----- transposed updates -----

  function PlainStmt(s: Stmt, updates: set<Id>): Stmt {
    if IsUpdate(s, updates) then s.(transposed := false) else s
  }

  function PlainBody(body: seq<Stmt>, updates: set<Id>): seq<Stmt> {
    seq(|body|, k requires 0 <= k < |body| => PlainStmt(body[k], updates))
  }

  /** The chain with the result map of every update taken to be (M, N). */
  function Plain(c: Chain): Chain {
    c.(loop := c.loop.(body := PlainBody(c.loop.body, c.updates)))
  }

  lemma {:induction false} PlainRewrite(body: seq<Stmt>, m: map<Id, Id>, updates: set<Id>, tile: nat, n: nat)
    ensures RewriteBody(PlainBody(body, updates), m, updates, tile, n) == RewriteBody(body, m, updates, tile, n)
    decreases |body|
  {
    if body != [] {
      assert PlainBody(body, updates)[1..] == PlainBody(body[1..], updates);
      PlainRewrite(body[1..], NextMap(body[0], m, updates, n), updates, tile, n);
    }
  }

  /** The pass does not look at the result map: both chains are rewritten to the same function. */
  lemma {:induction false} SameTarget(c: Chain, dropped: nat, tile: nat, n: nat)
    requires WellFormed(c) && dropped < |c.loop.results|
    ensures WellFormed(Plain(c)) && Target(Plain(c), dropped, tile, n) == Target(c, dropped, tile, n)
    ensures RewriteLoop(Plain(c).loop, dropped, c.updates, tile, n) == RewriteLoop(c.loop, dropped, c.updates, tile, n)
    ensures NoTransposed(Plain(c).loop.body, c.updates)
  {
    PlainRewrite(c.loop.body, ArgMap(c.loop, dropped, n), c.updates, tile, n);
  }

  // ----- the initial value is still there at the loop -----

  predicate QuietStmt(s: Stmt) {
    !s.Write? && !s.TileStore?
  }

  predicate QuietBody(body: seq<Stmt>) {
    forall k :: 0 <= k < |body| ==> QuietStmt(body[k])
  }

  predicate QuietTop(top: Top) {
    match top
    case Simple(s) => QuietStmt(s)
    case For(l) => QuietBody(l.body)
  }

  /** No operation stores to memory. */
  predicate Quiet(prog: seq<Top>) {
    forall k :: 0 <= k < |prog| ==> QuietTop(prog[k])
  }

  lemma {:induction false} QuietSteps<V>(sem: Sem<V>, body: seq<Stmt>, st: State<V>)
    requires QuietBody(body) && Steps(sem, body, st).Some?
    ensures Steps(sem, body, st).value.mem == st.mem
    decreases |body|
  {
    if body != [] { QuietSteps(sem, body[1..], Step(sem, body[0], st).value); }
  }

  lemma {:induction false} QuietIterate<V>(sem: Sem<V>, l: Loop, env: map<Id, V>, k: nat, p: Pass<V>)
    requires QuietBody(l.body) && Iterate(sem, l, env, k, p).Some?
    ensures Iterate(sem, l, env, k, p).value.mem == p.mem
  {
    if k > 0 {
      QuietIterate(sem, l, env, k - 1, p);
      QuietSteps(sem, l.body, BodyState(sem, l, env, k - 1, Iterate(sem, l, env, k - 1, p).value));
    }
  }

  lemma {:induction false} QuietRun<V>(sem: Sem<V>, prog: seq<Top>, st: State<V>)
    requires Quiet(prog) && Run(sem, prog, st).Some?
    ensures Run(sem, prog, st).value.mem == st.mem
    decreases |prog|
  {
    if prog != [] {
      if prog[0].For? {
        var l := prog[0].loop;
        QuietIterate(sem, l, st.env, Trips(sem, l, st.env), Entry(l, st));
      }
      QuietRun(sem, prog[1..], RunTop(sem, prog[0], st).value);
    }
  }

  /** The operation that defines the chain's initial value, and how the tile is filled for it. */
  predicate Starts(s: Stmt, init: Init, v: Id) {
    match init
    case Zero => s.Const? && s.zero && s.def == v
    case Block(addr) => s == Read(v, addr) && addr != v
  }

  /** If nothing between the initial value and the loop stores to memory or reuses the names, the
      tile is filled with the initial value. */
  lemma InitStillHolds<V>(sem: Sem<V>, s: Stmt, between: seq<Top>, init: Init, v: Id, st: State<V>)
    requires Starts(s, init, v) && Run(sem, [Simple(s)] + between, st).Some?
    requires NeverBinds(between, v) && (init.Block? ==> Quiet(between) && NeverBinds(between, init.addr))
    ensures InitHolds(sem, init, v, Run(sem, [Simple(s)] + between, st).value)
  {
    RunAppend(sem, [Simple(s)], between, st);
    RunOne(sem, Simple(s), st);
    var st' := Step(sem, s, st).value;
    ResultKept(sem, between, st', v);
    if init.Block? {
      QuietRun(sem, between, st');
      ResultKept(sem, between, st', init.addr);
    }
  }

  /** The load is issued at the loop and not at the read.  When the loop makes no iteration and
      nothing is stored after the writeback, the two functions agree exactly when the block still
      holds the initial value. */
  lemma {:induction false} LateLoadExact<V>(sem: Sem<V>, c: Chain, tile: nat, n: nat, st: State<V>, s: State<V>)
    requires WellFormed(c) && OnlyUse(c, tile, n) && Quiet(c.post) && Run(sem, Source(c), st).Some?
    requires Run(sem, c.pre, st) == Some(s) && AtLoop(c, tile, n, s) && CanEnter(c.loop, s.env)
    requires c.init.Block? && Trips(sem, c.loop, s.env) == 0
    ensures var r1, r2 := Run(sem, Source(c), st).value, Run(sem, Target(c, c.acc, tile, n), st);
            r2.Some? && r1.mem == r2.value.mem <==> s.mem[s.env[c.init.addr]] == s.env[c.loop.inits[c.acc]]
  {
    var r1, r2 := LateLoop(sem, c, tile, n, s);
    WritebackExact(sem, c, tile, n, st, s, r1, r2);
  }

  /** Without iterations the result is the initial value, and the tile is the block. */
  lemma {:induction false} LateLoop<V>(sem: Sem<V>, c: Chain, tile: nat, n: nat, s: State<V>) returns (r1: State<V>, r2: State<V>)
    requires WellFormed(c) && AtLoop(c, tile, n, s) && CanEnter(c.loop, s.env) && c.init.Block? && Trips(sem, c.loop, s.env) == 0
    ensures RunLoop(sem, c.loop, s) == Some(r1) && AfterLoop(sem, c, c.acc, tile, n, s) == Some(r2)
    ensures c.loop.results[c.acc] in r1.env && r1.env[c.loop.results[c.acc]] == s.env[c.loop.inits[c.acc]]
    ensures tile in r2.tiles && r2.tiles[tile] == s.mem[s.env[c.init.addr]]
  {
    var l, l' := c.loop, RewriteLoop(c.loop, c.acc, c.updates, tile, n);
    var st' := Step(sem, InitOp(c.init, tile), s).value;
    var r;
    r1, r := IdleRuns(sem, l, l', c.acc, n, s, st');
    r2 := Define(r, l.results[c.acc] + n, sem.zero);
    IdleValues(l, s.env, c.acc);
  }

  lemma {:induction false} IdleRuns<V>(sem: Sem<V>, l: Loop, l': Loop, acc: nat, n: nat, st: State<V>, st': State<V>)
      returns (r1: State<V>, r: State<V>)
    requires SameArity(l) && acc < |l.results| && CanEnter(l, st.env) && Trips(sem, l, st.env) == 0 && st'.env == st.env
    requires l'.results == Drop(Shift(l.results, n), acc) && l'.inits == Drop(l.inits, acc)
    requires l'.lb == l.lb && l'.ub == l.ub && l'.step == l.step
    ensures RunLoop(sem, l, st) == Some(r1) && RunLoop(sem, l', st') == Some(r)
    ensures r1.env == Bind(st.env, l.results, Values(st.env, l.inits)) && r.tiles == st'.tiles
  {
    DropValues(st.env, st'.env, l.inits, acc);
    r1, r := RunLoop(sem, l, st).value, RunLoop(sem, l', st').value;
  }
}
