/** The rewrite of one accumulator chain seen over the whole function: initialise the tile before
    the loop, run the rewritten loop, redirect the other results, and store the tile where the
    accumulator vector was written. */
module MatrixProgram {
  import opened Options
  import opened TensorIR
  import opened TileRewrite

  // ----- the accumulator's position among the carried values -----

  /** Position of the first init operand equal to `v`, and 0 when there is none. */
  predicate IsFirst(inits: seq<Id>, v: Id, i: nat) {
    if v in inits then i < |inits| && inits[i] == v && forall j :: 0 <= j < i ==> inits[j] != v
    else i == 0
  }

  method FindAccIdx(inits: seq<Id>, initVal: Id) returns (accIdx: nat)
    ensures IsFirst(inits, initVal, accIdx)
  {
    accIdx := 0;
    for i := 0 to |inits|
      invariant accIdx == 0 && forall j :: 0 <= j < i ==> inits[j] != initVal
    {
      if inits[i] == initVal {
        accIdx := i;
        break;
      }
    }
  }

  /** The search finds the chain's own position exactly when no earlier init is the same value. */
  lemma AccIdxExact(inits: seq<Id>, acc: nat, found: nat)
    requires acc < |inits| && IsFirst(inits, inits[acc], found)
    ensures found == acc <==> forall j :: 0 <= j < acc ==> inits[j] != inits[acc]
  {
  }

  // ----- redirecting uses -----

  function RenameStmt(m: map<Id, Id>, s: Stmt): Stmt {
    Renamed(m, s, if Defines(s) then s.def else 0)
  }

  function RenameBody(m: map<Id, Id>, body: seq<Stmt>): seq<Stmt> {
    seq(|body|, k requires 0 <= k < |body| => RenameStmt(m, body[k]))
  }

  function RenameTop(m: map<Id, Id>, top: Top): Top {
    match top
    case Simple(s) => Simple(RenameStmt(m, s))
    case For(l) => For(RenameLoop(m, l))
  }

  function RenameLoop(m: map<Id, Id>, l: Loop): Loop {
    Loop(l.results, l.iv, l.args, Subst(m, l.lb), Subst(m, l.ub), Subst(m, l.step), SubstAll(m, l.inits),
         RenameBody(m, l.body), SubstAll(m, l.yielded))
  }

  function RenameProg(m: map<Id, Id>, prog: seq<Top>): seq<Top> {
    seq(|prog|, k requires 0 <= k < |prog| => RenameTop(m, prog[k]))
  }

  predicate FreeIds(ids: seq<Id>, avoided: set<Id>) {
    forall k :: 0 <= k < |ids| ==> ids[k] !in avoided
  }

  /** Names that a later operation may define: old names that are not redirected. */
  predicate OwnIds(ids: seq<Id>, m: map<Id, Id>, n: nat) {
    forall k :: 0 <= k < |ids| ==> ids[k] < n && ids[k] !in m
  }

  predicate CleanStmt(s: Stmt, m: map<Id, Id>, hidden: set<Id>, tile: nat, n: nat) {
    Uses(s) !! hidden && !TouchesTile(s, tile) && (Defines(s) ==> s.def < n && s.def !in m)
  }

  predicate CleanBody(body: seq<Stmt>, m: map<Id, Id>, hidden: set<Id>, tile: nat, n: nat) {
    forall k :: 0 <= k < |body| ==> CleanStmt(body[k], m, hidden, tile, n)
  }

  predicate CleanLoop(l: Loop, m: map<Id, Id>, hidden: set<Id>, tile: nat, n: nat) {
    && {l.lb, l.ub, l.step} !! hidden && FreeIds(l.inits, hidden) && FreeIds(l.yielded, hidden)
    && OwnIds([l.iv], m, n) && OwnIds(l.args, m, n) && OwnIds(l.results, m, n)
    && CleanBody(l.body, m, hidden, tile, n)
  }

  predicate CleanTop(top: Top, m: map<Id, Id>, hidden: set<Id>, tile: nat, n: nat) {
    match top
    case Simple(s) => CleanStmt(s, m, hidden, tile, n)
    case For(l) => CleanLoop(l, m, hidden, tile, n)
  }

  /** The operations use no hidden value, leave the tile alone and keep to their own names. */
  predicate Clean(prog: seq<Top>, m: map<Id, Id>, hidden: set<Id>, tile: nat, n: nat) {
    forall k :: 0 <= k < |prog| ==> CleanTop(prog[k], m, hidden, tile, n)
  }

  /** Redirected names are old, and go to new names. */
  ghost predicate Above(m: map<Id, Id>, n: nat) {
    forall x :: x in m ==> x < n <= m[x]
  }

  ghost predicate Alike<V>(s1: State<V>, s2: State<V>, m: map<Id, Id>, hidden: set<Id>, tile: nat) {
    Sim(s1.env, s2.env, m, hidden) && TilesAgree(s1.tiles, s2.tiles, tile) && s1.mem == s2.mem
  }

  lemma SimKeep<V>(e1: map<Id, V>, e2: map<Id, V>, m: map<Id, Id>, hidden: set<Id>, n: nat, x: Id, v: V)
    requires Sim(e1, e2, m, hidden) && Above(m, n) && x < n && x !in m
    ensures Sim(e1[x := v], e2[x := v], m, hidden)
  {
  }

  lemma {:induction false} BindKeep<V>(e1: map<Id, V>, e2: map<Id, V>, m: map<Id, Id>, hidden: set<Id>, n: nat,
                                       ids: seq<Id>, vals: seq<V>)
    requires Sim(e1, e2, m, hidden) && Above(m, n) && OwnIds(ids, m, n) && |ids| == |vals|
    ensures Sim(Bind(e1, ids, vals), Bind(e2, ids, vals), m, hidden)
  {
    if ids != [] {
      BindKeep(e1, e2, m, hidden, n, ids[1..], vals[1..]);
      SimKeep(Bind(e1, ids[1..], vals[1..]), Bind(e2, ids[1..], vals[1..]), m, hidden, n, ids[0], vals[0]);
    }
  }

  lemma StepClean<V>(sem: Sem<V>, s: Stmt, st1: State<V>, st2: State<V>, m: map<Id, Id>, hidden: set<Id>, tile: nat, n: nat)
    requires Alike(st1, st2, m, hidden, tile) && Above(m, n) && CleanStmt(s, m, hidden, tile, n)
    requires Step(sem, s, st1).Some?
    ensures Step(sem, RenameStmt(m, s), st2).Some?
    ensures var r2 := Step(sem, RenameStmt(m, s), st2).value;
            Alike(Step(sem, s, st1).value, r2, m, hidden, tile) && SameTile(st2.tiles, r2.tiles, tile)
  {
    StepAlike(sem, s, st1, st2, m, hidden, tile, if Defines(s) then s.def else 0);
    if Defines(s) {
      SimKeep(st1.env, st2.env, m, hidden, n, s.def, Step(sem, s, st1).value.env[s.def]);
    }
  }

  lemma {:induction false} StepsClean<V>(sem: Sem<V>, body: seq<Stmt>, st1: State<V>, st2: State<V>, m: map<Id, Id>,
                                         hidden: set<Id>, tile: nat, n: nat)
    requires Alike(st1, st2, m, hidden, tile) && Above(m, n) && CleanBody(body, m, hidden, tile, n)
    requires Steps(sem, body, st1).Some?
    ensures Steps(sem, RenameBody(m, body), st2).Some?
    ensures var r2 := Steps(sem, RenameBody(m, body), st2).value;
            Alike(Steps(sem, body, st1).value, r2, m, hidden, tile) && SameTile(st2.tiles, r2.tiles, tile)
    decreases |body|
  {
    if body != [] {
      StepClean(sem, body[0], st1, st2, m, hidden, tile, n);
      assert RenameBody(m, body)[1..] == RenameBody(m, body[1..]);
      StepsClean(sem, body[1..], Step(sem, body[0], st1).value, Step(sem, RenameStmt(m, body[0]), st2).value,
                 m, hidden, tile, n);
    }
  }

  ghost predicate PassAlike<V>(p1: Pass<V>, p2: Pass<V>, tile: nat) {
    p1.carried == p2.carried && TilesAgree(p1.tiles, p2.tiles, tile) && p1.mem == p2.mem
  }

  lemma IterationClean<V>(sem: Sem<V>, l: Loop, l': Loop, e1: map<Id, V>, e2: map<Id, V>, k: nat, p1: Pass<V>, p2: Pass<V>,
                          m: map<Id, Id>, hidden: set<Id>, tile: nat, n: nat)
    requires Sim(e1, e2, m, hidden) && Above(m, n) && CleanLoop(l, m, hidden, tile, n) && l' == RenameLoop(m, l)
    requires PassAlike(p1, p2, tile) && Iteration(sem, l, e1, k, p1).Some?
    ensures var q2 := Iteration(sem, l', e2, k, p2);
            q2.Some? && PassAlike(Iteration(sem, l, e1, k, p1).value, q2.value, tile) && SameTile(p2.tiles, q2.value.tiles, tile)
  {
    var st1, st2 := BodyState(sem, l, e1, k, p1), BodyState(sem, l', e2, k, p2);
    BindKeep(e1, e2, m, hidden, n, l.args, p1.carried);
    assert OwnIds([l.iv], m, n) && [l.iv][0] == l.iv;
    SimKeep(Bind(e1, l.args, p1.carried), Bind(e2, l.args, p1.carried), m, hidden, n, l.iv, sem.iv(e1[l.lb], e1[l.step], k));
    StepsClean(sem, l.body, st1, st2, m, hidden, tile, n);
    SimValues(Steps(sem, l.body, st1).value.env, Steps(sem, l'.body, st2).value.env, m, hidden, l.yielded);
  }

  lemma IterateClean<V>(sem: Sem<V>, l: Loop, l': Loop, e1: map<Id, V>, e2: map<Id, V>, k: nat, p1: Pass<V>, p2: Pass<V>,
                        m: map<Id, Id>, hidden: set<Id>, tile: nat, n: nat)
    requires Sim(e1, e2, m, hidden) && Above(m, n) && CleanLoop(l, m, hidden, tile, n) && l' == RenameLoop(m, l)
    requires PassAlike(p1, p2, tile) && Iterate(sem, l, e1, k, p1).Some?
    ensures var q2 := Iterate(sem, l', e2, k, p2);
            q2.Some? && PassAlike(Iterate(sem, l, e1, k, p1).value, q2.value, tile) && SameTile(p2.tiles, q2.value.tiles, tile)
  {
    var rel := (q1: Pass<V>, q2: Pass<V>) => PassAlike(q1, q2, tile) && SameTile(p2.tiles, q2.tiles, tile);
    forall j, q1, q2 | rel(q1, q2) && Iteration(sem, l, e1, j, q1).Some?
      ensures Iteration(sem, l', e2, j, q2).Some? && rel(Iteration(sem, l, e1, j, q1).value, Iteration(sem, l', e2, j, q2).value)
    {
      IterationClean(sem, l, l', e1, e2, j, q1, q2, m, hidden, tile, n);
    }
    IterateRelated(sem, l, l', e1, e2, k, p1, p2, rel);
  }

  lemma TopClean<V>(sem: Sem<V>, top: Top, st1: State<V>, st2: State<V>, m: map<Id, Id>, hidden: set<Id>, tile: nat, n: nat)
    requires Alike(st1, st2, m, hidden, tile) && Above(m, n) && CleanTop(top, m, hidden, tile, n)
    requires RunTop(sem, top, st1).Some?
    ensures RunTop(sem, RenameTop(m, top), st2).Some?
    ensures var r2 := RunTop(sem, RenameTop(m, top), st2).value;
            Alike(RunTop(sem, top, st1).value, r2, m, hidden, tile) && SameTile(st2.tiles, r2.tiles, tile)
  {
    match top {
      case Simple(s) => StepClean(sem, s, st1, st2, m, hidden, tile, n);
      case For(l) =>
        SimValues(st1.env, st2.env, m, hidden, l.inits);
        var k := Trips(sem, l, st1.env);
        var l' := RenameLoop(m, l);
        IterateClean(sem, l, l', st1.env, st2.env, k, Entry(l, st1), Entry(l', st2), m, hidden, tile, n);
        BindKeep(st1.env, st2.env, m, hidden, n, l.results, Iterate(sem, l, st1.env, k, Entry(l, st1)).value.carried);
    }
  }

  /** The rest of the function runs alike with its uses redirected, and keeps the tile. */
  lemma {:induction false} RunClean<V>(sem: Sem<V>, prog: seq<Top>, st1: State<V>, st2: State<V>, m: map<Id, Id>,
                                       hidden: set<Id>, tile: nat, n: nat)
    requires Alike(st1, st2, m, hidden, tile) && Above(m, n) && Clean(prog, m, hidden, tile, n)
    requires Run(sem, prog, st1).Some?
    ensures Run(sem, RenameProg(m, prog), st2).Some?
    ensures var r2 := Run(sem, RenameProg(m, prog), st2).value;
            Alike(Run(sem, prog, st1).value, r2, m, hidden, tile) && SameTile(st2.tiles, r2.tiles, tile)
    decreases |prog|
  {
    if prog != [] {
      TopClean(sem, prog[0], st1, st2, m, hidden, tile, n);
      var next1, next2 := RunTop(sem, prog[0], st1).value, RunTop(sem, RenameTop(m, prog[0]), st2).value;
      RunClean(sem, prog[1..], next1, next2, m, hidden, tile, n);
      RunRenamed(sem, prog, m, st2, next2);
    }
  }

  lemma RunRenamed<V>(sem: Sem<V>, prog: seq<Top>, m: map<Id, Id>, st: State<V>, next: State<V>)
    requires prog != [] && RunTop(sem, RenameTop(m, prog[0]), st) == Some(next)
    ensures Run(sem, RenameProg(m, prog), st) == Run(sem, RenameProg(m, prog[1..]), next)
  {
    assert RenameProg(m, prog)[1..] == RenameProg(m, prog[1..]);
  }

  // ----- the rewritten function -----

  /** How the pass fills the tile: `vtzero`, or a load of the block that the read looked at. */
  datatype Init = Zero | Block(addr: Id)

  function InitOp(init: Init, tile: nat): Stmt {
    match init
    case Zero => TileZero(tile)
    case Block(addr) => TileLoad(tile, addr)
  }

  /** At the loop, the tile initialisation yields the accumulator's initial value. */
  ghost predicate InitHolds<V>(sem: Sem<V>, init: Init, v: Id, st: State<V>) {
    v in st.env &&
    match init
    case Zero => st.env[v] == sem.zero
    case Block(addr) => addr in st.env && st.env[addr] in st.mem && st.mem[st.env[addr]] == st.env[v]
  }

  /** Everything the pass knows about one chain whose vector is the result of a loop: operations
      before, between and after; `acc` is the result number that is written to `addr`. */
  datatype Chain = Chain(pre: seq<Top>, loop: Loop, mid: seq<Top>, addr: Id, post: seq<Top>,
                         acc: nat, updates: set<Id>, init: Init)

  ghost predicate WellFormed(c: Chain) {
    SameArity(c.loop) && c.acc < |c.loop.results|
  }

  function Writeback(c: Chain): Stmt
    requires c.acc < |c.loop.results|
  {
    Write(c.addr, c.loop.results[c.acc])
  }

  function Source(c: Chain): seq<Top>
    requires c.acc < |c.loop.results|
  {
    c.pre + ([For(c.loop)] + Tail(c.mid, Writeback(c), c.post))
  }

  /** The rewritten function when position `dropped` is removed; the removed result is replaced
      by a zero vector. */
  function Target(c: Chain, dropped: nat, tile: nat, n: nat): seq<Top>
    requires SameArity(c.loop) && dropped < |c.loop.results|
  {
    c.pre + (LoopPart(c, dropped, tile, n) + TargetTail(c, tile, n))
  }

  /** What follows the loop: redirected uses, and the tile stored instead of the vector. */
  function TargetTail(c: Chain, tile: nat, n: nat): seq<Top> {
    var m := ResultMap(c.loop.results, n);
    Tail(RenameProg(m, c.mid), TileStore(tile, Subst(m, c.addr)), RenameProg(m, c.post))
  }

  /** The part of the function that runs the loop. */
  function LoopPart(c: Chain, dropped: nat, tile: nat, n: nat): seq<Top>
    requires SameArity(c.loop) && dropped < |c.loop.results|
  {
    [Simple(InitOp(c.init, tile)), For(RewriteLoop(c.loop, dropped, c.updates, tile, n)),
     Simple(Const(c.loop.results[dropped] + n, true, 0))]
  }

  ghost function AfterLoop<V>(sem: Sem<V>, c: Chain, dropped: nat, tile: nat, n: nat, st: State<V>): Option<State<V>>
    requires SameArity(c.loop) && dropped < |c.loop.results|
  {
    match Step(sem, InitOp(c.init, tile), st)
    case None => None
    case Some(st') =>
      match RunLoop(sem, RewriteLoop(c.loop, dropped, c.updates, tile, n), st')
      case None => None
      case Some(r) => Some(Define(r, c.loop.results[dropped] + n, sem.zero))
  }

  lemma RunOne<V>(sem: Sem<V>, top: Top, st: State<V>)
    ensures Run(sem, [top], st) == RunTop(sem, top, st)
  {
  }

  lemma RunThree<V>(sem: Sem<V>, c: Chain, dropped: nat, tile: nat, n: nat, st: State<V>)
    requires SameArity(c.loop) && dropped < |c.loop.results|
    ensures Run(sem, LoopPart(c, dropped, tile, n), st) == AfterLoop(sem, c, dropped, tile, n, st)
  {
    var prog := LoopPart(c, dropped, tile, n);
    RunAppend(sem, [prog[0]], [prog[1], prog[2]], st);
    assert [prog[0]] + [prog[1], prog[2]] == prog && [prog[1]] + [prog[2]] == [prog[1], prog[2]];
    RunOne(sem, prog[0], st);
    match RunTop(sem, prog[0], st) {
      case None =>
      case Some(st') =>
        RunAppend(sem, [prog[1]], [prog[2]], st');
        RunOne(sem, prog[1], st');
        match RunTop(sem, prog[1], st') {
          case None =>
          case Some(r) => RunOne(sem, prog[2], r);
        }
    }
  }

  /** The state at the loop is one the rewrite can start from. */
  ghost predicate AtLoop<V>(c: Chain, tile: nat, n: nat, st: State<V>) {
    && Rewritable(c.loop, c.acc, c.updates, tile, n, st.env.Keys)
    && NamesOk(c.loop.results, n) && InitRuns(c.init, st)
  }

  /** The block to load is there. */
  ghost predicate InitRuns<V>(init: Init, st: State<V>) {
    init.Block? ==> init.addr in st.env && st.env[init.addr] in st.mem
  }

  /** The tile starts from the accumulator's initial value and no update is transposed. */
  ghost predicate Faithful<V>(sem: Sem<V>, c: Chain, st: State<V>)
    requires c.acc < |c.loop.inits|
  {
    InitHolds(sem, c.init, c.loop.inits[c.acc], st) && NoTransposed(c.loop.body, c.updates)
  }

  /** The accumulator result has no use but the writeback; later operations leave the tile alone. */
  ghost predicate OnlyUse(c: Chain, tile: nat, n: nat)
    requires c.acc < |c.loop.results|
  {
    var m, hidden := ResultMap(c.loop.results, n), {c.loop.results[c.acc]};
    && Clean(c.mid, m, hidden, tile, n) && Clean(c.post, m, hidden, tile, n)
    && c.addr != c.loop.results[c.acc] && NeverBinds(c.mid, c.loop.results[c.acc])
  }

  /** The zero vector that replaces the accumulator result is not in the way of other values. */
  lemma DummyKeeps<V>(results: seq<Id>, acc: nat, tile: nat, n: nat, r1: State<V>, r2: State<V>, zero: V, exact: bool)
    requires acc < |results| && LoopAgrees(results, acc, tile, n, r1, r2, exact)
    ensures LoopAgrees(results, acc, tile, n, r1, Define(r2, results[acc] + n, zero), exact)
  {
  }

  /** The tile initialisation changes the tile alone. */
  lemma InitStep<V>(sem: Sem<V>, init: Init, v: Id, tile: nat, st: State<V>)
    requires InitRuns(init, st)
    ensures var st' := Step(sem, InitOp(init, tile), st);
            && st'.Some? && st'.value.env == st.env && st'.value.mem == st.mem
            && TilesAgree(st.tiles, st'.value.tiles, tile) && tile in st'.value.tiles
            && (InitHolds(sem, init, v, st) ==> st'.value.tiles[tile] == st.env[v])
  {
  }

  /** With the chain's own position dropped, the loop part runs exactly when no iteration happens
      or every other yield comes from outside the body. */
  lemma LoopPartAgrees<V>(sem: Sem<V>, c: Chain, tile: nat, n: nat, st: State<V>, exact: bool)
    requires WellFormed(c) && AtLoop(c, tile, n, st) && RunLoop(sem, c.loop, st).Some? && (exact ==> Faithful(sem, c, st))
    ensures var r2 := AfterLoop(sem, c, c.acc, tile, n, st);
            && (r2.Some? <==> Trips(sem, c.loop, st.env) == 0 || OuterYields(c.loop, c.acc, st.env.Keys))
            && (r2.Some? ==> LoopAgrees(c.loop.results, c.acc, tile, n, RunLoop(sem, c.loop, st).value, r2.value, exact))
  {
    InitStep(sem, c.init, c.loop.inits[c.acc], tile, st);
    var st' := Step(sem, InitOp(c.init, tile), st).value;
    LoopRewriteCorrect(sem, c.loop, c.acc, c.updates, tile, n, st, st', exact);
    var r2 := RunLoop(sem, RewriteLoop(c.loop, c.acc, c.updates, tile, n), st');
    if r2.Some? {
      DummyKeeps(c.loop.results, c.acc, tile, n, RunLoop(sem, c.loop, st).value, r2.value, sem.zero, exact);
    }
  }

  /** The part after the loop: other operations, the writeback, the rest. */
  function Tail(mid: seq<Top>, store: Stmt, post: seq<Top>): seq<Top> {
    mid + ([Simple(store)] + post)
  }

  lemma RunTail<V>(sem: Sem<V>, mid: seq<Top>, store: Stmt, post: seq<Top>, st: State<V>)
    ensures Run(sem, Tail(mid, store, post), st) ==
              match Run(sem, mid, st)
              case None => None
              case Some(q) => match Step(sem, store, q) case None => None case Some(q') => Run(sem, post, q')
  {
    RunAppend(sem, mid, [Simple(store)] + post, st);
    match Run(sem, mid, st) {
      case None =>
      case Some(q) =>
        RunAppend(sem, [Simple(store)], post, q);
        RunOne(sem, Simple(store), q);
    }
  }

  /** Storing the tile instead of the vector it holds. */
  lemma StoreAlike<V>(sem: Sem<V>, addr: Id, vec: Id, m: map<Id, Id>, hidden: set<Id>, tile: nat, q1: State<V>, q2: State<V>)
    requires Alike(q1, q2, m, hidden, tile) && Follows(q1, q2, tile, vec, true) && addr !in hidden
    requires Step(sem, Write(addr, vec), q1).Some?
    ensures var r2 := Step(sem, TileStore(tile, Subst(m, addr)), q2);
            r2.Some? && Alike(Step(sem, Write(addr, vec), q1).value, r2.value, m, hidden, tile)
  {
  }

  /** Up to the writeback: related states, the accumulator and the tile untouched. */
  lemma {:induction false} MidAlike<V>(sem: Sem<V>, mid: seq<Top>, vec: Id, m: map<Id, Id>, hidden: set<Id>, tile: nat, n: nat,
                                       r1: State<V>, r2: State<V>, exact: bool)
      returns (q1: State<V>, q2: State<V>)
    requires Above(m, n) && Clean(mid, m, hidden, tile, n) && NeverBinds(mid, vec)
    requires Alike(r1, r2, m, hidden, tile) && Follows(r1, r2, tile, vec, exact) && Run(sem, mid, r1).Some?
    ensures Run(sem, mid, r1) == Some(q1) && Run(sem, RenameProg(m, mid), r2) == Some(q2)
    ensures Alike(q1, q2, m, hidden, tile) && Follows(q1, q2, tile, vec, exact)
    ensures q1.env[vec] == r1.env[vec] && q2.tiles[tile] == r2.tiles[tile]
  {
    RunClean(sem, mid, r1, r2, m, hidden, tile, n);
    ResultKept(sem, mid, r1, vec);
    q1, q2 := Run(sem, mid, r1).value, Run(sem, RenameProg(m, mid), r2).value;
  }

  lemma {:induction false} TailAlike<V>(sem: Sem<V>, mid: seq<Top>, addr: Id, vec: Id, post: seq<Top>, m: map<Id, Id>,
                                        hidden: set<Id>, tile: nat, n: nat, r1: State<V>, r2: State<V>)
    requires Above(m, n) && Clean(mid, m, hidden, tile, n) && Clean(post, m, hidden, tile, n) && addr !in hidden
    requires NeverBinds(mid, vec) && Alike(r1, r2, m, hidden, tile) && Follows(r1, r2, tile, vec, true)
    requires Run(sem, Tail(mid, Write(addr, vec), post), r1).Some?
    ensures var q2 := Run(sem, Tail(RenameProg(m, mid), TileStore(tile, Subst(m, addr)), RenameProg(m, post)), r2);
            q2.Some? && Alike(Run(sem, Tail(mid, Write(addr, vec), post), r1).value, q2.value, m, hidden, tile)
  {
    RunTail(sem, mid, Write(addr, vec), post, r1);
    RunTail(sem, RenameProg(m, mid), TileStore(tile, Subst(m, addr)), RenameProg(m, post), r2);
    var q1, q2 := MidAlike(sem, mid, vec, m, hidden, tile, n, r1, r2, true);
    StoreAlike(sem, addr, vec, m, hidden, tile, q1, q2);
    RunClean(sem, post, Step(sem, Write(addr, vec), q1).value, Step(sem, TileStore(tile, Subst(m, addr)), q2).value, m,
             hidden, tile, n);
  }

  /** Nothing between the loop and the writeback reuses the accumulator's name. */
  predicate NeverBinds(prog: seq<Top>, x: Id) {
    forall k :: 0 <= k < |prog| ==>
      match prog[k]
      case Simple(s) => Defines(s) ==> s.def != x
      case For(l) => x !in l.results
  }

  lemma {:induction false} ResultKept<V>(sem: Sem<V>, prog: seq<Top>, st: State<V>, x: Id)
    requires Run(sem, prog, st).Some? && NeverBinds(prog, x) && x in st.env
    ensures x in Run(sem, prog, st).value.env && Run(sem, prog, st).value.env[x] == st.env[x]
    decreases |prog|
  {
    if prog != [] {
      var next := RunTop(sem, prog[0], st).value;
      if prog[0].For? {
        var l := prog[0].loop;
        BindOther(st.env, l.results, Iterate(sem, l, st.env, Trips(sem, l, st.env), Entry(l, st)).value.carried, x);
      }
      assert x in next.env && next.env[x] == st.env[x];
      ResultKept(sem, prog[1..], next, x);
    }
  }

  lemma MapAbove(results: seq<Id>, n: nat)
    requires NamesOk(results, n)
    ensures Above(ResultMap(results, n), n)
  {
  }

  lemma RunSource<V>(sem: Sem<V>, c: Chain, st: State<V>)
    requires WellFormed(c)
    ensures Run(sem, Source(c), st) ==
              match Run(sem, c.pre, st)
              case None => None
              case Some(s) => match RunLoop(sem, c.loop, s)
                case None => None
                case Some(r) => Run(sem, Tail(c.mid, Writeback(c), c.post), r)
  {
    RunAppend(sem, c.pre, [For(c.loop)] + Tail(c.mid, Writeback(c), c.post), st);
    match Run(sem, c.pre, st) {
      case None =>
      case Some(s) =>
        RunAppend(sem, [For(c.loop)], Tail(c.mid, Writeback(c), c.post), s);
        RunOne(sem, For(c.loop), s);
    }
  }

  lemma RunTarget<V>(sem: Sem<V>, c: Chain, dropped: nat, tile: nat, n: nat, st: State<V>)
    requires SameArity(c.loop) && dropped < |c.loop.results|
    ensures Run(sem, Target(c, dropped, tile, n), st) ==
              match Run(sem, c.pre, st)
              case None => None
              case Some(s) => match AfterLoop(sem, c, dropped, tile, n, s)
                case None => None
                case Some(r) => Run(sem, TargetTail(c, tile, n), r)
  {
    RunAppend(sem, c.pre, LoopPart(c, dropped, tile, n) + TargetTail(c, tile, n), st);
    match Run(sem, c.pre, st) {
      case None =>
      case Some(s) =>
        RunAppend(sem, LoopPart(c, dropped, tile, n), TargetTail(c, tile, n), s);
        RunThree(sem, c, dropped, tile, n, s);
    }
  }

  /** The rewritten function.  When the dropped position is the chain's own, it runs exactly when
      the loop makes no iteration or yields every other value from outside its body, and it then
      leaves the same memory and the same other tiles. */
  lemma {:induction false} RewriteCorrect<V>(sem: Sem<V>, c: Chain, tile: nat, n: nat, st: State<V>, s: State<V>)
    requires WellFormed(c) && OnlyUse(c, tile, n) && Run(sem, Source(c), st).Some?
    requires Run(sem, c.pre, st) == Some(s) && AtLoop(c, tile, n, s) && Faithful(sem, c, s) && CanEnter(c.loop, s.env)
    ensures Run(sem, Target(c, c.acc, tile, n), st).Some? <==>
            Trips(sem, c.loop, s.env) == 0 || OuterYields(c.loop, c.acc, s.env.Keys)
    ensures var r1, r2 := Run(sem, Source(c), st).value, Run(sem, Target(c, c.acc, tile, n), st);
            r2.Some? ==> r1.mem == r2.value.mem && TilesAgree(r1.tiles, r2.value.tiles, tile)
  {
    RunSource(sem, c, st);
    RunTarget(sem, c, c.acc, tile, n, st);
    LoopPartAgrees(sem, c, tile, n, s, true);
    if AfterLoop(sem, c, c.acc, tile, n, s).Some? {
      MapAbove(c.loop.results, n);
      var vec := c.loop.results[c.acc];
      TailAlike(sem, c.mid, c.addr, vec, c.post, ResultMap(c.loop.results, n), {vec}, tile, n,
                RunLoop(sem, c.loop, s).value, AfterLoop(sem, c, c.acc, tile, n, s).value);
    }
  }
}
