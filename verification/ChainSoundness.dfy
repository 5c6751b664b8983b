/** What a path found by the analysis means: the written vector is the fold of its updates over
    the initial value, those of a loop once per iteration. */
module ChainSoundness {
  import opened Options
  import opened TensorIR
  import opened TileRewrite
  import opened ChainAnalysis

  // ----- folding updates -----

  ghost function Update<V>(sem: Sem<V>, env: map<Id, V>, s: Stmt, a: V): V {
    if s.Contract? && s.lhs in env && s.rhs in env then
      if s.transposed then sem.macTransposed(a, env[s.lhs], env[s.rhs]) else sem.mac(a, env[s.lhs], env[s.rhs])
    else a
  }

  ghost function FoldUpdates<V>(sem: Sem<V>, env: map<Id, V>, us: seq<Stmt>, a: V): V {
    if us == [] then a else Update(sem, env, us[|us| - 1], FoldUpdates(sem, env, us[..|us| - 1], a))
  }

  /** The values at the end of iteration `n`. */
  ghost function IterationEnd<V>(sem: Sem<V>, l: Loop, env: map<Id, V>, n: nat, p: Pass<V>): map<Id, V> {
    match Iterate(sem, l, env, n, p)
    case None => env
    case Some(q) =>
      if l.lb !in env || l.step !in env || |l.args| != |q.carried| then env
      else match Steps(sem, l.body, BodyState(sem, l, env, n, q))
        case None => env
        case Some(st) => st.env
  }

  /** The updates of the body, once for each of `n` iterations, each with that iteration's
      operands. */
  ghost function FoldLoop<V>(sem: Sem<V>, l: Loop, env: map<Id, V>, p: Pass<V>, us: seq<Stmt>, a: V, n: nat): V {
    if n == 0 then a
    else FoldUpdates(sem, IterationEnd(sem, l, env, n - 1, p), us, FoldLoop(sem, l, env, p, us, a, n - 1))
  }

  ghost function StateAt<V>(sem: Sem<V>, prog: seq<Top>, st: State<V>, i: nat): Option<State<V>> {
    if i <= |prog| then Run(sem, prog[..i], st) else None
  }

  ghost function FoldPiece<V>(sem: Sem<V>, prog: seq<Top>, st: State<V>, piece: Piece, a: V): V {
    match StateAt(sem, prog, st, piece.top)
    case None => a
    case Some(s) =>
      if piece.top >= |prog| then a
      else match piece
        case One(k) => if prog[k].Simple? then Update(sem, s.env, prog[k].stmt, a) else a
        case Rep(k, us) =>
          if prog[k].For? && CanEnter(prog[k].loop, s.env) then
            FoldLoop(sem, prog[k].loop, s.env, Entry(prog[k].loop, s), us, a, Trips(sem, prog[k].loop, s.env))
          else a
  }

  ghost function FoldPath<V>(sem: Sem<V>, prog: seq<Top>, st: State<V>, pieces: seq<Piece>, a: V): V {
    if pieces == [] then a
    else FoldPiece(sem, prog, st, pieces[|pieces| - 1], FoldPath(sem, prog, st, pieces[..|pieces| - 1], a))
  }

  // ----- values stay what they are -----

  lemma StateStep<V>(sem: Sem<V>, prog: seq<Top>, st: State<V>, i: nat)
    requires i < |prog| && StateAt(sem, prog, st, i + 1).Some?
    ensures StateAt(sem, prog, st, i).Some?
    ensures RunTop(sem, prog[i], StateAt(sem, prog, st, i).value) == StateAt(sem, prog, st, i + 1)
  {
    assert prog[..i + 1] == prog[..i] + [prog[i]];
    RunAppend(sem, prog[..i], [prog[i]], st);
    var s := Run(sem, prog[..i], st).value;
    assert Run(sem, [prog[i]], s) == match RunTop(sem, prog[i], s) case None => None case Some(r) => Run(sem, [], r);
  }

  lemma TopKeeps<V>(sem: Sem<V>, prog: seq<Top>, i: nat, s: State<V>, v: Id)
    requires Ssa(prog) && i < |prog| && RunTop(sem, prog[i], s).Some? && Before(SiteOf(prog, v), i)
    ensures v in RunTop(sem, prog[i], s).value.env <==> v in s.env
    ensures v in s.env ==> RunTop(sem, prog[i], s).value.env[v] == s.env[v]
  {
    assert SsaTop(prog, i);
    if prog[i].For? {
      var l := prog[i].loop;
      assert v !in l.results;
      BindOther(s.env, l.results, Iterate(sem, l, s.env, Trips(sem, l, s.env), Entry(l, s)).value.carried, v);
    }
  }

  /** A value that exists before operation `k` is the same at any later point. */
  lemma {:induction false} ValueKept<V>(sem: Sem<V>, prog: seq<Top>, st: State<V>, v: Id, k: nat, i: nat)
    requires Ssa(prog) && k <= i && StateAt(sem, prog, st, i).Some? && Before(SiteOf(prog, v), k)
    ensures StateAt(sem, prog, st, k).Some?
    ensures var e1, e2 := StateAt(sem, prog, st, k).value.env, StateAt(sem, prog, st, i).value.env;
            (v in e1 <==> v in e2) && (v in e1 ==> e1[v] == e2[v])
    decreases i
  {
    if k < i {
      StateStep(sem, prog, st, i - 1);
      ValueKept(sem, prog, st, v, k, i - 1);
      TopKeeps(sem, prog, i - 1, StateAt(sem, prog, st, i - 1).value, v);
    }
  }

  // ----- inside a loop body -----

  lemma {:induction false} StepsAppend<V>(sem: Sem<V>, a: seq<Stmt>, b: seq<Stmt>, st: State<V>)
    ensures Steps(sem, a + b, st) == match Steps(sem, a, st) case None => None case Some(mid) => Steps(sem, b, mid)
  {
    if a == [] {
      assert a + b == b;
    } else {
      assert (a + b)[0] == a[0] && (a + b)[1..] == a[1..] + b;
      match Step(sem, a[0], st) {
        case None =>
        case Some(next) => StepsAppend(sem, a[1..], b, next);
      }
    }
  }

  /** The body split at position `q`. */
  lemma StepsSplit<V>(sem: Sem<V>, body: seq<Stmt>, q: nat, st: State<V>) returns (before: State<V>, after: State<V>)
    requires q < |body| && Steps(sem, body, st).Some?
    ensures Steps(sem, body[..q], st) == Some(before) && Step(sem, body[q], before) == Some(after)
    ensures Steps(sem, body[q + 1..], after) == Steps(sem, body, st)
  {
    assert body == body[..q] + body[q..];
    StepsAppend(sem, body[..q], body[q..], st);
    before := Steps(sem, body[..q], st).value;
    assert body[q..][0] == body[q] && body[q..][1..] == body[q + 1..];
    after := Step(sem, body[q], before).value;
  }

  /** A value visible at position `q` is not defined from there on. */
  lemma VisibleKept(prog: seq<Top>, k: nat, q: nat, v: Id)
    requires Ssa(prog) && k < |prog| && prog[k].For? && q <= |prog[k].loop.body| && Visible(SiteOf(prog, v), k, q)
    ensures NeverDefines(prog[k].loop.body[q..], v)
  {
    assert SsaTop(prog, k);
    var body := prog[k].loop.body;
    forall j | 0 <= j < |body[q..]| && Defines(body[q..][j]) ensures body[q..][j].def != v {
      assert SsaBodyStmt(prog, body[q + j], k, q + j);
    }
  }

  /** At the end of the body, the contraction at `q` has its operands' final values. */
  lemma ContractAtEnd<V>(sem: Sem<V>, prog: seq<Top>, k: nat, q: nat, st: State<V>)
    requires Ssa(prog) && k < |prog| && prog[k].For? && q < |prog[k].loop.body|
    requires prog[k].loop.body[q].Contract? && Steps(sem, prog[k].loop.body, st).Some?
    ensures var s, e := prog[k].loop.body[q], Steps(sem, prog[k].loop.body, st).value.env;
            s.def in e && s.acc in e && s.lhs in e && s.rhs in e && e[s.def] == Update(sem, e, s, e[s.acc])
  {
    var body, s := prog[k].loop.body, prog[k].loop.body[q];
    assert SsaTop(prog, k) && SsaBodyStmt(prog, s, k, q);
    var before, after := StepsSplit(sem, body, q, st);
    OperandKept(sem, prog, k, q, s.acc, after);
    OperandKept(sem, prog, k, q, s.lhs, after);
    OperandKept(sem, prog, k, q, s.rhs, after);
    VisibleKept(prog, k, q + 1, s.def);
    StepsKeep(sem, body[q + 1..], after, s.def);
  }

  /** An operand of the statement at `q` is not the statement's result and keeps its value. */
  lemma OperandKept<V>(sem: Sem<V>, prog: seq<Top>, k: nat, q: nat, v: Id, after: State<V>)
    requires Ssa(prog) && k < |prog| && prog[k].For? && q < |prog[k].loop.body|
    requires prog[k].loop.body[q].Contract? && v in Uses(prog[k].loop.body[q])
    requires Steps(sem, prog[k].loop.body[q + 1..], after).Some?
    ensures v != prog[k].loop.body[q].def
    ensures var e := Steps(sem, prog[k].loop.body[q + 1..], after).value.env;
            (v in e <==> v in after.env) && (v in after.env ==> e[v] == after.env[v])
  {
    assert SsaTop(prog, k) && SsaBodyStmt(prog, prog[k].loop.body[q], k, q);
    VisibleKept(prog, k, q + 1, v);
    StepsKeep(sem, prog[k].loop.body[q + 1..], after, v);
  }

  lemma FoldAppend<V>(sem: Sem<V>, env: map<Id, V>, us: seq<Stmt>, s: Stmt, a: V)
    ensures FoldUpdates(sem, env, us + [s], a) == Update(sem, env, s, FoldUpdates(sem, env, us, a))
  {
  }

  /** In one iteration: the value reached by the walk is the fold over the block argument. */
  lemma {:induction false} BodyFold<V>(sem: Sem<V>, prog: seq<Top>, k: nat, a: nat, v: Id, p: nat, st: State<V>)
    requires Ssa(prog) && k < |prog| && prog[k].For? && a < |prog[k].loop.args| && Visible(SiteOf(prog, v), k, p)
    requires WalkBody(prog, k, a, v, p).Some? && Steps(sem, prog[k].loop.body, st).Some? && prog[k].loop.args[a] in st.env
    ensures var e := Steps(sem, prog[k].loop.body, st).value.env;
            v in e && e[v] == FoldUpdates(sem, e, WalkBody(prog, k, a, v, p).value, st.env[prog[k].loop.args[a]])
    decreases p
  {
    var l := prog[k].loop;
    if SiteOf(prog, v).Arg? {
      VisibleKept(prog, k, 0, v);
      assert l.body[0..] == l.body;
      StepsKeep(sem, l.body, st, v);
    } else {
      var q := SiteOf(prog, v).pos;
      var s := l.body[q];
      assert SsaTop(prog, k) && SsaBodyStmt(prog, s, k, q) && s.acc in Uses(s);
      BodyFold(sem, prog, k, a, s.acc, q, st);
      ContractAtEnd(sem, prog, k, q, st);
      FoldAppend(sem, Steps(sem, l.body, st).value.env, WalkBody(prog, k, a, s.acc, q).value, s, st.env[l.args[a]]);
    }
  }

  lemma BodyArg<V>(sem: Sem<V>, prog: seq<Top>, k: nat, a: nat, env: map<Id, V>, n: nat, p: Pass<V>)
    requires Ssa(prog) && k < |prog| && prog[k].For? && a < |prog[k].loop.args| == |p.carried|
    requires prog[k].loop.lb in env && prog[k].loop.step in env
    ensures var l := prog[k].loop;
            var e := BodyState(sem, l, env, n, p).env;
            l.args[a] in e && e[l.args[a]] == p.carried[a]
  {
    assert SsaTop(prog, k);
    var l := prog[k].loop;
    forall i, j | 0 <= i < j < |l.args| ensures l.args[i] != l.args[j] {
      assert SiteOf(prog, l.args[i]) == Arg(k, i) && SiteOf(prog, l.args[j]) == Arg(k, j);
    }
    BindAt(env, l.args, p.carried, a);
    assert SiteOf(prog, l.args[a]) == Arg(k, a);
  }

  /** The yield of the loop at position `a` is tied to its block argument by `us`. */
  ghost predicate CarriesChain(prog: seq<Top>, k: nat, a: nat, us: seq<Stmt>) {
    Ssa(prog) && k < |prog| && prog[k].For? &&
    var l := prog[k].loop;
    && SameArity(l) && a < |l.args| && Visible(SiteOf(prog, l.yielded[a]), k, |l.body|)
    && WalkBody(prog, k, a, l.yielded[a], |l.body|) == Some(us)
  }

  /** Iteration `n`, which starts from `q`, folds the updates into carried value `a`. */
  ghost predicate StepFolds<V>(sem: Sem<V>, l: Loop, env: map<Id, V>, p: Pass<V>, us: seq<Stmt>, a: nat, n: nat, q: Pass<V>) {
    var r := Iteration(sem, l, env, n, q);
    && r.Some? && a < |q.carried| == |r.value.carried|
    && r.value.carried[a] == FoldUpdates(sem, IterationEnd(sem, l, env, n, p), us, q.carried[a])
  }

  lemma IterationFold<V>(sem: Sem<V>, prog: seq<Top>, l: Loop, k: nat, a: nat, us: seq<Stmt>, env: map<Id, V>, n: nat,
                         p: Pass<V>, q: Pass<V>)
    requires CarriesChain(prog, k, a, us) && l == prog[k].loop
    requires Iterate(sem, l, env, n, p) == Some(q) && Iteration(sem, l, env, n, q).Some?
    ensures StepFolds(sem, l, env, p, us, a, n, q)
  {
    BodyArg(sem, prog, k, a, env, n, q);
    BodyFold(sem, prog, k, a, l.yielded[a], |l.body|, BodyState(sem, l, env, n, q));
  }

  lemma IterateLast<V>(sem: Sem<V>, l: Loop, env: map<Id, V>, n: nat, p: Pass<V>) returns (q: Pass<V>)
    requires n > 0 && Iterate(sem, l, env, n, p).Some?
    ensures Iterate(sem, l, env, n - 1, p) == Some(q) && Iteration(sem, l, env, n - 1, q) == Iterate(sem, l, env, n, p)
  {
    q := Iterate(sem, l, env, n - 1, p).value;
  }

  lemma FoldLoopStep<V>(sem: Sem<V>, l: Loop, env: map<Id, V>, p: Pass<V>, us: seq<Stmt>, a: V, n: nat)
    requires n > 0
    ensures FoldLoop(sem, l, env, p, us, a, n) ==
            FoldUpdates(sem, IterationEnd(sem, l, env, n - 1, p), us, FoldLoop(sem, l, env, p, us, a, n - 1))
  {
  }

  lemma {:induction false} FoldOnce<V>(sem: Sem<V>, l: Loop, env: map<Id, V>, p: Pass<V>, us: seq<Stmt>, a: nat, n: nat, q: Pass<V>,
                                       r: Pass<V>)
    requires n > 0 && a < |p.carried| == |q.carried| && StepFolds(sem, l, env, p, us, a, n - 1, q)
    requires Iteration(sem, l, env, n - 1, q) == Some(r) && q.carried[a] == FoldLoop(sem, l, env, p, us, p.carried[a], n - 1)
    ensures |r.carried| == |p.carried| && r.carried[a] == FoldLoop(sem, l, env, p, us, p.carried[a], n)
  {
    FoldLoopStep(sem, l, env, p, us, p.carried[a], n);
  }

  /** Over all iterations: the carried value is the repeated fold. */
  lemma {:induction false} LoopFold<V>(sem: Sem<V>, prog: seq<Top>, l: Loop, k: nat, a: nat, us: seq<Stmt>,
                                       env: map<Id, V>, p: Pass<V>, n: nat, r: Pass<V>)
    requires CarriesChain(prog, k, a, us) && l == prog[k].loop && |l.args| == |p.carried|
    requires Iterate(sem, l, env, n, p) == Some(r)
    ensures |r.carried| == |p.carried| && r.carried[a] == FoldLoop(sem, l, env, p, us, p.carried[a], n)
    decreases n
  {
    if n > 0 {
      var q := IterateLast(sem, l, env, n, p);
      LoopFold(sem, prog, l, k, a, us, env, p, n - 1, q);
      FoldIteration(sem, prog, l, k, a, us, env, p, n, q, r);
    }
  }

  lemma {:induction false} FoldIteration<V>(sem: Sem<V>, prog: seq<Top>, l: Loop, k: nat, a: nat, us: seq<Stmt>,
                                            env: map<Id, V>, p: Pass<V>, n: nat, q: Pass<V>, r: Pass<V>)
    requires CarriesChain(prog, k, a, us) && l == prog[k].loop && n > 0 && a < |p.carried| == |q.carried|
    requires Iterate(sem, l, env, n - 1, p) == Some(q) && Iteration(sem, l, env, n - 1, q) == Some(r)
    requires q.carried[a] == FoldLoop(sem, l, env, p, us, p.carried[a], n - 1)
    ensures |r.carried| == |p.carried| && r.carried[a] == FoldLoop(sem, l, env, p, us, p.carried[a], n)
  {
    IterationFold(sem, prog, l, k, a, us, env, n - 1, p, q);
    FoldOnce(sem, l, env, p, us, a, n, q, r);
  }

  // ----- the whole path -----

  lemma PathAppend<V>(sem: Sem<V>, prog: seq<Top>, st: State<V>, pieces: seq<Piece>, piece: Piece, a: V)
    ensures FoldPath(sem, prog, st, pieces + [piece], a) == FoldPiece(sem, prog, st, piece, FoldPath(sem, prog, st, pieces, a))
  {
  }

  ghost predicate PathMeans<V>(sem: Sem<V>, prog: seq<Top>, st: State<V>, v: Id, i: nat, path: Path) {
    StateAt(sem, prog, st, i).Some? &&
    var env := StateAt(sem, prog, st, i).value.env;
    && Before(SiteOf(prog, path.initVal), i) && path.initVal in env && v in env
    && env[v] == FoldPath(sem, prog, st, path.pieces, env[path.initVal])
  }

  lemma OnePiece<V>(sem: Sem<V>, prog: seq<Top>, st: State<V>, v: Id, i: nat, k: nat, path: Path)
    requires Ssa(prog) && StateAt(sem, prog, st, i).Some? && k < i && SiteOf(prog, v) == At(k) && prog[k].stmt.Contract?
    requires PathMeans(sem, prog, st, prog[k].stmt.acc, k, path)
    ensures PathMeans(sem, prog, st, v, i, Path(path.initVal, path.pieces + [One(k)]))
  {
    ValueKept(sem, prog, st, v, k + 1, i);
    ValueKept(sem, prog, st, path.initVal, k, i);
    StateStep(sem, prog, st, k);
    PathAppend(sem, prog, st, path.pieces, One(k), StateAt(sem, prog, st, i).value.env[path.initVal]);
  }

  lemma LoopResult<V>(sem: Sem<V>, prog: seq<Top>, k: nat, r: nat, us: seq<Stmt>, s: State<V>)
    requires CarriesChain(prog, k, r, us)
    requires RunLoop(sem, prog[k].loop, s).Some?
    ensures var l, e := prog[k].loop, RunLoop(sem, prog[k].loop, s).value.env;
            l.results[r] in e && e[l.results[r]] == FoldLoop(sem, l, s.env, Entry(l, s), us, s.env[l.inits[r]], Trips(sem, l, s.env))
  {
    assert SsaTop(prog, k);
    var l := prog[k].loop;
    LoopFold(sem, prog, l, k, r, us, s.env, Entry(l, s), Trips(sem, l, s.env),
             Iterate(sem, l, s.env, Trips(sem, l, s.env), Entry(l, s)).value);
    forall i, j | 0 <= i < j < |l.results| ensures l.results[i] != l.results[j] {
      assert SiteOf(prog, l.results[i]) == Result(k, i) && SiteOf(prog, l.results[j]) == Result(k, j);
    }
    BindAt(s.env, l.results, Iterate(sem, l, s.env, Trips(sem, l, s.env), Entry(l, s)).value.carried, r);
  }

  lemma RepPiece<V>(sem: Sem<V>, prog: seq<Top>, st: State<V>, v: Id, i: nat, k: nat, r: nat, us: seq<Stmt>, path: Path)
    requires Ssa(prog) && StateAt(sem, prog, st, i).Some? && k < i && SiteOf(prog, v) == Result(k, r) && CarriesChain(prog, k, r, us)
    requires PathMeans(sem, prog, st, prog[k].loop.inits[r], k, path)
    ensures PathMeans(sem, prog, st, v, i, Path(path.initVal, path.pieces + [Rep(k, us)]))
  {
    ValueKept(sem, prog, st, v, k + 1, i);
    ValueKept(sem, prog, st, path.initVal, k, i);
    StateStep(sem, prog, st, k);
    LoopResult(sem, prog, k, r, us, StateAt(sem, prog, st, k).value);
    PathAppend(sem, prog, st, path.pieces, Rep(k, us), StateAt(sem, prog, st, i).value.env[path.initVal]);
  }

  /** The value found at the end of the walk, folded over every update on the path, is the value
      the walk started from. */
  lemma {:induction false} WalkSound<V>(sem: Sem<V>, prog: seq<Top>, st: State<V>, v: Id, i: nat)
    requires Ssa(prog) && Before(SiteOf(prog, v), i) && Walk(prog, v, i).Some?
    requires StateAt(sem, prog, st, i).Some? && v in StateAt(sem, prog, st, i).value.env
    ensures PathMeans(sem, prog, st, v, i, Walk(prog, v, i).value)
    decreases i
  {
    match SiteOf(prog, v) {
      case At(k) =>
        if prog[k].stmt.Contract? {
          ContractOperand(sem, prog, st, v, i, k);
          WalkSound(sem, prog, st, prog[k].stmt.acc, k);
          OnePiece(sem, prog, st, v, i, k, Walk(prog, prog[k].stmt.acc, k).value);
        }
      case Result(k, r) =>
        LoopOperand(sem, prog, st, v, i, k, r);
        var l := prog[k].loop;
        WalkSound(sem, prog, st, l.inits[r], k);
        RepPiece(sem, prog, st, v, i, k, r, WalkBody(prog, k, r, l.yielded[r], |l.body|).value, Walk(prog, l.inits[r], k).value);
      case _ =>
    }
  }

  lemma {:induction false} ContractOperand<V>(sem: Sem<V>, prog: seq<Top>, st: State<V>, v: Id, i: nat, k: nat)
    requires Ssa(prog) && SiteOf(prog, v) == At(k) && k < i && prog[k].stmt.Contract? && StateAt(sem, prog, st, i).Some?
    ensures Before(SiteOf(prog, prog[k].stmt.acc), k)
    ensures StateAt(sem, prog, st, k).Some? && prog[k].stmt.acc in StateAt(sem, prog, st, k).value.env
  {
    assert SsaTop(prog, k) && prog[k].stmt.acc in Uses(prog[k].stmt);
    ValueKept(sem, prog, st, v, k + 1, i);
    StateStep(sem, prog, st, k);
  }

  lemma {:induction false} LoopOperand<V>(sem: Sem<V>, prog: seq<Top>, st: State<V>, v: Id, i: nat, k: nat, r: nat)
    requires Ssa(prog) && SiteOf(prog, v) == Result(k, r) && k < i && StateAt(sem, prog, st, i).Some?
    ensures SameArity(prog[k].loop) && Before(SiteOf(prog, prog[k].loop.inits[r]), k)
    ensures Visible(SiteOf(prog, prog[k].loop.yielded[r]), k, |prog[k].loop.body|)
    ensures StateAt(sem, prog, st, k).Some? && prog[k].loop.inits[r] in StateAt(sem, prog, st, k).value.env
  {
    assert SsaTop(prog, k);
    ValueKept(sem, prog, st, v, k + 1, i);
    StateStep(sem, prog, st, k);
  }

  // ----- the loop rewrite may rely on the path -----

  /** The names of the updates. */
  function Names(us: seq<Stmt>): set<Id> {
    set i | 0 <= i < |us| && us[i].Contract? :: us[i].def
  }

  lemma {:induction false} ChainAppend(x: seq<Stmt>, y: seq<Stmt>, acc: Id, mid: Id, updates: set<Id>, hidden: set<Id>, last: Id)
    requires ChainBody(x, acc, updates, hidden, mid) && ChainBody(y, mid, updates, hidden, last)
    ensures ChainBody(x + y, acc, updates, hidden, last)
    decreases |x|
  {
    if x == [] {
      assert x + y == y;
    } else {
      assert (x + y)[0] == x[0] && (x + y)[1..] == x[1..] + y;
      ChainAppend(x[1..], y, NextAcc(x[0], acc, updates), mid, updates, hidden, last);
    }
  }

  /** No use of an accumulator value but by the chain itself. */
  predicate PrivateStmt(s: Stmt, updates: set<Id>, hidden: set<Id>) {
    if IsUpdate(s, updates) then s.lhs !in hidden && s.rhs !in hidden else Uses(s) !! hidden
  }

  predicate Private(body: seq<Stmt>, updates: set<Id>, hidden: set<Id>) {
    forall i :: 0 <= i < |body| ==> PrivateStmt(body[i], updates, hidden)
  }

  predicate NoUpdate(body: seq<Stmt>, updates: set<Id>) {
    forall i :: 0 <= i < |body| ==> !IsUpdate(body[i], updates)
  }

  lemma {:induction false} ChainIdle(body: seq<Stmt>, acc: Id, updates: set<Id>, hidden: set<Id>)
    requires Private(body, updates, hidden) && NoUpdate(body, updates)
    ensures ChainBody(body, acc, updates, hidden, acc)
    decreases |body|
  {
    if body != [] {
      assert PrivateStmt(body[0], updates, hidden) && !IsUpdate(body[0], updates);
      ChainIdle(body[1..], acc, updates, hidden);
    }
  }

  /** Among the first `p` operations of the body, exactly `us` are updates. */
  ghost predicate Covers(body: seq<Stmt>, p: nat, updates: set<Id>, us: seq<Stmt>)
    requires p <= |body|
  {
    forall i :: 0 <= i < p ==> (IsUpdate(body[i], updates) <==> body[i] in us)
  }

  /** Every update found from position `p` lies before it. */
  lemma {:induction false} WalkPositions(prog: seq<Top>, k: nat, a: nat, v: Id, p: nat)
    requires Ssa(prog) && k < |prog| && prog[k].For? && Visible(SiteOf(prog, v), k, p) && WalkBody(prog, k, a, v, p).Some?
    ensures forall s :: s in WalkBody(prog, k, a, v, p).value ==>
              s.Contract? && SiteOf(prog, s.def).InBody? && SiteOf(prog, s.def).pos < p && SiteOf(prog, s.def).top == k
    decreases p
  {
    if SiteOf(prog, v).InBody? {
      var q := SiteOf(prog, v).pos;
      var s := prog[k].loop.body[q];
      assert SsaTop(prog, k) && SsaBodyStmt(prog, s, k, q) && s.acc in Uses(s);
      WalkPositions(prog, k, a, s.acc, q);
    }
  }

  /** Between `q`, where the last update stands, and `p` there is no other. */
  lemma CoversBefore(prog: seq<Top>, k: nat, a: nat, v: Id, p: nat, updates: set<Id>)
    requires Ssa(prog) && k < |prog| && prog[k].For? && p <= |prog[k].loop.body| && Visible(SiteOf(prog, v), k, p)
    requires WalkBody(prog, k, a, v, p).Some? && SiteOf(prog, v).InBody?
    requires Covers(prog[k].loop.body, p, updates, WalkBody(prog, k, a, v, p).value)
    ensures var body, q := prog[k].loop.body, SiteOf(prog, v).pos;
            var s := body[q];
            && q < p && IsUpdate(s, updates) && s.def == v && Visible(SiteOf(prog, s.acc), k, q) && WalkBody(prog, k, a, s.acc, q).Some?
            && Covers(body, q, updates, WalkBody(prog, k, a, s.acc, q).value)
            && NoUpdate(body[q + 1..p], updates)
  {
    var body, q := prog[k].loop.body, SiteOf(prog, v).pos;
    var s := body[q];
    assert SsaTop(prog, k) && SsaBodyStmt(prog, s, k, q) && s.acc in Uses(s);
    var us := WalkBody(prog, k, a, s.acc, q).value;
    WalkPositions(prog, k, a, s.acc, q);
    assert WalkBody(prog, k, a, v, p).value == us + [s] && (us + [s])[|us|] == s;
    forall i | 0 <= i < p ensures body[i] in us + [s] <==> body[i] in us || i == q {
      assert SsaBodyStmt(prog, body[i], k, i);
    }
    forall i | q < i < p ensures !IsUpdate(body[i], updates) {
      assert SsaBodyStmt(prog, body[i], k, i);
    }
  }

  /** An update at `q` and no other up to `p` continue the chain. */
  lemma {:induction false} ChainLink(body: seq<Stmt>, q: nat, p: nat, first: Id, updates: set<Id>, hidden: set<Id>)
    requires q < p <= |body| && Private(body, updates, hidden) && IsUpdate(body[q], updates) && NoUpdate(body[q + 1..p], updates)
    requires ChainBody(body[..q], first, updates, hidden, body[q].acc)
    ensures ChainBody(body[..p], first, updates, hidden, body[q].def)
  {
    var s, idle := body[q], body[q + 1..p];
    ChainIdle(idle, s.def, updates, hidden);
    assert PrivateStmt(s, updates, hidden);
    var rest := [s] + idle;
    assert rest[1..] == idle && ChainStmt(s, s.acc, updates, hidden);
    ChainAppend(body[..q], rest, first, s.acc, updates, hidden, s.def);
    assert body[..q] + rest == body[..p];
  }

  lemma {:induction false} WalkIsChain(prog: seq<Top>, k: nat, a: nat, v: Id, p: nat, updates: set<Id>, hidden: set<Id>)
    requires Ssa(prog) && k < |prog| && prog[k].For? && a < |prog[k].loop.args| && p <= |prog[k].loop.body|
    requires Visible(SiteOf(prog, v), k, p) && WalkBody(prog, k, a, v, p).Some?
    requires Covers(prog[k].loop.body, p, updates, WalkBody(prog, k, a, v, p).value)
    requires Private(prog[k].loop.body, updates, hidden)
    ensures ChainBody(prog[k].loop.body[..p], prog[k].loop.args[a], updates, hidden, v)
    decreases p
  {
    var body := prog[k].loop.body;
    if SiteOf(prog, v).Arg? {
      ChainIdle(body[..p], v, updates, hidden);
    } else {
      CoversBefore(prog, k, a, v, p, updates);
      var q := SiteOf(prog, v).pos;
      WalkIsChain(prog, k, a, body[q].acc, q, updates, hidden);
      ChainLink(body, q, p, prog[k].loop.args[a], updates, hidden);
    }
  }

  /** The path that the analysis finds through a loop body is the chain that the loop rewrite
      relies on, when no other operation looks at the accumulator. */
  lemma AnalysisFeedsRewrite(prog: seq<Top>, k: nat, a: nat, us: seq<Stmt>)
    requires CarriesChain(prog, k, a, us)
    requires Private(prog[k].loop.body, Names(us), Hidden(prog[k].loop, a, Names(us)))
    ensures var l := prog[k].loop;
            ChainBody(l.body, l.args[a], Names(us), Hidden(l, a, Names(us)), l.yielded[a])
  {
    var l := prog[k].loop;
    assert SsaTop(prog, k);
    WalkPositions(prog, k, a, l.yielded[a], |l.body|);
    forall i | 0 <= i < |l.body| ensures IsUpdate(l.body[i], Names(us)) <==> l.body[i] in us {
      assert SsaBodyStmt(prog, l.body[i], k, i);
      UpdateIsMember(prog, k, a, l.yielded[a], |l.body|, us, i);
    }
    WalkIsChain(prog, k, a, l.yielded[a], |l.body|, Names(us), Hidden(l, a, Names(us)));
    assert l.body[..|l.body|] == l.body;
  }

  /** Every update found is the operation at its own position. */
  lemma {:induction false} WalkMembers(prog: seq<Top>, k: nat, a: nat, v: Id, p: nat)
    requires Ssa(prog) && k < |prog| && prog[k].For? && Visible(SiteOf(prog, v), k, p) && WalkBody(prog, k, a, v, p).Some?
    ensures forall s :: s in WalkBody(prog, k, a, v, p).value ==> s.Contract? && s in prog[k].loop.body
    decreases p
  {
    if SiteOf(prog, v).InBody? {
      var q := SiteOf(prog, v).pos;
      var s := prog[k].loop.body[q];
      assert SsaTop(prog, k) && SsaBodyStmt(prog, s, k, q) && s.acc in Uses(s);
      WalkMembers(prog, k, a, s.acc, q);
    }
  }

  lemma UpdateIsMember(prog: seq<Top>, k: nat, a: nat, v: Id, p: nat, us: seq<Stmt>, i: nat)
    requires Ssa(prog) && k < |prog| && prog[k].For? && Visible(SiteOf(prog, v), k, p) && WalkBody(prog, k, a, v, p) == Some(us)
    requires i < |prog[k].loop.body|
    ensures IsUpdate(prog[k].loop.body[i], Names(us)) <==> prog[k].loop.body[i] in us
  {
    var body := prog[k].loop.body;
    WalkMembers(prog, k, a, v, p);
    assert SsaTop(prog, k) && SsaBodyStmt(prog, body[i], k, i);
    if IsUpdate(body[i], Names(us)) {
      var j :| 0 <= j < |us| && us[j].Contract? && us[j].def == body[i].def;
      assert us[j] in us;
      var h :| 0 <= h < |body| && body[h] == us[j];
      assert SsaBodyStmt(prog, body[h], k, h);
    }
  }
}
