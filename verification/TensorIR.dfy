/** A small SSA language for the functions that the matrix passes rewrite, and one interpreter
    for the source program and the lowered program.

    Values are named by numbers.  Vectors, indices and addresses are of one abstract type `V`;
    every operation that the passes do not look into is an uninterpreted function of its
    operands and the memory, so nothing is assumed about rounding. */
module TensorIR {
  import opened Options

  type Id = nat

  /** `transposed` says that the result map of a contraction is (N, M) instead of (M, N). */
  datatype Stmt =
    | Const(def: Id, zero: bool, code: nat)
    | Read(def: Id, addr: Id)
    | Contract(def: Id, lhs: Id, rhs: Id, acc: Id, supported: bool, transposed: bool)
    | Other(def: Id, code: nat, args: seq<Id>)
    | Write(addr: Id, vec: Id)
    | TileZero(tile: nat)
    | TileLoad(tile: nat, addr: Id)
    | TileMac(tile: nat, lhs: Id, rhs: Id)
    | TileStore(tile: nat, addr: Id)

  /** `scf.for`: block arguments `iv` and `args`, operands `lb`, `ub`, `step` and `inits`. */
  datatype Loop = Loop(results: seq<Id>, iv: Id, args: seq<Id>, lb: Id, ub: Id, step: Id,
                       inits: seq<Id>, body: seq<Stmt>, yielded: seq<Id>)

  datatype Top = Simple(stmt: Stmt) | For(loop: Loop)

  /** The meaning of the operations.  `mac` is both the (M, N) contraction and the tile update. */
  datatype Sem<!V> = Sem(
    zero: V,
    mac: (V, V, V) -> V,
    macTransposed: (V, V, V) -> V,
    op: (nat, seq<V>, map<V, V>) -> V,
    trips: (V, V, V) -> nat,
    iv: (V, V, nat) -> V)

  datatype State<V> = State(env: map<Id, V>, tiles: map<nat, V>, mem: map<V, V>)

  // ----- names -----

  predicate Defines(s: Stmt) {
    s.Const? || s.Read? || s.Contract? || s.Other?
  }

  function Uses(s: Stmt): set<Id> {
    match s
    case Const(_, _, _) => {}
    case Read(_, addr) => {addr}
    case Contract(_, lhs, rhs, acc, _, _) => {lhs, rhs, acc}
    case Other(_, _, args) => set k | 0 <= k < |args| :: args[k]
    case Write(addr, vec) => {addr, vec}
    case TileZero(_) => {}
    case TileLoad(_, addr) => {addr}
    case TileMac(_, lhs, rhs) => {lhs, rhs}
    case TileStore(_, addr) => {addr}
  }

  predicate TouchesTile(s: Stmt, tile: nat) {
    match s
    case TileZero(t) => t == tile
    case TileLoad(t, _) => t == tile
    case TileMac(t, _, _) => t == tile
    case TileStore(t, _) => t == tile
    case _ => false
  }

  // ----- statements -----

  ghost predicate Defined<V>(env: map<Id, V>, ids: seq<Id>) {
    forall k :: 0 <= k < |ids| ==> ids[k] in env
  }

  ghost function Values<V>(env: map<Id, V>, ids: seq<Id>): seq<V>
    requires Defined(env, ids)
  {
    seq(|ids|, k requires 0 <= k < |ids| => env[ids[k]])
  }

  ghost function Define<V>(st: State<V>, x: Id, v: V): State<V> {
    st.(env := st.env[x := v])
  }

  /** One statement; `None` when it refers to a value that does not exist. */
  ghost function Step<V>(sem: Sem<V>, s: Stmt, st: State<V>): Option<State<V>> {
    var env := st.env;
    match s
    case Const(def, zero, code) => Some(Define(st, def, if zero then sem.zero else sem.op(code, [], st.mem)))
    case Read(def, addr) =>
      if addr in env && env[addr] in st.mem then Some(Define(st, def, st.mem[env[addr]])) else None
    case Contract(def, lhs, rhs, acc, _, transposed) =>
      if lhs in env && rhs in env && acc in env then
        Some(Define(st, def, if transposed then sem.macTransposed(env[acc], env[lhs], env[rhs])
                             else sem.mac(env[acc], env[lhs], env[rhs])))
      else None
    case Other(def, code, args) =>
      if Defined(env, args) then Some(Define(st, def, sem.op(code, Values(env, args), st.mem))) else None
    case Write(addr, vec) =>
      if addr in env && vec in env then Some(st.(mem := st.mem[env[addr] := env[vec]])) else None
    case TileZero(tile) => Some(st.(tiles := st.tiles[tile := sem.zero]))
    case TileLoad(tile, addr) =>
      if addr in env && env[addr] in st.mem then Some(st.(tiles := st.tiles[tile := st.mem[env[addr]]])) else None
    case TileMac(tile, lhs, rhs) =>
      if tile in st.tiles && lhs in env && rhs in env then
        Some(st.(tiles := st.tiles[tile := sem.mac(st.tiles[tile], env[lhs], env[rhs])]))
      else None
    case TileStore(tile, addr) =>
      if tile in st.tiles && addr in env then Some(st.(mem := st.mem[env[addr] := st.tiles[tile]])) else None
  }

  ghost function Steps<V>(sem: Sem<V>, body: seq<Stmt>, st: State<V>): Option<State<V>> {
    if body == [] then Some(st)
    else match Step(sem, body[0], st)
      case None => None
      case Some(next) => Steps(sem, body[1..], next)
  }

  // ----- loops -----

  ghost function Bind<V>(env: map<Id, V>, ids: seq<Id>, vals: seq<V>): map<Id, V>
    requires |ids| == |vals|
  {
    if ids == [] then env else Bind(env, ids[1..], vals[1..])[ids[0] := vals[0]]
  }

  /** What is carried from one iteration to the next. */
  datatype Pass<V> = Pass(carried: seq<V>, tiles: map<nat, V>, mem: map<V, V>)

  ghost function BodyState<V>(sem: Sem<V>, l: Loop, env: map<Id, V>, n: nat, p: Pass<V>): State<V>
    requires l.lb in env && l.step in env && |l.args| == |p.carried|
  {
    State(Bind(env, l.args, p.carried)[l.iv := sem.iv(env[l.lb], env[l.step], n)], p.tiles, p.mem)
  }

  /** Iteration number `n`; the values it defines do not outlive it. */
  ghost function Iteration<V>(sem: Sem<V>, l: Loop, env: map<Id, V>, n: nat, p: Pass<V>): Option<Pass<V>> {
    if l.lb !in env || l.step !in env || |l.args| != |p.carried| then None
    else match Steps(sem, l.body, BodyState(sem, l, env, n, p))
      case None => None
      case Some(st) => if Defined(st.env, l.yielded) then Some(Pass(Values(st.env, l.yielded), st.tiles, st.mem)) else None
  }

  ghost function Iterate<V>(sem: Sem<V>, l: Loop, env: map<Id, V>, n: nat, p: Pass<V>): Option<Pass<V>> {
    if n == 0 then Some(p)
    else match Iterate(sem, l, env, n - 1, p)
      case None => None
      case Some(q) => Iteration(sem, l, env, n - 1, q)
  }

  ghost predicate CanEnter<V>(l: Loop, env: map<Id, V>) {
    l.lb in env && l.ub in env && l.step in env && Defined(env, l.inits)
  }

  ghost function Trips<V>(sem: Sem<V>, l: Loop, env: map<Id, V>): nat
    requires CanEnter(l, env)
  {
    sem.trips(env[l.lb], env[l.ub], env[l.step])
  }

  ghost function Entry<V>(l: Loop, st: State<V>): Pass<V>
    requires CanEnter(l, st.env)
  {
    Pass(Values(st.env, l.inits), st.tiles, st.mem)
  }

  ghost function RunLoop<V>(sem: Sem<V>, l: Loop, st: State<V>): Option<State<V>> {
    if !CanEnter(l, st.env) then None
    else match Iterate(sem, l, st.env, Trips(sem, l, st.env), Entry(l, st))
      case None => None
      case Some(p) =>
        if |p.carried| == |l.results| then Some(State(Bind(st.env, l.results, p.carried), p.tiles, p.mem)) else None
  }

  ghost function RunTop<V>(sem: Sem<V>, top: Top, st: State<V>): Option<State<V>> {
    match top
    case Simple(s) => Step(sem, s, st)
    case For(l) => RunLoop(sem, l, st)
  }

  ghost function Run<V>(sem: Sem<V>, prog: seq<Top>, st: State<V>): Option<State<V>> {
    if prog == [] then Some(st)
    else match RunTop(sem, prog[0], st)
      case None => None
      case Some(next) => Run(sem, prog[1..], next)
  }

  lemma {:induction false} RunAppend<V>(sem: Sem<V>, a: seq<Top>, b: seq<Top>, st: State<V>)
    ensures Run(sem, a + b, st) == match Run(sem, a, st) case None => None case Some(mid) => Run(sem, b, mid)
  {
    if a == [] {
      assert a + b == b;
    } else {
      assert (a + b)[0] == a[0] && (a + b)[1..] == a[1..] + b;
      match RunTop(sem, a[0], st) {
        case None =>
        case Some(next) => RunAppend(sem, a[1..], b, next);
      }
    }
  }

  lemma IterateNext<V>(sem: Sem<V>, l: Loop, env: map<Id, V>, n: nat, p: Pass<V>, q: Pass<V>)
    requires n > 0 && Iterate(sem, l, env, n - 1, p) == Some(q)
    ensures Iterate(sem, l, env, n, p) == Iteration(sem, l, env, n - 1, q)
  {
  }

  /** What holds at the start and is carried on by every iteration holds after any number. */
  lemma {:induction false} IterateInvariant<V>(sem: Sem<V>, l: Loop, env: map<Id, V>, k: nat, p: Pass<V>, inv: (nat, Pass<V>) -> bool)
    requires inv(0, p)
    requires forall j: nat, q :: inv(j, q) ==> Iteration(sem, l, env, j, q).Some? && inv(j + 1, Iteration(sem, l, env, j, q).value)
    ensures Iterate(sem, l, env, k, p).Some? && inv(k, Iterate(sem, l, env, k, p).value)
  {
    if k > 0 {
      IterateInvariant(sem, l, env, k - 1, p, inv);
      var q := Iterate(sem, l, env, k - 1, p).value;
      assert inv(k - 1, q) && Iteration(sem, l, env, k - 1, q).Some?;
      IterateNext(sem, l, env, k, p, q);
    }
  }

  /** A relation that every iteration keeps is kept by any number of iterations. */
  lemma {:induction false} IterateRelated<V>(sem: Sem<V>, l: Loop, l': Loop, e1: map<Id, V>, e2: map<Id, V>, k: nat,
                                             p1: Pass<V>, p2: Pass<V>, rel: (Pass<V>, Pass<V>) -> bool)
    requires rel(p1, p2) && Iterate(sem, l, e1, k, p1).Some?
    requires forall j, q1, q2 :: rel(q1, q2) && Iteration(sem, l, e1, j, q1).Some? ==>
               Iteration(sem, l', e2, j, q2).Some? &&
               rel(Iteration(sem, l, e1, j, q1).value, Iteration(sem, l', e2, j, q2).value)
    ensures Iterate(sem, l', e2, k, p2).Some? && rel(Iterate(sem, l, e1, k, p1).value, Iterate(sem, l', e2, k, p2).value)
  {
    if k > 0 {
      IterateRelated(sem, l, l', e1, e2, k - 1, p1, p2, rel);
      var q1, q2 := Iterate(sem, l, e1, k - 1, p1).value, Iterate(sem, l', e2, k - 1, p2).value;
      assert Iteration(sem, l, e1, k - 1, q1).Some?;
      assert Iteration(sem, l', e2, k - 1, q2).Some?;
    }
  }

  // ----- environments -----

  predicate Distinct(ids: seq<Id>) {
    forall i, j :: 0 <= i < j < |ids| ==> ids[i] != ids[j]
  }

  lemma {:induction false} BindOther<V>(env: map<Id, V>, ids: seq<Id>, vals: seq<V>, x: Id)
    requires |ids| == |vals|
    ensures x in Bind(env, ids, vals) <==> x in env || x in ids
    ensures x !in ids && x in env ==> Bind(env, ids, vals)[x] == env[x]
  {
    if ids != [] {
      BindOther(env, ids[1..], vals[1..], x);
    }
  }

  lemma {:induction false} BindAt<V>(env: map<Id, V>, ids: seq<Id>, vals: seq<V>, k: nat)
    requires |ids| == |vals| && Distinct(ids) && k < |ids|
    ensures ids[k] in Bind(env, ids, vals) && Bind(env, ids, vals)[ids[k]] == vals[k]
  {
    if k > 0 {
      BindAt(env, ids[1..], vals[1..], k - 1);
    }
  }
}
