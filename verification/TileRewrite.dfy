/** The loop rewrite of CoralNPUVectorToMatrix.cpp: a carried accumulator vector becomes the
    hidden state of a tile register. */
module TileRewrite {
  import opened Options
  import opened TensorIR

  // ----- renaming, as IRMapping does it -----

  function Subst(m: map<Id, Id>, x: Id): Id {
    if x in m then m[x] else x
  }

  function SubstAll(m: map<Id, Id>, ids: seq<Id>): seq<Id> {
    seq(|ids|, k requires 0 <= k < |ids| => Subst(m, ids[k]))
  }

  /** The statement with its operands looked up in `m` and its result called `def`. */
  function Renamed(m: map<Id, Id>, s: Stmt, def: Id): Stmt {
    match s
    case Const(_, zero, code) => Const(def, zero, code)
    case Read(_, addr) => Read(def, Subst(m, addr))
    case Contract(_, lhs, rhs, acc, supported, transposed) =>
      Contract(def, Subst(m, lhs), Subst(m, rhs), Subst(m, acc), supported, transposed)
    case Other(_, code, args) => Other(def, code, SubstAll(m, args))
    case Write(addr, vec) => Write(Subst(m, addr), Subst(m, vec))
    case TileZero(tile) => s
    case TileLoad(tile, addr) => TileLoad(tile, Subst(m, addr))
    case TileMac(tile, lhs, rhs) => TileMac(tile, Subst(m, lhs), Subst(m, rhs))
    case TileStore(tile, addr) => TileStore(tile, Subst(m, addr))
  }

  // ----- simulation -----

  /** Every visible value of the source is available in the target under its mapped name. */
  ghost predicate Sim<V>(e1: map<Id, V>, e2: map<Id, V>, m: map<Id, Id>, hidden: set<Id>) {
    forall x :: x in e1 && x !in hidden ==> Subst(m, x) in e2 && e2[Subst(m, x)] == e1[x]
  }

  /** Source names are below `n`; a mapped name keeps its number or is moved up by `n`. */
  ghost predicate Names<V>(e1: map<Id, V>, m: map<Id, Id>, n: nat) {
    && (forall x :: x in e1 ==> x < n)
    && (forall x :: x in m ==> x < n && (m[x] == x || m[x] == x + n))
  }

  /** The tile registers agree except for the one that holds the accumulator. */
  ghost predicate TilesAgree<V>(t1: map<nat, V>, t2: map<nat, V>, tile: nat) {
    forall k :: k != tile ==> (k in t1 <==> k in t2) && (k in t1 ==> t1[k] == t2[k])
  }

  ghost predicate Related<V>(s1: State<V>, s2: State<V>, m: map<Id, Id>, hidden: set<Id>, tile: nat, n: nat) {
    && Sim(s1.env, s2.env, m, hidden)
    && Names(s1.env, m, n)
    && TilesAgree(s1.tiles, s2.tiles, tile)
    && s1.mem == s2.mem
  }

  lemma SimDefine<V>(e1: map<Id, V>, e2: map<Id, V>, m: map<Id, Id>, hidden: set<Id>, n: nat, x: Id, y: Id, v: V)
    requires Sim(e1, e2, m, hidden) && Names(e1, m, n) && x < n && x !in e1 && (y == x || y == x + n)
    ensures Sim(e1[x := v], e2[y := v], m[x := y], hidden) && Names(e1[x := v], m[x := y], n)
  {
  }

  lemma SimValues<V>(e1: map<Id, V>, e2: map<Id, V>, m: map<Id, Id>, hidden: set<Id>, ids: seq<Id>)
    requires Sim(e1, e2, m, hidden) && Defined(e1, ids) && forall k :: 0 <= k < |ids| ==> ids[k] !in hidden
    ensures Defined(e2, SubstAll(m, ids)) && Values(e2, SubstAll(m, ids)) == Values(e1, ids)
  {
  }

  /** A statement that uses no hidden value and does not touch the tile runs alike on both
      sides, whatever its result is called. */
  lemma StepAlike<V>(sem: Sem<V>, s: Stmt, st1: State<V>, st2: State<V>, m: map<Id, Id>, hidden: set<Id>,
                     tile: nat, y: Id)
    requires Sim(st1.env, st2.env, m, hidden) && TilesAgree(st1.tiles, st2.tiles, tile) && st1.mem == st2.mem
    requires Step(sem, s, st1).Some? && Uses(s) !! hidden && !TouchesTile(s, tile)
    ensures Step(sem, Renamed(m, s, y), st2).Some?
    ensures var r1, r2 := Step(sem, s, st1).value, Step(sem, Renamed(m, s, y), st2).value;
            && TilesAgree(r1.tiles, r2.tiles, tile) && r1.mem == r2.mem && SameTile(st2.tiles, r2.tiles, tile)
            && if Defines(s) then s.def in r1.env && r1.env == st1.env[s.def := r1.env[s.def]] && r2.env == st2.env[y := r1.env[s.def]]
               else r1.env == st1.env && r2.env == st2.env
  {
    if s.Other? {
      forall k | 0 <= k < |s.args| ensures s.args[k] !in hidden {
        assert s.args[k] in Uses(s);
      }
      SimValues(st1.env, st2.env, m, hidden, s.args);
    }
  }

  ghost predicate SameTile<V>(t1: map<nat, V>, t2: map<nat, V>, tile: nat) {
    tile in t1 ==> tile in t2 && t2[tile] == t1[tile]
  }

  lemma StepSim<V>(sem: Sem<V>, s: Stmt, st1: State<V>, st2: State<V>, m: map<Id, Id>, hidden: set<Id>,
                   tile: nat, n: nat, y: Id)
    requires Related(st1, st2, m, hidden, tile, n) && Step(sem, s, st1).Some?
    requires Uses(s) !! hidden && !TouchesTile(s, tile)
    requires Defines(s) ==> s.def < n && s.def !in st1.env && (y == s.def || y == s.def + n)
    ensures Step(sem, Renamed(m, s, y), st2).Some?
    ensures Related(Step(sem, s, st1).value, Step(sem, Renamed(m, s, y), st2).value,
                    if Defines(s) then m[s.def := y] else m, hidden, tile, n)
    ensures SameTile(st2.tiles, Step(sem, Renamed(m, s, y), st2).value.tiles, tile)
  {
    StepAlike(sem, s, st1, st2, m, hidden, tile, y);
    if Defines(s) {
      SimDefine(st1.env, st2.env, m, hidden, n, s.def, y, Step(sem, s, st1).value.env[s.def]);
    }
  }

  // ----- the rewritten body -----

  predicate IsUpdate(s: Stmt, updates: set<Id>) {
    s.Contract? && s.def in updates
  }

  /** An update becomes a tile update; any other statement is cloned, its result under a fresh
      name (the old name plus `n`). */
  function RewriteStmt(s: Stmt, m: map<Id, Id>, updates: set<Id>, tile: nat, n: nat): Stmt {
    if IsUpdate(s, updates) then TileMac(tile, Subst(m, s.lhs), Subst(m, s.rhs))
    else Renamed(m, s, FreshName(s, n))
  }

  function FreshName(s: Stmt, n: nat): Id {
    if Defines(s) then s.def + n else 0
  }

  function NextMap(s: Stmt, m: map<Id, Id>, updates: set<Id>, n: nat): map<Id, Id> {
    if !IsUpdate(s, updates) && Defines(s) then m[s.def := s.def + n] else m
  }

  function RewriteBody(body: seq<Stmt>, m: map<Id, Id>, updates: set<Id>, tile: nat, n: nat): seq<Stmt> {
    if body == [] then []
    else [RewriteStmt(body[0], m, updates, tile, n)] +
         RewriteBody(body[1..], NextMap(body[0], m, updates, n), updates, tile, n)
  }

  /** The loop over the old body that emits the new one. */
  method EmitBody(body: seq<Stmt>, m0: map<Id, Id>, updates: set<Id>, tile: nat, n: nat) returns (r: seq<Stmt>)
    ensures r == RewriteBody(body, m0, updates, tile, n)
  {
    r := [];
    var m: map<Id, Id> := m0;
    for k := 0 to |body|
      invariant RewriteBody(body, m0, updates, tile, n) == r + RewriteBody(body[k..], m, updates, tile, n)
    {
      var s := body[k];
      assert body[k..][0] == s && body[k..][1..] == body[k + 1..];
      r := r + [RewriteStmt(s, m, updates, tile, n)];
      m := NextMap(s, m, updates, n);
    }
  }

  /** The value that holds the accumulator after the statement. */
  function NextAcc(s: Stmt, acc: Id, updates: set<Id>): Id {
    if IsUpdate(s, updates) then s.def else acc
  }

  /** An update continues the chain at `acc`; nothing else looks at an accumulator value. */
  predicate ChainStmt(s: Stmt, acc: Id, updates: set<Id>, hidden: set<Id>) {
    if IsUpdate(s, updates) then s.acc == acc && s.lhs !in hidden && s.rhs !in hidden
    else Uses(s) !! hidden
  }

  /** From `acc` the updates of the body form a chain that ends in `last`. */
  predicate ChainBody(body: seq<Stmt>, acc: Id, updates: set<Id>, hidden: set<Id>, last: Id) {
    if body == [] then acc == last
    else ChainStmt(body[0], acc, updates, hidden) &&
         ChainBody(body[1..], NextAcc(body[0], acc, updates), updates, hidden, last)
  }

  /** No update has the transposed result map. */
  predicate NoTransposed(body: seq<Stmt>, updates: set<Id>) {
    forall k :: 0 <= k < |body| && IsUpdate(body[k], updates) ==> !body[k].transposed
  }

  /** Every result of the body has a new name below `n`. */
  ghost predicate FreshDefs(body: seq<Stmt>, taken: set<Id>, n: nat) {
    body == [] ||
    (if Defines(body[0]) then body[0].def < n && body[0].def !in taken && FreshDefs(body[1..], taken + {body[0].def}, n)
     else FreshDefs(body[1..], taken, n))
  }

  predicate LeavesTile(body: seq<Stmt>, tile: nat) {
    forall k :: 0 <= k < |body| ==> !TouchesTile(body[k], tile)
  }

  /** The tile is in use and, when the simulation is `exact`, holds the accumulator. */
  ghost predicate Follows<V>(s1: State<V>, s2: State<V>, tile: nat, acc: Id, exact: bool) {
    acc in s1.env && tile in s2.tiles && (exact ==> s2.tiles[tile] == s1.env[acc])
  }

  /** An update on one side and the tile update on the other; if it is not transposed, the tile
      keeps holding the accumulator. */
  lemma UpdateSim<V>(sem: Sem<V>, s: Stmt, st1: State<V>, st2: State<V>, m: map<Id, Id>, hidden: set<Id>,
                     tile: nat, n: nat, exact: bool)
    requires Related(st1, st2, m, hidden, tile, n) && Step(sem, s, st1).Some?
    requires s.Contract? && (exact ==> !s.transposed) && s.lhs !in hidden && s.rhs !in hidden
    requires s.def in hidden && s.def < n && s.def !in st1.env
    requires Follows(st1, st2, tile, s.acc, exact)
    ensures Step(sem, TileMac(tile, Subst(m, s.lhs), Subst(m, s.rhs)), st2).Some?
    ensures var r1, r2 := Step(sem, s, st1).value, Step(sem, TileMac(tile, Subst(m, s.lhs), Subst(m, s.rhs)), st2).value;
            Related(r1, r2, m, hidden, tile, n) && Follows(r1, r2, tile, s.def, exact)
  {
  }

  lemma RewriteStmtSim<V>(sem: Sem<V>, s: Stmt, st1: State<V>, st2: State<V>, m: map<Id, Id>, hidden: set<Id>,
                          updates: set<Id>, tile: nat, n: nat, acc: Id, exact: bool)
    requires Related(st1, st2, m, hidden, tile, n) && Step(sem, s, st1).Some?
    requires updates <= hidden && ChainStmt(s, acc, updates, hidden) && !TouchesTile(s, tile)
    requires exact && IsUpdate(s, updates) ==> !s.transposed
    requires Defines(s) ==> s.def < n && s.def !in st1.env
    requires Follows(st1, st2, tile, acc, exact)
    ensures var code := RewriteStmt(s, m, updates, tile, n);
            && Step(sem, code, st2).Some?
            && Related(Step(sem, s, st1).value, Step(sem, code, st2).value, NextMap(s, m, updates, n), hidden, tile, n)
            && Follows(Step(sem, s, st1).value, Step(sem, code, st2).value, tile, NextAcc(s, acc, updates), exact)
  {
    if IsUpdate(s, updates) {
      UpdateSim(sem, s, st1, st2, m, hidden, tile, n, exact);
    } else {
      StepSim(sem, s, st1, st2, m, hidden, tile, n, FreshName(s, n));
    }
  }

  lemma StepKeys<V>(sem: Sem<V>, s: Stmt, st: State<V>)
    requires Step(sem, s, st).Some?
    ensures Step(sem, s, st).value.env.Keys == if Defines(s) then st.env.Keys + {s.def} else st.env.Keys
  {
  }

  lemma {:induction false} BodySim<V>(sem: Sem<V>, body: seq<Stmt>, st1: State<V>, st2: State<V>, m: map<Id, Id>,
                                      hidden: set<Id>, updates: set<Id>, tile: nat, n: nat, acc: Id, last: Id, exact: bool)
    requires Related(st1, st2, m, hidden, tile, n) && Steps(sem, body, st1).Some?
    requires updates <= hidden && ChainBody(body, acc, updates, hidden, last)
    requires FreshDefs(body, st1.env.Keys, n) && LeavesTile(body, tile) && (exact ==> NoTransposed(body, updates))
    requires Follows(st1, st2, tile, acc, exact)
    ensures Steps(sem, RewriteBody(body, m, updates, tile, n), st2).Some?
    ensures var r1, r2 := Steps(sem, body, st1).value, Steps(sem, RewriteBody(body, m, updates, tile, n), st2).value;
            r1.mem == r2.mem && TilesAgree(r1.tiles, r2.tiles, tile) && Follows(r1, r2, tile, last, exact)
    decreases |body|
  {
    if body != [] {
      var s, rest := body[0], body[1..];
      RewriteStmtSim(sem, s, st1, st2, m, hidden, updates, tile, n, acc, exact);
      StepKeys(sem, s, st1);
      var next1, next2 := Step(sem, s, st1).value, Step(sem, RewriteStmt(s, m, updates, tile, n), st2).value;
      BodySim(sem, rest, next1, next2, NextMap(s, m, updates, n), hidden, updates, tile, n,
              NextAcc(s, acc, updates), last, exact);
    }
  }

  // ----- the rewritten loop -----

  function Drop<T>(s: seq<T>, i: nat): seq<T>
    requires i < |s|
  {
    s[..i] + s[i + 1..]
  }

  function Shift(ids: seq<Id>, n: nat): seq<Id> {
    seq(|ids|, k requires 0 <= k < |ids| => ids[k] + n)
  }

  function ArgSet(l: Loop): set<Id> {
    {l.iv} + set k | 0 <= k < |l.args| :: l.args[k]
  }

  /** The initial mapping: the induction variable and every block argument but the accumulator. */
  function ArgMap(l: Loop, acc: nat, n: nat): map<Id, Id>
    requires acc < |l.args|
  {
    map x | x in ArgSet(l) - {l.args[acc]} :: x + n
  }

  predicate SameArity(l: Loop) {
    |l.args| == |l.inits| == |l.yielded| == |l.results|
  }

  /** The new loop: the accumulator is dropped from results, block arguments and operands.  The
      remaining yield operands are taken over as they are, without looking them up. */
  function RewriteLoop(l: Loop, acc: nat, updates: set<Id>, tile: nat, n: nat): Loop
    requires SameArity(l) && acc < |l.args|
  {
    Loop(Drop(Shift(l.results, n), acc), l.iv + n, Drop(Shift(l.args, n), acc), l.lb, l.ub, l.step,
         Drop(l.inits, acc), RewriteBody(l.body, ArgMap(l, acc, n), updates, tile, n), Drop(l.yielded, acc))
  }

  function Hidden(l: Loop, acc: nat, updates: set<Id>): set<Id>
    requires acc < |l.args|
  {
    updates + {l.args[acc]}
  }

  /** What the rewrite relies on: names are used once, the updates form the only chain through
      the accumulator, and the body leaves the tile alone.  `outer` names the values that exist
      before the loop. */
  ghost predicate Rewritable(l: Loop, acc: nat, updates: set<Id>, tile: nat, n: nat, outer: set<Id>) {
    && SameArity(l) && acc < |l.args|
    && Distinct(l.args) && l.iv !in l.args
    && (forall x :: x in outer ==> x < n)
    && (forall x :: x in ArgSet(l) ==> x < n && x !in outer)
    && FreshDefs(l.body, outer + ArgSet(l), n)
    && updates !! outer + ArgSet(l)
    && ChainBody(l.body, l.args[acc], updates, Hidden(l, acc, updates), l.yielded[acc])
    && LeavesTile(l.body, tile)
  }

  /** Every other carried value is yielded from outside the loop body. */
  ghost predicate OuterYields(l: Loop, acc: nat, outer: set<Id>) {
    forall i :: 0 <= i < |l.yielded| && i != acc ==> l.yielded[i] in outer
  }

  ghost predicate PassRelated<V>(p1: Pass<V>, p2: Pass<V>, acc: nat, tile: nat, exact: bool) {
    && acc < |p1.carried| && p2.carried == Drop(p1.carried, acc)
    && p1.mem == p2.mem && TilesAgree(p1.tiles, p2.tiles, tile)
    && tile in p2.tiles && (exact ==> p2.tiles[tile] == p1.carried[acc])
  }

  predicate NeverDefines(body: seq<Stmt>, x: Id) {
    forall k :: 0 <= k < |body| ==> Defines(body[k]) ==> body[k].def != x
  }

  lemma {:induction false} StepsKeep<V>(sem: Sem<V>, body: seq<Stmt>, st: State<V>, x: Id)
    requires Steps(sem, body, st).Some? && NeverDefines(body, x)
    ensures x in Steps(sem, body, st).value.env <==> x in st.env
    ensures x in st.env ==> Steps(sem, body, st).value.env[x] == st.env[x]
    decreases |body|
  {
    if body != [] {
      StepsKeep(sem, body[1..], Step(sem, body[0], st).value, x);
    }
  }

  lemma {:induction false} FreshNeverDefines(body: seq<Stmt>, taken: set<Id>, n: nat, x: Id)
    requires FreshDefs(body, taken, n) && x in taken
    ensures NeverDefines(body, x)
    decreases |body|
  {
    if body != [] {
      FreshNeverDefines(body[1..], if Defines(body[0]) then taken + {body[0].def} else taken, n, x);
      forall k | 0 <= k < |body| && Defines(body[k]) ensures body[k].def != x {
        if k > 0 { assert body[k] == body[1..][k - 1]; }
      }
    }
  }

  lemma {:induction false} RewriteDefinesAbove(body: seq<Stmt>, m: map<Id, Id>, updates: set<Id>, tile: nat, n: nat, x: Id)
    requires x < n
    ensures NeverDefines(RewriteBody(body, m, updates, tile, n), x)
    decreases |body|
  {
    if body != [] {
      var m' := NextMap(body[0], m, updates, n);
      RewriteDefinesAbove(body[1..], m', updates, tile, n, x);
      var code := RewriteBody(body, m, updates, tile, n);
      forall k | 0 <= k < |code| && Defines(code[k]) ensures code[k].def != x {
        if k > 0 { assert code[k] == RewriteBody(body[1..], m', updates, tile, n)[k - 1]; }
      }
    }
  }

  lemma DropMembers(ids: seq<Id>, i: nat, x: Id)
    requires i < |ids|
    ensures x in Drop(ids, i) ==> x in ids
    ensures Distinct(ids) ==> Distinct(Drop(ids, i))
  {
  }

  lemma ShiftMembers(ids: seq<Id>, n: nat, x: Id)
    ensures x in Shift(ids, n) ==> x >= n
    ensures Distinct(ids) ==> Distinct(Shift(ids, n))
  {
  }

  /** Position of the old block argument `k` in the new list. */
  function NewIndex(k: nat, acc: nat): nat
    requires k != acc
  {
    if k < acc then k else k - 1
  }

  lemma DropAt<T>(s: seq<T>, i: nat, k: nat)
    requires i < |s| && k < |s| && k != i
    ensures NewIndex(k, i) < |Drop(s, i)| && Drop(s, i)[NewIndex(k, i)] == s[k]
  {
  }

  /** The two bodies start in related states. */
  lemma EntrySim<V>(sem: Sem<V>, l: Loop, acc: nat, updates: set<Id>, tile: nat, n: nat, env: map<Id, V>, k: nat,
                    p1: Pass<V>, p2: Pass<V>, exact: bool)
    requires Rewritable(l, acc, updates, tile, n, env.Keys) && PassRelated(p1, p2, acc, tile, exact)
    requires l.lb in env && l.step in env && |l.args| == |p1.carried|
    ensures var l' := RewriteLoop(l, acc, updates, tile, n);
            && |l'.args| == |p2.carried|
            && Related(BodyState(sem, l, env, k, p1), BodyState(sem, l', env, k, p2), ArgMap(l, acc, n),
                       Hidden(l, acc, updates), tile, n)
            && Follows(BodyState(sem, l, env, k, p1), BodyState(sem, l', env, k, p2), tile, l.args[acc], exact)
            && BodyState(sem, l, env, k, p1).env.Keys == env.Keys + ArgSet(l)
  {
    var l' := RewriteLoop(l, acc, updates, tile, n);
    var e1, e2 := BodyState(sem, l, env, k, p1).env, BodyState(sem, l', env, k, p2).env;
    var m := ArgMap(l, acc, n);
    forall x ensures x in e1 <==> x in env || x in ArgSet(l) {
      BindOther(env, l.args, p1.carried, x);
    }
    BindAt(env, l.args, p1.carried, acc);
    forall x | x in e1 && x !in Hidden(l, acc, updates) ensures Subst(m, x) in e2 && e2[Subst(m, x)] == e1[x] {
      EntryValueSim(sem, l, acc, updates, tile, n, env, k, p1, p2, x, exact);
    }
  }

  /** Block argument `i` has the same value on both sides. */
  lemma BindArgSim<V>(env: map<Id, V>, args: seq<Id>, vals: seq<V>, acc: nat, n: nat, i: nat)
    requires |args| == |vals| && Distinct(args) && acc < |args| && i < |args| && i != acc
    ensures var e2 := Bind(env, Drop(Shift(args, n), acc), Drop(vals, acc));
            args[i] + n in e2 && e2[args[i] + n] == vals[i]
  {
    DropAt(Shift(args, n), acc, i);
    DropAt(vals, acc, i);
    ShiftMembers(args, n, 0);
    DropMembers(Shift(args, n), acc, 0);
    BindAt(env, Drop(Shift(args, n), acc), Drop(vals, acc), NewIndex(i, acc));
  }

  /** Values from outside the loop are not disturbed by the new block arguments. */
  lemma BindOuterSim<V>(env: map<Id, V>, args: seq<Id>, vals: seq<V>, acc: nat, n: nat, x: Id)
    requires |args| == |vals| && acc < |args| && x < n
    ensures var e2 := Bind(env, Drop(Shift(args, n), acc), Drop(vals, acc));
            (x in e2 <==> x in env) && (x in env ==> e2[x] == env[x])
  {
    BindOther(env, Drop(Shift(args, n), acc), Drop(vals, acc), x);
    DropMembers(Shift(args, n), acc, x);
    ShiftMembers(args, n, x);
  }

  lemma EntryValueSim<V>(sem: Sem<V>, l: Loop, acc: nat, updates: set<Id>, tile: nat, n: nat, env: map<Id, V>, k: nat,
                         p1: Pass<V>, p2: Pass<V>, x: Id, exact: bool)
    requires Rewritable(l, acc, updates, tile, n, env.Keys) && PassRelated(p1, p2, acc, tile, exact)
    requires l.lb in env && l.step in env && |l.args| == |p1.carried|
    requires x in BodyState(sem, l, env, k, p1).env && x != l.args[acc]
    ensures var e2 := BodyState(sem, RewriteLoop(l, acc, updates, tile, n), env, k, p2).env;
            var y := Subst(ArgMap(l, acc, n), x);
            y in e2 && e2[y] == BodyState(sem, l, env, k, p1).env[x]
  {
    BindOther(env, l.args, p1.carried, x);
    if x in l.args {
      var i :| 0 <= i < |l.args| && l.args[i] == x;
      assert x in ArgSet(l) && Subst(ArgMap(l, acc, n), x) == x + n;
      BindAt(env, l.args, p1.carried, i);
      BindArgSim(env, l.args, p1.carried, acc, n, i);
    } else if x != l.iv {
      assert x in env && x !in ArgSet(l);
      BindOuterSim(env, l.args, p1.carried, acc, n, x);
    }
  }

  lemma StepsKeepOuter<V>(sem: Sem<V>, l: Loop, acc: nat, updates: set<Id>, tile: nat, n: nat, env: map<Id, V>, k: nat,
                          p1: Pass<V>, p2: Pass<V>, x: Id, exact: bool)
    requires Rewritable(l, acc, updates, tile, n, env.Keys) && PassRelated(p1, p2, acc, tile, exact)
    requires l.lb in env && l.step in env && |l.args| == |p1.carried| && x in env
    requires Steps(sem, l.body, BodyState(sem, l, env, k, p1)).Some?
    requires var l' := RewriteLoop(l, acc, updates, tile, n);
             |l'.args| == |p2.carried| && Steps(sem, l'.body, BodyState(sem, l', env, k, p2)).Some?
    ensures var l' := RewriteLoop(l, acc, updates, tile, n);
            var e1 := Steps(sem, l.body, BodyState(sem, l, env, k, p1)).value.env;
            var e2 := Steps(sem, l'.body, BodyState(sem, l', env, k, p2)).value.env;
            x in e1 && x in e2 && e1[x] == env[x] && e2[x] == env[x]
  {
    var l' := RewriteLoop(l, acc, updates, tile, n);
    assert x !in ArgSet(l);
    BindOther(env, l.args, p1.carried, x);
    FreshNeverDefines(l.body, env.Keys + ArgSet(l), n, x);
    StepsKeep(sem, l.body, BodyState(sem, l, env, k, p1), x);
    BindOuterSim(env, l.args, p1.carried, acc, n, x);
    RewriteDefinesAbove(l.body, ArgMap(l, acc, n), updates, tile, n, x);
    StepsKeep(sem, l'.body, BodyState(sem, l', env, k, p2), x);
  }

  lemma BodiesRun<V>(sem: Sem<V>, l: Loop, acc: nat, updates: set<Id>, tile: nat, n: nat, env: map<Id, V>, k: nat,
                     p1: Pass<V>, p2: Pass<V>, exact: bool)
    requires Rewritable(l, acc, updates, tile, n, env.Keys) && PassRelated(p1, p2, acc, tile, exact)
    requires Iteration(sem, l, env, k, p1).Some? && (exact ==> NoTransposed(l.body, updates))
    ensures var l' := RewriteLoop(l, acc, updates, tile, n);
            && |l'.args| == |p2.carried|
            && var r1, r2 := Steps(sem, l.body, BodyState(sem, l, env, k, p1)), Steps(sem, l'.body, BodyState(sem, l', env, k, p2));
            && r1.Some? && r2.Some? && r1.value.mem == r2.value.mem && TilesAgree(r1.value.tiles, r2.value.tiles, tile)
            && Follows(r1.value, r2.value, tile, l.yielded[acc], exact)
  {
    var l' := RewriteLoop(l, acc, updates, tile, n);
    EntrySim(sem, l, acc, updates, tile, n, env, k, p1, p2, exact);
    BodySim(sem, l.body, BodyState(sem, l, env, k, p1), BodyState(sem, l', env, k, p2), ArgMap(l, acc, n),
            Hidden(l, acc, updates), updates, tile, n, l.args[acc], l.yielded[acc], exact);
  }

  lemma DropValues<V>(e1: map<Id, V>, e2: map<Id, V>, ids: seq<Id>, acc: nat)
    requires Defined(e1, ids) && acc < |ids|
    requires forall i :: 0 <= i < |ids| && i != acc ==> ids[i] in e2 && e2[ids[i]] == e1[ids[i]]
    ensures Defined(e2, Drop(ids, acc)) && Values(e2, Drop(ids, acc)) == Drop(Values(e1, ids), acc)
  {
  }

  /** With every other yield from outside, the new iteration carries the same values and its
      tile holds the accumulator. */
  lemma OuterIteration<V>(sem: Sem<V>, l: Loop, acc: nat, updates: set<Id>, tile: nat, n: nat, env: map<Id, V>, k: nat,
                          p1: Pass<V>, p2: Pass<V>, exact: bool)
    requires Rewritable(l, acc, updates, tile, n, env.Keys) && PassRelated(p1, p2, acc, tile, exact)
    requires Iteration(sem, l, env, k, p1).Some? && OuterYields(l, acc, env.Keys) && (exact ==> NoTransposed(l.body, updates))
    ensures var q2 := Iteration(sem, RewriteLoop(l, acc, updates, tile, n), env, k, p2);
            q2.Some? && PassRelated(Iteration(sem, l, env, k, p1).value, q2.value, acc, tile, exact)
  {
    var l' := RewriteLoop(l, acc, updates, tile, n);
    BodiesRun(sem, l, acc, updates, tile, n, env, k, p1, p2, exact);
    var r1 := Steps(sem, l.body, BodyState(sem, l, env, k, p1)).value;
    var r2 := Steps(sem, l'.body, BodyState(sem, l', env, k, p2)).value;
    forall i | 0 <= i < |l.yielded| && i != acc
      ensures l.yielded[i] in r2.env && r2.env[l.yielded[i]] == r1.env[l.yielded[i]]
    {
      StepsKeepOuter(sem, l, acc, updates, tile, n, env, k, p1, p2, l.yielded[i], exact);
    }
    DropValues(r1.env, r2.env, l.yielded, acc);
  }

  /** A yield operand from the old body does not exist in the new one, whichever position was
      dropped and whatever is carried. */
  lemma DanglingYield<V>(sem: Sem<V>, l: Loop, dropped: nat, updates: set<Id>, tile: nat, n: nat, env: map<Id, V>,
                         k: nat, p: Pass<V>, i: nat)
    requires SameArity(l) && dropped < |l.args|
    requires i < |l.yielded| && i != dropped && l.yielded[i] < n && l.yielded[i] !in env
    ensures Iteration(sem, RewriteLoop(l, dropped, updates, tile, n), env, k, p) == None
  {
    var l' := RewriteLoop(l, dropped, updates, tile, n);
    var x := l.yielded[i];
    DropAt(l.yielded, dropped, i);
    if l.lb in env && l.step in env && |l'.args| == |p.carried| {
      var st := BodyState(sem, l', env, k, p);
      BindOther(env, l'.args, p.carried, x);
      DropMembers(Shift(l.args, n), dropped, x);
      ShiftMembers(l.args, n, x);
      RewriteDefinesAbove(l.body, ArgMap(l, dropped, n), updates, tile, n, x);
      if Steps(sem, l'.body, st).Some? { StepsKeep(sem, l'.body, st, x); }
    }
  }

  /** Every value of an iteration of the source has a name below `n`. */
  lemma YieldedBelow<V>(sem: Sem<V>, l: Loop, acc: nat, updates: set<Id>, tile: nat, n: nat, env: map<Id, V>, k: nat,
                        p: Pass<V>, i: nat)
    requires Rewritable(l, acc, updates, tile, n, env.Keys) && Iteration(sem, l, env, k, p).Some? && i < |l.yielded|
    ensures l.yielded[i] < n
  {
    var x := l.yielded[i];
    var st := BodyState(sem, l, env, k, p);
    BindOther(env, l.args, p.carried, x);
    assert x in Steps(sem, l.body, st).value.env;
    StepsNamesBelow(sem, l.body, st, env.Keys + ArgSet(l), n, x);
    assert x in st.env ==> x in env || x in ArgSet(l);
  }

  lemma {:induction false} StepsNamesBelow<V>(sem: Sem<V>, body: seq<Stmt>, st: State<V>, taken: set<Id>, n: nat, x: Id)
    requires Steps(sem, body, st).Some? && FreshDefs(body, taken, n) && x in Steps(sem, body, st).value.env
    ensures x in st.env || x < n
    decreases |body|
  {
    if body != [] {
      StepKeys(sem, body[0], st);
      StepsNamesBelow(sem, body[1..], Step(sem, body[0], st).value,
                      if Defines(body[0]) then taken + {body[0].def} else taken, n, x);
    }
  }

  lemma {:induction false} NeverIterates<V>(sem: Sem<V>, l: Loop, env: map<Id, V>, k: nat, p: Pass<V>)
    requires k > 0 && forall j, q :: Iteration(sem, l, env, j, q) == None
    ensures Iterate(sem, l, env, k, p) == None
  {
    var q := Iterate(sem, l, env, k - 1, p);
    assert q.Some? ==> Iteration(sem, l, env, k - 1, q.value) == None;
  }

  lemma IterateSim<V>(sem: Sem<V>, l: Loop, l': Loop, acc: nat, updates: set<Id>, tile: nat, n: nat,
                      env: map<Id, V>, k: nat, p1: Pass<V>, p2: Pass<V>, exact: bool)
    requires (exact ==> NoTransposed(l.body, updates))
    requires Rewritable(l, acc, updates, tile, n, env.Keys) && l' == RewriteLoop(l, acc, updates, tile, n)
    requires PassRelated(p1, p2, acc, tile, exact) && Iterate(sem, l, env, k, p1).Some?
    ensures var q2 := Iterate(sem, l', env, k, p2);
            && (q2.Some? <==> k == 0 || OuterYields(l, acc, env.Keys))
            && (q2.Some? ==> PassRelated(Iterate(sem, l, env, k, p1).value, q2.value, acc, tile, exact))
  {
    if OuterYields(l, acc, env.Keys) {
      var rel := (q1, q2) => PassRelated(q1, q2, acc, tile, exact);
      forall j, q1, q2 | rel(q1, q2) && Iteration(sem, l, env, j, q1).Some?
        ensures Iteration(sem, l', env, j, q2).Some? && rel(Iteration(sem, l, env, j, q1).value, Iteration(sem, l', env, j, q2).value)
      {
        OuterIteration(sem, l, acc, updates, tile, n, env, j, q1, q2, exact);
      }
      IterateRelated(sem, l, l', env, env, k, p1, p2, rel);
    } else if k > 0 {
      var i :| 0 <= i < |l.yielded| && i != acc && l.yielded[i] !in env;
      FirstIteration(sem, l, env, k, p1);
      YieldedBelow(sem, l, acc, updates, tile, n, env, 0, p1, i);
      forall j, q ensures Iteration(sem, l', env, j, q) == None {
        DanglingYield(sem, l, acc, updates, tile, n, env, j, q, i);
      }
      NeverIterates(sem, l', env, k, p2);
    }
  }

  lemma {:induction false} FirstIteration<V>(sem: Sem<V>, l: Loop, env: map<Id, V>, k: nat, p: Pass<V>)
    requires k > 0 && Iterate(sem, l, env, k, p).Some?
    ensures Iteration(sem, l, env, 0, p).Some?
  {
    if k > 1 { FirstIteration(sem, l, env, k - 1, p); }
  }

  function ResultMap(results: seq<Id>, n: nat): map<Id, Id> {
    map x | x in results :: x + n
  }

  lemma ResultMapAt(results: seq<Id>, n: nat, x: Id)
    ensures Subst(ResultMap(results, n), x) == if x in results then x + n else x
  {
  }

  ghost predicate Below(s: set<Id>, n: nat) {
    forall x :: x in s ==> x < n
  }

  /** After the loops: same memory, same other tiles, every value but the accumulator available
      under its redirected name and, when `exact`, the accumulated value in the tile. */
  ghost predicate LoopAgrees<V>(results: seq<Id>, acc: nat, tile: nat, n: nat, r1: State<V>, r2: State<V>, exact: bool)
    requires acc < |results|
  {
    && Sim(r1.env, r2.env, ResultMap(results, n), {results[acc]}) && Below(r1.env.Keys, n)
    && TilesAgree(r1.tiles, r2.tiles, tile) && r1.mem == r2.mem && Follows(r1, r2, tile, results[acc], exact)
  }

  /** The two loops from one state whose tile was initialised to the accumulator: the new loop
      runs exactly when no iteration happens or every other yield comes from outside. */
  lemma LoopRewriteCorrect<V>(sem: Sem<V>, l: Loop, acc: nat, updates: set<Id>, tile: nat, n: nat, st: State<V>,
                              st': State<V>, exact: bool)
    requires Rewritable(l, acc, updates, tile, n, st.env.Keys) && NamesOk(l.results, n)
    requires RunLoop(sem, l, st).Some?
    requires st'.env == st.env && st'.mem == st.mem && TilesAgree(st.tiles, st'.tiles, tile)
    requires tile in st'.tiles && (exact ==> st'.tiles[tile] == st.env[l.inits[acc]] && NoTransposed(l.body, updates))
    ensures var r2 := RunLoop(sem, RewriteLoop(l, acc, updates, tile, n), st');
            && (r2.Some? <==> Trips(sem, l, st.env) == 0 || OuterYields(l, acc, st.env.Keys))
            && (r2.Some? ==> LoopAgrees(l.results, acc, tile, n, RunLoop(sem, l, st).value, r2.value, exact))
  {
    var l' := RewriteLoop(l, acc, updates, tile, n);
    DropValues(st.env, st'.env, l.inits, acc);
    var p1, p2 := Entry(l, st), Entry(l', st');
    var k := Trips(sem, l, st.env);
    IterateSim(sem, l, l', acc, updates, tile, n, st.env, k, p1, p2, exact);
    if Iterate(sem, l', st.env, k, p2).Some? {
      ResultsAgree(l.results, acc, tile, n, st.env, Iterate(sem, l, st.env, k, p1).value, Iterate(sem, l', st.env, k, p2).value,
                   exact);
    }
  }

  predicate NamesOk(ids: seq<Id>, n: nat) {
    Distinct(ids) && forall k :: 0 <= k < |ids| ==> ids[k] < n
  }

  /** The value called `x` after the loop has the same value under its redirected name. */
  lemma ResultAgrees<V>(env: map<Id, V>, results: seq<Id>, vals: seq<V>, acc: nat, n: nat, x: Id)
    requires |results| == |vals| && NamesOk(results, n) && acc < |results| && Below(env.Keys, n)
    requires x in Bind(env, results, vals) && x != results[acc]
    ensures var e2 := Bind(env, Drop(Shift(results, n), acc), Drop(vals, acc));
            var y := if x in results then x + n else x;
            x < n && y in e2 && e2[y] == Bind(env, results, vals)[x]
  {
    BindOther(env, results, vals, x);
    if x in results {
      ResultRedirected(env, results, vals, acc, n, x);
    } else {
      BindOuterSim(env, results, vals, acc, n, x);
    }
  }

  lemma ResultRedirected<V>(env: map<Id, V>, results: seq<Id>, vals: seq<V>, acc: nat, n: nat, x: Id)
    requires |results| == |vals| && NamesOk(results, n) && acc < |results| && x in results && x != results[acc]
    ensures var e1, e2 := Bind(env, results, vals), Bind(env, Drop(Shift(results, n), acc), Drop(vals, acc));
            x < n && x in e1 && x + n in e2 && e2[x + n] == e1[x]
  {
    var i :| 0 <= i < |results| && results[i] == x;
    BindAt(env, results, vals, i);
    BindArgSim(env, results, vals, acc, n, i);
  }

  lemma ResultsAgree<V>(results: seq<Id>, acc: nat, tile: nat, n: nat, env: map<Id, V>, q1: Pass<V>, q2: Pass<V>,
                        exact: bool)
    requires acc < |results| == |q1.carried| && NamesOk(results, n) && Below(env.Keys, n)
    requires PassRelated(q1, q2, acc, tile, exact)
    ensures var results' := Drop(Shift(results, n), acc);
            && |q2.carried| == |results'|
            && LoopAgrees(results, acc, tile, n, State(Bind(env, results, q1.carried), q1.tiles, q1.mem),
                          State(Bind(env, results', q2.carried), q2.tiles, q2.mem), exact)
  {
    var e1, e2 := Bind(env, results, q1.carried), Bind(env, Drop(Shift(results, n), acc), q2.carried);
    var m := ResultMap(results, n);
    BindAt(env, results, q1.carried, acc);
    forall x | x in e1 && x !in {results[acc]} ensures x < n && Subst(m, x) in e2 && e2[Subst(m, x)] == e1[x] {
      ResultAgrees(env, results, q1.carried, acc, n, x);
      ResultMapAt(results, n, x);
    }
  }
}
