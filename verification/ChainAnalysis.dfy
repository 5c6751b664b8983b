/** `analyzeChain` of CoralNPUVectorToMatrix.cpp: from a written vector it walks backwards through
    contractions and loops to the initial value. */
module ChainAnalysis {
  import opened Options
  import opened TensorIR
  import opened TileRewrite

  // ----- where a value comes from -----

  /** A function argument, an operation, a loop result, an operation in a loop body, a carried
      block argument, or an induction variable. */
  datatype Site =
    | Outside
    | At(top: nat)
    | Result(top: nat, index: nat)
    | InBody(top: nat, pos: nat)
    | Arg(top: nat, index: nat)
    | Induction(top: nat)

  predicate SiteOk(prog: seq<Top>, v: Id, site: Site) {
    match site
    case Outside => true
    case At(k) => k < |prog| && prog[k].Simple? && Defines(prog[k].stmt) && prog[k].stmt.def == v
    case Result(k, r) => k < |prog| && prog[k].For? && r < |prog[k].loop.results| && prog[k].loop.results[r] == v
    case InBody(k, p) =>
      k < |prog| && prog[k].For? && p < |prog[k].loop.body| && Defines(prog[k].loop.body[p]) && prog[k].loop.body[p].def == v
    case Arg(k, a) => k < |prog| && prog[k].For? && a < |prog[k].loop.args| && prog[k].loop.args[a] == v
    case Induction(k) => k < |prog| && prog[k].For? && prog[k].loop.iv == v
  }

  function IndexOf(ids: seq<Id>, v: Id, i: nat): (r: Option<nat>)
    requires i <= |ids|
    ensures r.Some? ==> r.value < |ids| && ids[r.value] == v
    decreases |ids| - i
  {
    if i == |ids| then None else if ids[i] == v then Some(i) else IndexOf(ids, v, i + 1)
  }

  function DefinerOf(body: seq<Stmt>, v: Id, i: nat): (r: Option<nat>)
    requires i <= |body|
    ensures r.Some? ==> r.value < |body| && Defines(body[r.value]) && body[r.value].def == v
    decreases |body| - i
  {
    if i == |body| then None
    else if Defines(body[i]) && body[i].def == v then Some(i)
    else DefinerOf(body, v, i + 1)
  }

  function SiteIn(top: Top, k: nat, v: Id): Option<Site> {
    match top
    case Simple(s) => if Defines(s) && s.def == v then Some(At(k)) else None
    case For(l) =>
      var r, a, p := IndexOf(l.results, v, 0), IndexOf(l.args, v, 0), DefinerOf(l.body, v, 0);
      if r.Some? then Some(Result(k, r.value))
      else if a.Some? then Some(Arg(k, a.value))
      else if p.Some? then Some(InBody(k, p.value))
      else if l.iv == v then Some(Induction(k))
      else None
  }

  function SiteFrom(prog: seq<Top>, v: Id, k: nat): (r: Site)
    requires k <= |prog|
    ensures SiteOk(prog, v, r)
    decreases |prog| - k
  {
    if k == |prog| then Outside
    else match SiteIn(prog[k], k, v)
      case Some(site) => site
      case None => SiteFrom(prog, v, k + 1)
  }

  /** `getDefiningOp`, or the owner of a block argument. */
  function SiteOf(prog: seq<Top>, v: Id): (r: Site)
    ensures SiteOk(prog, v, r)
  {
    SiteFrom(prog, v, 0)
  }

  // ----- well-formed functions -----

  /** The value exists before operation `k`. */
  predicate Before(site: Site, k: nat) {
    match site
    case Outside => true
    case At(j) => j < k
    case Result(j, _) => j < k
    case _ => false
  }

  /** The value exists before operation `p` of the body of loop `k`. */
  predicate Visible(site: Site, k: nat, p: nat) {
    match site
    case InBody(j, q) => j == k && q < p
    case Arg(j, _) => j == k
    case Induction(j) => j == k
    case _ => Before(site, k)
  }

  ghost predicate SsaStmt(prog: seq<Top>, s: Stmt, k: nat) {
    && (Defines(s) ==> SiteOf(prog, s.def) == At(k))
    && (forall u :: u in Uses(s) ==> Before(SiteOf(prog, u), k))
  }

  ghost predicate SsaBodyStmt(prog: seq<Top>, s: Stmt, k: nat, p: nat) {
    && (Defines(s) ==> SiteOf(prog, s.def) == InBody(k, p))
    && (forall u :: u in Uses(s) ==> Visible(SiteOf(prog, u), k, p))
  }

  ghost predicate SsaLoop(prog: seq<Top>, l: Loop, k: nat) {
    && SameArity(l) && SiteOf(prog, l.iv) == Induction(k)
    && Before(SiteOf(prog, l.lb), k) && Before(SiteOf(prog, l.ub), k) && Before(SiteOf(prog, l.step), k)
    && (forall r :: 0 <= r < |l.results| ==> SiteOf(prog, l.results[r]) == Result(k, r))
    && (forall a :: 0 <= a < |l.args| ==> SiteOf(prog, l.args[a]) == Arg(k, a))
    && (forall p :: 0 <= p < |l.body| ==> SsaBodyStmt(prog, l.body[p], k, p))
    && (forall r :: 0 <= r < |l.inits| ==> Before(SiteOf(prog, l.inits[r]), k))
    && (forall r :: 0 <= r < |l.yielded| ==> Visible(SiteOf(prog, l.yielded[r]), k, |l.body|))
  }

  /** What the IR verifier guarantees: one definition per value, before its uses. */
  ghost predicate Ssa(prog: seq<Top>) {
    forall k :: 0 <= k < |prog| ==> SsaTop(prog, k)
  }

  ghost predicate SsaTop(prog: seq<Top>, k: nat)
    requires k < |prog|
  {
    match prog[k]
    case Simple(s) => SsaStmt(prog, s, k)
    case For(l) => SsaLoop(prog, l, k)
  }

  // ----- the walk -----

  /** One contraction, or the contractions of a loop body, once per iteration. */
  datatype Piece = One(top: nat) | Rep(top: nat, updates: seq<Stmt>)

  datatype Path = Path(initVal: Id, pieces: seq<Piece>)

  predicate IsLink(s: Stmt) {
    s.Contract? && s.supported
  }

  /** From `v`, visible at position `p` of loop `k`, back to block argument `a`. */
  ghost function WalkBody(prog: seq<Top>, k: nat, a: nat, v: Id, p: nat): Option<seq<Stmt>>
    requires Ssa(prog) && k < |prog| && prog[k].For? && Visible(SiteOf(prog, v), k, p)
    decreases p
  {
    match SiteOf(prog, v)
    case Arg(_, a') => if a' == a then Some([]) else None
    case InBody(_, q) =>
      var s := prog[k].loop.body[q];
      if !IsLink(s) then None
      else
        assert SsaTop(prog, k) && s.acc in Uses(s);
        (match WalkBody(prog, k, a, s.acc, q)
         case None => None
         case Some(us) => Some(us + [s]))
    case _ => None
  }

  /** From `v`, which exists before operation `i`, back to the initial value. */
  ghost function Walk(prog: seq<Top>, v: Id, i: nat): Option<Path>
    requires Ssa(prog) && Before(SiteOf(prog, v), i)
    decreases i
  {
    match SiteOf(prog, v)
    case At(k) =>
      var s := prog[k].stmt;
      if s.Const? || s.Read? then Some(Path(v, []))
      else if !IsLink(s) then None
      else
        assert SsaTop(prog, k) && s.acc in Uses(s);
        (match Walk(prog, s.acc, k)
         case None => None
         case Some(path) => Some(Path(path.initVal, path.pieces + [One(k)])))
    case Result(k, r) =>
      var l := prog[k].loop;
      assert SsaTop(prog, k);
      (match WalkBody(prog, k, r, l.yielded[r], |l.body|)
       case None => None
       case Some(us) =>
         match Walk(prog, l.inits[r], k)
         case None => None
         case Some(path) => Some(Path(path.initVal, path.pieces + [Rep(k, us)])))
    case _ => Some(Path(v, []))
  }

  ghost function Flat(prog: seq<Top>, pieces: seq<Piece>): seq<Stmt> {
    if pieces == [] then []
    else Flat(prog, pieces[..|pieces| - 1]) + PieceStmts(prog, pieces[|pieces| - 1])
  }

  ghost function PieceStmts(prog: seq<Top>, piece: Piece): seq<Stmt> {
    match piece
    case One(k) => if k < |prog| && prog[k].Simple? then [prog[k].stmt] else []
    case Rep(_, us) => us
  }

  lemma FlatAppend(prog: seq<Top>, pieces: seq<Piece>, piece: Piece)
    ensures Flat(prog, pieces + [piece]) == Flat(prog, pieces) + PieceStmts(prog, piece)
  {
  }

  // ----- the loop of the pass -----

  datatype Chain = Chain(initVal: Id, updates: seq<Stmt>)

  function Reverse(us: seq<Stmt>): seq<Stmt> {
    if us == [] then [] else [us[|us| - 1]] + Reverse(us[..|us| - 1])
  }

  lemma ReverseAppend(us: seq<Stmt>, s: Stmt)
    ensures Reverse(us + [s]) == [s] + Reverse(us)
  {
  }

  /** The chain the pass wants: a path with at least one update. */
  ghost function Finish(prog: seq<Top>, path: Option<Path>, later: seq<Stmt>): Option<Chain> {
    match path
    case None => None
    case Some(p) => if Flat(prog, p.pieces) + later == [] then None else Some(Chain(p.initVal, Flat(prog, p.pieces) + later))
  }

  ghost function FinishBody(prog: seq<Top>, us: Option<seq<Stmt>>, path: Option<Path>, later: seq<Stmt>): Option<Chain> {
    match us
    case None => None
    case Some(inner) => Finish(prog, path, inner + later)
  }

  lemma Regroup(a: seq<Stmt>, b: seq<Stmt>, c: seq<Stmt>)
    ensures a + b + c == a + (b + c)
  {
  }

  lemma FinishOne(prog: seq<Top>, path: Path, k: nat, later: seq<Stmt>)
    requires k < |prog| && prog[k].Simple?
    ensures Finish(prog, Some(Path(path.initVal, path.pieces + [One(k)])), later) ==
            Finish(prog, Some(path), [prog[k].stmt] + later)
  {
    FlatAppend(prog, path.pieces, One(k));
    Regroup(Flat(prog, path.pieces), [prog[k].stmt], later);
  }

  lemma FinishRep(prog: seq<Top>, path: Path, k: nat, us: seq<Stmt>, later: seq<Stmt>)
    ensures Finish(prog, Some(Path(path.initVal, path.pieces + [Rep(k, us)])), later) ==
            Finish(prog, Some(path), us + later)
  {
    FlatAppend(prog, path.pieces, Rep(k, us));
    Regroup(Flat(prog, path.pieces), us, later);
  }

  /** Where the walk stands: outside loops, inside the loop it entered, or outside again without
      having come through the loop's own block argument. */
  datatype Cursor = OuterAt(bound: nat) | InnerAt(top: nat, index: nat, pos: nat) | StrayAt(bound: nat)

  ghost predicate CursorOk(prog: seq<Top>, c: Cursor, v: Id, active: Option<(nat, nat)>) {
    match c
    case OuterAt(i) => active == None && Before(SiteOf(prog, v), i)
    case InnerAt(k, a, p) =>
      active == Some((k, a)) && k < |prog| && prog[k].For? && a < |prog[k].loop.results| && Visible(SiteOf(prog, v), k, p)
    case StrayAt(i) => active.Some? && Before(SiteOf(prog, v), i)
  }

  /** The final answer, given that `later` has been collected. */
  ghost function Pending(prog: seq<Top>, c: Cursor, v: Id, active: Option<(nat, nat)>, later: seq<Stmt>): Option<Chain>
    requires Ssa(prog) && CursorOk(prog, c, v, active)
  {
    match c
    case OuterAt(i) => Finish(prog, Walk(prog, v, i), later)
    case InnerAt(k, a, p) =>
      assert SsaTop(prog, k);
      FinishBody(prog, WalkBody(prog, k, a, v, p), Walk(prog, prog[k].loop.inits[a], k), later)
    case StrayAt(_) => None
  }

  lemma EnterLoop(prog: seq<Top>, i: nat, v: Id, k: nat, r: nat, later: seq<Stmt>)
    requires Ssa(prog) && Before(SiteOf(prog, v), i) && SiteOf(prog, v) == Result(k, r)
    ensures SameArity(prog[k].loop) && k < i
    ensures var l := prog[k].loop;
            && CursorOk(prog, InnerAt(k, r, |l.body|), l.yielded[r], Some((k, r)))
            && Pending(prog, OuterAt(i), v, None, later) ==
               Pending(prog, InnerAt(k, r, |l.body|), l.yielded[r], Some((k, r)), later)
  {
    assert SsaTop(prog, k);
    var l := prog[k].loop;
    var us, path := WalkBody(prog, k, r, l.yielded[r], |l.body|), Walk(prog, l.inits[r], k);
    if us.Some? && path.Some? { FinishRep(prog, path.value, k, us.value, later); }
  }

  lemma LeaveLoop(prog: seq<Top>, k: nat, a: nat, p: nat, v: Id, later: seq<Stmt>)
    requires Ssa(prog) && CursorOk(prog, InnerAt(k, a, p), v, Some((k, a))) && SiteOf(prog, v) == Arg(k, a)
    ensures SameArity(prog[k].loop) && CursorOk(prog, OuterAt(k), prog[k].loop.inits[a], None)
    ensures Pending(prog, InnerAt(k, a, p), v, Some((k, a)), later) ==
            Pending(prog, OuterAt(k), prog[k].loop.inits[a], None, later)
  {
    assert SsaTop(prog, k);
    assert [] + later == later;
  }

  lemma OuterLink(prog: seq<Top>, i: nat, v: Id, k: nat, later: seq<Stmt>)
    requires Ssa(prog) && Before(SiteOf(prog, v), i) && SiteOf(prog, v) == At(k) && IsLink(prog[k].stmt)
    ensures var s := prog[k].stmt;
            && k < i && Before(SiteOf(prog, s.acc), k)
            && Pending(prog, OuterAt(i), v, None, later) == Pending(prog, OuterAt(k), s.acc, None, [s] + later)
  {
    var s := prog[k].stmt;
    assert SsaTop(prog, k) && s.acc in Uses(s);
    var path := Walk(prog, s.acc, k);
    if path.Some? { FinishOne(prog, path.value, k, later); }
  }

  lemma InnerLink(prog: seq<Top>, k: nat, a: nat, p: nat, v: Id, q: nat, later: seq<Stmt>)
    requires Ssa(prog) && CursorOk(prog, InnerAt(k, a, p), v, Some((k, a))) && SiteOf(prog, v) == InBody(k, q)
    requires IsLink(prog[k].loop.body[q])
    ensures var s := prog[k].loop.body[q];
            && q < p && Visible(SiteOf(prog, s.acc), k, q)
            && Pending(prog, InnerAt(k, a, p), v, Some((k, a)), later) ==
               Pending(prog, InnerAt(k, a, q), s.acc, Some((k, a)), [s] + later)
  {
    var s := prog[k].loop.body[q];
    assert SsaTop(prog, k) && SsaBodyStmt(prog, s, k, q) && s.acc in Uses(s);
    var us := WalkBody(prog, k, a, s.acc, q);
    if us.Some? { assert us.value + [s] + later == us.value + ([s] + later); }
  }

  ghost function Rank(c: Cursor): (nat, nat, nat) {
    match c
    case OuterAt(i) => (i, 0, 0)
    case InnerAt(k, _, p) => (k, 1, p)
    case StrayAt(i) => (i, 0, 0)
  }

  ghost predicate Lower(c: Cursor, d: Cursor) {
    var x, y := Rank(c), Rank(d);
    x.0 < y.0 || (x.0 == y.0 && (x.1 < y.1 || (x.1 == y.1 && x.2 < y.2)))
  }

  function StmtAt(prog: seq<Top>, v: Id): Stmt
    requires SiteOf(prog, v).At? || SiteOf(prog, v).InBody?
  {
    var site := SiteOf(prog, v);
    if site.At? then prog[site.top].stmt else prog[site.top].loop.body[site.pos]
  }

  /** A value that ends the walk: an argument, a constant or a read. */
  predicate Ends(prog: seq<Top>, v: Id) {
    var site := SiteOf(prog, v);
    site.Outside? || site.Arg? || site.Induction? ||
    (!site.Result? && (StmtAt(prog, v).Const? || StmtAt(prog, v).Read?))
  }

  predicate OwnArg(prog: seq<Top>, v: Id, active: Option<(nat, nat)>) {
    SiteOf(prog, v).Arg? && active == Some((SiteOf(prog, v).top, SiteOf(prog, v).index))
  }

  lemma StopStep(prog: seq<Top>, c: Cursor, v: Id, active: Option<(nat, nat)>, later: seq<Stmt>)
    requires Ssa(prog) && CursorOk(prog, c, v, active) && Ends(prog, v) && !OwnArg(prog, v, active)
    ensures Pending(prog, c, v, active, later) == if active.Some? || later == [] then None else Some(Chain(v, later))
  {
    assert Flat(prog, []) + later == later;
  }

  lemma LeaveStep(prog: seq<Top>, c: Cursor, v: Id, active: Option<(nat, nat)>, later: seq<Stmt>) returns (d: Cursor)
    requires Ssa(prog) && CursorOk(prog, c, v, active) && OwnArg(prog, v, active)
    ensures var l, a := prog[active.value.0].loop, active.value.1;
            && SameArity(l) && CursorOk(prog, d, l.inits[a], None) && Lower(d, c)
            && Pending(prog, d, l.inits[a], None, later) == Pending(prog, c, v, active, later)
  {
    LeaveLoop(prog, c.top, c.index, c.pos, v, later);
    d := OuterAt(c.top);
  }

  /** The walk enters a loop by its result; a second loop is refused. */
  lemma EnterStep(prog: seq<Top>, c: Cursor, v: Id, active: Option<(nat, nat)>, later: seq<Stmt>) returns (d: Cursor)
    requires Ssa(prog) && CursorOk(prog, c, v, active) && SiteOf(prog, v).Result?
    ensures active.Some? ==> Pending(prog, c, v, active, later) == None
    ensures var site := SiteOf(prog, v);
            var l, into := prog[site.top].loop, Some((site.top, site.index));
            active == None ==>
              SameArity(l) && CursorOk(prog, d, l.yielded[site.index], into) && Lower(d, c) &&
              Pending(prog, d, l.yielded[site.index], into, later) == Pending(prog, c, v, active, later)
  {
    var site := SiteOf(prog, v);
    d := c;
    if active == None {
      EnterLoop(prog, c.bound, v, site.top, site.index, later);
      d := InnerAt(site.top, site.index, |prog[site.top].loop.body|);
    }
  }

  lemma LinkStep(prog: seq<Top>, c: Cursor, v: Id, active: Option<(nat, nat)>, updates: seq<Stmt>) returns (d: Cursor)
    requires Ssa(prog) && CursorOk(prog, c, v, active) && (SiteOf(prog, v).At? || SiteOf(prog, v).InBody?)
    requires IsLink(StmtAt(prog, v))
    ensures var s := StmtAt(prog, v);
            && CursorOk(prog, d, s.acc, active) && Lower(d, c)
            && Pending(prog, d, s.acc, active, Reverse(updates + [s])) == Pending(prog, c, v, active, Reverse(updates))
  {
    var site, s := SiteOf(prog, v), StmtAt(prog, v);
    ReverseAppend(updates, s);
    if site.InBody? {
      InnerLink(prog, c.top, c.index, c.pos, v, site.pos, Reverse(updates));
      d := InnerAt(c.top, c.index, site.pos);
    } else if active.Some? {
      assert SsaTop(prog, site.top) && s.acc in Uses(s);
      d := StrayAt(site.top);
    } else {
      OuterLink(prog, c.bound, v, site.top, Reverse(updates));
      d := OuterAt(site.top);
    }
  }

  /** Neither an end nor a supported contraction nor a loop. */
  lemma RefuseStep(prog: seq<Top>, c: Cursor, v: Id, active: Option<(nat, nat)>, later: seq<Stmt>)
    requires Ssa(prog) && CursorOk(prog, c, v, active) && (SiteOf(prog, v).At? || SiteOf(prog, v).InBody?)
    requires !Ends(prog, v) && !IsLink(StmtAt(prog, v))
    ensures Pending(prog, c, v, active, later) == None
  {
  }

  /** The backward walk.  It ends although entering a loop goes forward to its yield, and it
      returns the path of `Walk` exactly when there is one with an update. */
  method AnalyzeChain(prog: seq<Top>, vec: Id, i: nat) returns (chain: Option<Chain>)
    requires Ssa(prog) && Before(SiteOf(prog, vec), i)
    ensures chain == Finish(prog, Walk(prog, vec, i), [])
  {
    var val, updates: seq<Stmt> := vec, [];
    var active: Option<(nat, nat)> := None;
    var initVal: Option<Id> := None;
    ghost var c := OuterAt(i);
    while true
      invariant CursorOk(prog, c, val, active) && initVal == None
      invariant Pending(prog, c, val, active, Reverse(updates)) == Finish(prog, Walk(prog, vec, i), [])
      decreases Rank(c).0, Rank(c).1, Rank(c).2
    {
      var site := SiteOf(prog, val);
      if site.Outside? || site.Arg? || site.Induction? {
        if site.Arg? && active == Some((site.top, site.index)) {
          c := LeaveStep(prog, c, val, active, Reverse(updates));
          val := prog[site.top].loop.inits[site.index];
          active := None;
          continue;
        }
        StopStep(prog, c, val, active, Reverse(updates));
        if active == None { initVal := Some(val); }
        break;
      }
      if site.Result? {
        c := EnterStep(prog, c, val, active, Reverse(updates));
        if active.Some? {
          return None;
        }
        active := Some((site.top, site.index));
        val := prog[site.top].loop.yielded[site.index];
        continue;
      }
      var s := StmtAt(prog, val);
      if s.Contract? {
        if !s.supported {
          RefuseStep(prog, c, val, active, Reverse(updates));
          return None;
        }
        c := LinkStep(prog, c, val, active, updates);
        updates := updates + [s];
        val := s.acc;
        continue;
      }
      if s.Const? || s.Read? {
        StopStep(prog, c, val, active, Reverse(updates));
        if active == None { initVal := Some(val); }
        break;
      }
      RefuseStep(prog, c, val, active, Reverse(updates));
      return None;
    }
    if updates == [] || initVal == None {
      return None;
    }
    return Some(Chain(initVal.value, Reverse(updates)));
  }
}
