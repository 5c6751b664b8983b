/** The rewrite of one chain seen as an edit of the function: one operation is replaced, a tile
    operation and a zero vector are put around it, later uses are redirected and the writeback
    becomes a tile store.  The edited function is again in SSA form. */
module SsaEdits {
  import opened Options
  import opened TensorIR
  import opened TileRewrite
  import opened MatrixProgram
  import opened MatrixPass
  import opened MatrixAlways
  import opened ChainAnalysis

  // ----- sites are complete -----

  lemma {:induction false} IndexFound(ids: seq<Id>, v: Id, i: nat, k: nat)
    requires i <= k < |ids| && ids[k] == v
    ensures IndexOf(ids, v, i).Some?
    decreases k - i
  {
    if i < k { IndexFound(ids, v, i + 1, k); }
  }

  lemma {:induction false} DefinerFound(body: seq<Stmt>, v: Id, i: nat, k: nat)
    requires i <= k < |body| && Defines(body[k]) && body[k].def == v
    ensures DefinerOf(body, v, i).Some?
    decreases k - i
  {
    if i < k { DefinerFound(body, v, i + 1, k); }
  }

  lemma {:induction false} TopFound(prog: seq<Top>, v: Id, site: Site)
    requires SiteOk(prog, v, site) && !site.Outside?
    ensures SiteIn(prog[site.top], site.top, v).Some?
  {
    match site {
      case At(k) =>
      case Result(k, r) => IndexFound(prog[k].loop.results, v, 0, r);
      case Arg(k, a) => IndexFound(prog[k].loop.args, v, 0, a);
      case InBody(k, p) => DefinerFound(prog[k].loop.body, v, 0, p);
      case Induction(k) =>
    }
  }

  lemma SiteInTop(top: Top, k: nat, v: Id)
    ensures SiteIn(top, k, v).Some? ==> !SiteIn(top, k, v).value.Outside?
  {
  }

  /** A value with a definition is not taken for an argument. */
  lemma {:induction false} SiteFound(prog: seq<Top>, v: Id, i: nat, site: Site)
    requires SiteOk(prog, v, site) && !site.Outside? && i <= site.top
    ensures !SiteFrom(prog, v, i).Outside?
    decreases site.top - i
  {
    SiteInTop(prog[i], i, v);
    if i == site.top {
      TopFound(prog, v, site);
    } else if SiteIn(prog[i], i, v).None? {
      SiteFound(prog, v, i + 1, site);
    }
  }

  /** In SSA form a definition is the value's site. */
  lemma {:induction false} SiteUnique(prog: seq<Top>, v: Id, site: Site)
    requires Ssa(prog) && SiteOk(prog, v, site) && !site.Outside?
    ensures SiteOf(prog, v) == site
  {
    assert SsaTop(prog, site.top);
    if site.InBody? { assert SsaBodyStmt(prog, prog[site.top].loop.body[site.pos], site.top, site.pos); }
  }

  lemma {:induction false} SiteBelow(prog: seq<Top>, n: nat, v: Id, site: Site)
    requires NamesBelow(prog, n) && SiteOk(prog, v, site) && !site.Outside?
    ensures v < n
  {
    assert TopBelow(prog[site.top], n);
  }

  // ----- an edit -----

  /** At `k` the operation becomes `init`, `core` and a zero vector for `vec`; the write at `w`
      becomes a store of the tile; names in `m` are redirected.  `acc` is the dropped position when
      a loop is replaced. */
  datatype Edit = Edit(k: nat, w: nat, init: Stmt, core: Top, vec: Id, acc: nat, m: map<Id, Id>, tile: nat, n: nat)

  predicate EditAt(prog: seq<Top>, e: Edit) {
    e.k < e.w < |prog| && prog[e.w].Simple? && prog[e.w].stmt.Write?
  }

  function Edited(prog: seq<Top>, e: Edit): seq<Top>
    requires EditAt(prog, e)
  {
    prog[..e.k] + ([Simple(e.init), e.core, Simple(Const(e.vec + e.n, true, 0))] +
                   Tail(RenameProg(e.m, prog[e.k + 1..e.w]), TileStore(e.tile, Subst(e.m, prog[e.w].stmt.addr)),
                        RenameProg(e.m, prog[e.w + 1..])))
  }

  /** Where operation `i` stands afterwards. */
  function Moved(e: Edit, i: nat): nat {
    if i < e.k then i else i + 2
  }

  /** The new text of operation `i`. */
  function Kept(prog: seq<Top>, e: Edit, i: nat): Top
    requires EditAt(prog, e) && i < |prog|
  {
    if i == e.w then Simple(TileStore(e.tile, Subst(e.m, prog[i].stmt.addr))) else RenameTop(e.m, prog[i])
  }

  /** The redirected names are exactly those that operation `k` defines for later ones. */
  ghost predicate Redirects(prog: seq<Top>, e: Edit) {
    && (forall x :: x in e.m ==> e.m[x] == x + e.n)
    && (forall x {:trigger x in e.m} :: x in e.m <==> (SiteOf(prog, x).At? || SiteOf(prog, x).Result?) && SiteOf(prog, x).top == e.k)
  }

  // ----- operations before the edit are untouched -----

  lemma RenameFreeStmt(m: map<Id, Id>, s: Stmt)
    requires forall u :: u in Uses(s) ==> u !in m
    ensures RenameStmt(m, s) == s
  {
    if s.Other? {
      forall i | 0 <= i < |s.args| ensures Subst(m, s.args[i]) == s.args[i] { assert s.args[i] in Uses(s); }
      assert SubstAll(m, s.args) == s.args;
    }
  }

  lemma RenameFreeIds(m: map<Id, Id>, ids: seq<Id>)
    requires forall i :: 0 <= i < |ids| ==> ids[i] !in m
    ensures SubstAll(m, ids) == ids
  {
  }

  lemma {:induction false} EarlyKept(prog: seq<Top>, e: Edit, i: nat)
    requires Ssa(prog) && EditAt(prog, e) && Redirects(prog, e) && i < e.k
    ensures RenameTop(e.m, prog[i]) == prog[i]
  {
    assert SsaTop(prog, i);
    match prog[i] {
      case Simple(s) => RenameFreeStmt(e.m, s);
      case For(l) =>
        forall p | 0 <= p < |l.body| ensures RenameStmt(e.m, l.body[p]) == l.body[p] {
          assert SsaBodyStmt(prog, l.body[p], i, p);
          RenameFreeStmt(e.m, l.body[p]);
        }
        assert RenameBody(e.m, l.body) == l.body;
        RenameFreeIds(e.m, l.inits);
        RenameFreeIds(e.m, l.yielded);
    }
  }

  /** Operation by operation. */
  lemma {:induction false} EditedAt(prog: seq<Top>, e: Edit, i: nat)
    requires Ssa(prog) && EditAt(prog, e) && Redirects(prog, e) && i < |prog| && i != e.k
    ensures Moved(e, i) < |Edited(prog, e)| == |prog| + 2 && Edited(prog, e)[Moved(e, i)] == Kept(prog, e, i)
  {
    if i < e.k { EarlyKept(prog, e, i); }
  }

  lemma EditedCore(prog: seq<Top>, e: Edit)
    requires EditAt(prog, e)
    ensures |Edited(prog, e)| == |prog| + 2 && Edited(prog, e)[e.k] == Simple(e.init)
    ensures Edited(prog, e)[e.k + 1] == e.core && Edited(prog, e)[e.k + 2] == Simple(Const(e.vec + e.n, true, 0))
  {
  }

  /** `prog'` is the edited function, said operation by operation. */
  ghost predicate IsEdited(prog: seq<Top>, e: Edit, prog': seq<Top>) {
    && EditAt(prog, e) && |prog'| == |prog| + 2 && prog'[e.k] == Simple(e.init) && prog'[e.k + 1] == e.core
    && prog'[e.k + 2] == Simple(Const(e.vec + e.n, true, 0))
    && forall i :: 0 <= i < |prog| && i != e.k ==> KeptAt(prog, e, prog', i)
  }

  ghost predicate KeptAt(prog: seq<Top>, e: Edit, prog': seq<Top>, i: nat)
    requires EditAt(prog, e) && i < |prog|
  {
    Moved(e, i) < |prog'| && prog'[Moved(e, i)] == Kept(prog, e, i)
  }

  lemma {:induction false} EditedIs(prog: seq<Top>, e: Edit)
    requires Ssa(prog) && EditAt(prog, e) && Redirects(prog, e)
    ensures IsEdited(prog, e, Edited(prog, e))
  {
    EditedCore(prog, e);
    forall i | 0 <= i < |prog| && i != e.k ensures KeptAt(prog, e, Edited(prog, e), i) { EditedAt(prog, e, i); }
  }

  // ----- sites of the edited function -----

  function OldIndex(i: nat, acc: nat): nat {
    if i < acc then i else i + 1
  }

  function WithTop(s: Site, i: nat): Site
    requires !s.Outside?
  {
    match s
    case At(_) => At(i)
    case Result(_, r) => Result(i, r)
    case Arg(_, a) => Arg(i, a)
    case InBody(_, p) => InBody(i, p)
    case Induction(_) => Induction(i)
  }

  /** The same site in the loop from which position `acc` was dropped. */
  function CoreSite(s: Site, k: nat, acc: nat): Site
    requires !s.Outside?
  {
    match s
    case Result(_, r) => Result(k, OldIndex(r, acc))
    case Arg(_, a) => Arg(k, OldIndex(a, acc))
    case _ => WithTop(s, k)
  }

  /** The site in the old function that a site of the new one comes from. */
  function Back(prog: seq<Top>, e: Edit, s: Site): Site {
    if s.Outside? then Outside
    else if s.top < e.k then s
    else if s.top <= e.k + 1 then CoreSite(s, e.k, e.acc)
    else if s.top == e.k + 2 then SiteOf(prog, e.vec)
    else WithTop(s, s.top - 2)
  }

  function NewName(prog: seq<Top>, e: Edit, x: Id): Id {
    if !SiteOf(prog, x).Outside? && SiteOf(prog, x).top == e.k then x + e.n else x
  }

  /** Every name that the new operation defines is an old one of `k`, moved up. */
  ghost predicate CoreDefs(prog: seq<Top>, e: Edit, prog': seq<Top>)
  {
    forall y: Id, s: Site :: CoreDef(prog, e, prog', y, s)
  }

  ghost predicate CoreDef(prog: seq<Top>, e: Edit, prog': seq<Top>, y: Id, s: Site) {
    !s.Outside? && s.top == e.k + 1 && SiteOk(prog', y, s) ==>
      !s.At? && y >= e.n && SiteOk(prog, y - e.n, Back(prog, e, s)) && y - e.n != e.vec
  }

  ghost predicate EditOk(prog: seq<Top>, e: Edit, prog': seq<Top>) {
    && Ssa(prog) && NamesBelow(prog, e.n) && UsesBelow(prog, e.n) && IsEdited(prog, e, prog') && Redirects(prog, e) && e.vec in e.m
    && !Defines(e.init) && (forall u :: u in Uses(e.init) ==> Before(SiteOf(prog, u), e.k) && u < e.n) && CoreDefs(prog, e, prog')
  }

  /** Renaming and the tile store define nothing new. */
  lemma {:induction false} KeptSite(prog: seq<Top>, e: Edit, prog': seq<Top>, i: nat, y: Id, s: Site)
    requires Ssa(prog) && IsEdited(prog, e, prog') && Redirects(prog, e) && i < |prog| && i != e.k
    requires !s.Outside? && s.top == Moved(e, i) && SiteOk(prog', y, s)
    ensures SiteOk(prog, y, WithTop(s, i))
  {
    assert KeptAt(prog, e, prog', i);
    RenamedSite(e.m, prog[i], Kept(prog, e, i), y, s, i, prog, prog');
  }

  lemma {:induction false} RenamedSite(m: map<Id, Id>, top: Top, top': Top, y: Id, s: Site, i: nat, prog: seq<Top>, prog': seq<Top>)
    requires !s.Outside? && s.top < |prog'| && prog'[s.top] == top' && i < |prog| && prog[i] == top && SiteOk(prog', y, s)
    requires top' == RenameTop(m, top) || (top'.Simple? && !Defines(top'.stmt))
    ensures SiteOk(prog, y, WithTop(s, i))
  {
    match s {
      case At(_) =>
      case Result(_, r) =>
      case Arg(_, a) =>
      case InBody(_, p) =>
      case Induction(_) =>
    }
  }

  /** Name `y` of the new function, defined at `s`, is the old name `x`. */
  ghost predicate ComesFrom(prog: seq<Top>, e: Edit, y: Id, s: Site, x: Id) {
    && !s.Outside? && s.top != e.k && SiteOf(prog, x) == Back(prog, e, s) && !Back(prog, e, s).Outside?
    && x < e.n && y == NewName(prog, e, x) && (s.top == e.k + 2 ==> s.At?) && (s.top == e.k + 2 <==> x == e.vec)
  }

  lemma {:induction false} CoreFrom(prog: seq<Top>, e: Edit, prog': seq<Top>, y: Id, s: Site)
    requires Ssa(prog) && NamesBelow(prog, e.n) && CoreDef(prog, e, prog', y, s)
    requires SiteOk(prog', y, s) && !s.Outside? && s.top == e.k + 1
    ensures y >= e.n && ComesFrom(prog, e, y, s, y - e.n)
  {
    var x, s0 := y - e.n, CoreSite(s, e.k, e.acc);
    SiteUnique(prog, x, s0);
    SiteBelow(prog, e.n, x, s0);
  }

  lemma {:induction false} KeptFrom(prog: seq<Top>, e: Edit, prog': seq<Top>, y: Id, s: Site)
    requires EditOk(prog, e, prog') && SiteOk(prog', y, s) && !s.Outside? && (s.top < e.k || s.top > e.k + 2)
    ensures ComesFrom(prog, e, y, s, y)
  {
    KeptSite(prog, e, prog', if s.top < e.k then s.top else s.top - 2, y, s);
    SiteUnique(prog, y, Back(prog, e, s));
    SiteBelow(prog, e.n, y, Back(prog, e, s));
  }

  lemma {:induction false} VecFrom(prog: seq<Top>, e: Edit, prog': seq<Top>, y: Id, s: Site)
    requires EditOk(prog, e, prog') && SiteOk(prog', y, s) && !s.Outside? && s.top == e.k + 2
    ensures ComesFrom(prog, e, y, s, e.vec)
  {
    SiteBelow(prog, e.n, e.vec, SiteOf(prog, e.vec));
  }

  /** A definition of the new function comes from one of the old function. */
  lemma {:induction false} BackOk(prog: seq<Top>, e: Edit, prog': seq<Top>, y: Id, s: Site) returns (x: Id)
    requires EditOk(prog, e, prog') && SiteOk(prog', y, s) && !s.Outside?
    ensures ComesFrom(prog, e, y, s, x)
  {
    if s.top == e.k + 2 {
      x := e.vec;
      VecFrom(prog, e, prog', y, s);
    } else if s.top == e.k + 1 {
      assert CoreDef(prog, e, prog', y, s);
      CoreFrom(prog, e, prog', y, s);
      x := y - e.n;
    } else {
      x := y;
      KeptFrom(prog, e, prog', y, s);
    }
  }

  /** One name has one site. */
  lemma {:induction false} BackInjective(prog: seq<Top>, e: Edit, y: Id, s: Site, s': Site, x: Id, x': Id)
    requires ComesFrom(prog, e, y, s, x) && ComesFrom(prog, e, y, s', x')
    ensures s == s'
  {
    assert x == x';
  }

  lemma {:induction false} SiteNew(prog: seq<Top>, e: Edit, prog': seq<Top>, y: Id, s: Site)
    requires EditOk(prog, e, prog') && SiteOk(prog', y, s) && !s.Outside?
    ensures SiteOf(prog', y) == s
  {
    SiteFound(prog', y, 0, s);
    var x := BackOk(prog, e, prog', y, s);
    var x' := BackOk(prog, e, prog', y, SiteOf(prog', y));
    BackInjective(prog, e, y, s, SiteOf(prog', y), x, x');
  }

  /** An argument is still one. */
  lemma {:induction false} OutsideNew(prog: seq<Top>, e: Edit, prog': seq<Top>, x: Id)
    requires EditOk(prog, e, prog') && SiteOf(prog, x).Outside? && x < e.n
    ensures SiteOf(prog', x).Outside?
  {
    var s := SiteOf(prog', x);
    if !s.Outside? {
      var x' := BackOk(prog, e, prog', x, s);
    }
  }

  /** A definition outside the edit keeps its name. */
  lemma {:induction false} SiteKept(prog: seq<Top>, e: Edit, prog': seq<Top>, v: Id)
    requires EditOk(prog, e, prog') && !SiteOf(prog, v).Outside? && SiteOf(prog, v).top != e.k
    ensures SiteOf(prog', v) == WithTop(SiteOf(prog, v), Moved(e, SiteOf(prog, v).top))
  {
    var s := SiteOf(prog, v);
    assert KeptAt(prog, e, prog', s.top);
    RenamedForward(e.m, prog[s.top], v, s, Moved(e, s.top), prog, prog');
    SiteNew(prog, e, prog', v, WithTop(s, Moved(e, s.top)));
  }

  lemma {:induction false} RenamedForward(m: map<Id, Id>, top: Top, v: Id, s: Site, i: nat, prog: seq<Top>, prog': seq<Top>)
    requires !s.Outside? && s.top < |prog| && prog[s.top] == top && i < |prog'| && SiteOk(prog, v, s)
    requires prog'[i] == RenameTop(m, top) || (top.Simple? && !Defines(top.stmt))
    ensures SiteOk(prog', v, WithTop(s, i))
  {
    match s {
      case At(_) =>
      case Result(_, r) =>
      case Arg(_, a) =>
      case InBody(_, p) =>
      case Induction(_) =>
    }
  }

  // ----- the edited function is in SSA form -----

  /** Every redirected value but the accumulator is a result of the new operation. */
  ghost predicate CoreResults(prog: seq<Top>, e: Edit, prog': seq<Top>)
  {
    forall x :: x in e.m && x != e.vec ==> IsResult(prog', x + e.n, e.k + 1)
  }

  ghost predicate IsResult(prog: seq<Top>, y: Id, k: nat) {
    exists r: nat :: SiteOk(prog, y, Result(k, r))
  }

  lemma {:induction false} RedirectedSite(prog: seq<Top>, e: Edit, prog': seq<Top>, x: Id)
    requires EditOk(prog, e, prog') && CoreResults(prog, e, prog') && x in e.m
    ensures Before(SiteOf(prog', x + e.n), e.k + 3)
  {
    if x == e.vec {
      SiteNew(prog, e, prog', x + e.n, At(e.k + 2));
    } else {
      ResultSite(prog, e, prog', x + e.n);
    }
  }

  lemma {:induction false} ResultSite(prog: seq<Top>, e: Edit, prog': seq<Top>, y: Id)
    requires EditOk(prog, e, prog') && IsResult(prog', y, e.k + 1)
    ensures Before(SiteOf(prog', y), e.k + 3)
  {
    var r: nat :| SiteOk(prog', y, Result(e.k + 1, r));
    SiteNew(prog, e, prog', y, Result(e.k + 1, r));
  }

  lemma {:induction false} OtherMoved(prog: seq<Top>, e: Edit, prog': seq<Top>, x: Id)
    requires EditOk(prog, e, prog') && x < e.n && (SiteOf(prog, x).Outside? || SiteOf(prog, x).top != e.k)
    ensures var s := SiteOf(prog, x);
            SiteOf(prog', x) == if s.Outside? then s else WithTop(s, Moved(e, s.top))
  {
    if SiteOf(prog, x).Outside? { OutsideNew(prog, e, prog', x); } else { SiteKept(prog, e, prog', x); }
  }

  lemma BeforeMoved(e: Edit, s: Site, i: nat)
    requires Before(s, i) && i != e.k && (s.Outside? || s.top != e.k)
    ensures Before(if s.Outside? then s else WithTop(s, Moved(e, s.top)), Moved(e, i))
  {
  }

  lemma BeforeLater(s: Site, i: nat, j: nat)
    requires Before(s, i) && i <= j
    ensures Before(s, j)
  {
  }

  lemma {:induction false} RedirectedMoved(prog: seq<Top>, e: Edit, prog': seq<Top>, x: Id, j: nat)
    requires EditOk(prog, e, prog') && CoreResults(prog, e, prog') && x in e.m && e.k + 3 <= j
    ensures Before(SiteOf(prog', Subst(e.m, x)), j)
  {
    RedirectedSite(prog, e, prog', x);
    BeforeLater(SiteOf(prog', x + e.n), e.k + 3, j);
  }

  lemma {:induction false} UnredirectedMoved(prog: seq<Top>, e: Edit, prog': seq<Top>, x: Id, i: nat)
    requires EditOk(prog, e, prog') && x !in e.m && i != e.k && x < e.n && Before(SiteOf(prog, x), i)
    requires SiteOf(prog, x).Outside? || SiteOf(prog, x).top != e.k
    ensures Before(SiteOf(prog', x), Moved(e, i))
  {
    OtherMoved(prog, e, prog', x);
    BeforeMoved(e, SiteOf(prog, x), i);
  }

  /** A value that exists before operation `i` exists, under its new name, before its new place. */
  lemma {:induction false} UseMoved(prog: seq<Top>, e: Edit, prog': seq<Top>, x: Id, i: nat)
    requires EditOk(prog, e, prog') && CoreResults(prog, e, prog') && i != e.k && x < e.n && Before(SiteOf(prog, x), i)
    ensures Before(SiteOf(prog', Subst(e.m, x)), Moved(e, i))
  {
    InMap(prog, e, x, i);
    if x in e.m {
      RedirectedMoved(prog, e, prog', x, Moved(e, i));
    } else {
      UnredirectedMoved(prog, e, prog', x, i);
    }
  }

  lemma InMap(prog: seq<Top>, e: Edit, x: Id, i: nat)
    requires Redirects(prog, e) && Before(SiteOf(prog, x), i)
    ensures x in e.m ==> e.k < i && Subst(e.m, x) == x + e.n
    ensures x !in e.m ==> (SiteOf(prog, x).Outside? || SiteOf(prog, x).top != e.k) && Subst(e.m, x) == x
  {
  }

  lemma {:induction false} UseEarly(prog: seq<Top>, e: Edit, prog': seq<Top>, x: Id)
    requires EditOk(prog, e, prog') && x < e.n && Before(SiteOf(prog, x), e.k)
    ensures SiteOf(prog', x) == SiteOf(prog, x)
  {
    OtherMoved(prog, e, prog', x);
  }

  lemma {:induction false} UseVisible(prog: seq<Top>, e: Edit, prog': seq<Top>, x: Id, i: nat, p: nat)
    requires EditOk(prog, e, prog') && CoreResults(prog, e, prog') && i != e.k && x < e.n && Visible(SiteOf(prog, x), i, p)
    ensures Visible(SiteOf(prog', Subst(e.m, x)), Moved(e, i), p)
  {
    if Before(SiteOf(prog, x), i) { UseMoved(prog, e, prog', x, i); } else { SiteKept(prog, e, prog', x); }
  }

  lemma RenamedUses(m: map<Id, Id>, s: Stmt, def: Id, u: Id) returns (x: Id)
    requires u in Uses(Renamed(m, s, def))
    ensures x in Uses(s) && u == Subst(m, x)
  {
    match s {
      case Read(_, addr) => x := addr;
      case Contract(_, lhs, rhs, acc, _, _) => x := if u == Subst(m, lhs) then lhs else if u == Subst(m, rhs) then rhs else acc;
      case Other(_, _, args) =>
        var i :| 0 <= i < |args| && Subst(m, args[i]) == u;
        x := args[i];
      case Write(addr, vec) => x := if u == Subst(m, addr) then addr else vec;
      case TileLoad(_, addr) => x := addr;
      case TileMac(_, lhs, rhs) => x := if u == Subst(m, lhs) then lhs else rhs;
      case TileStore(_, addr) => x := addr;
      case _ => x := u;
    }
  }

  /** Every name in use is below `n`. */
  lemma {:induction false} UseBelow(prog: seq<Top>, n: nat, i: nat, u: Id)
    requires UsesBelow(prog, n) && i < |prog| && u in TopUses(prog[i])
    ensures u < n
  {
    UsedNamesHas(prog, i);
  }

  lemma {:induction false} BodyUseBelow(prog: seq<Top>, n: nat, i: nat, p: nat, u: Id)
    requires UsesBelow(prog, n) && i < |prog| && prog[i].For? && p < |prog[i].loop.body| && u in Uses(prog[i].loop.body[p])
    ensures u < n
  {
    BodyUsesHas(prog[i].loop.body, p);
    UseBelow(prog, n, i, u);
  }

  /** An operand of operation `i`, and where it stands in the new text. */
  lemma {:induction false} OperandMoved(prog: seq<Top>, e: Edit, prog': seq<Top>, i: nat, u: Id)
    requires EditOk(prog, e, prog') && CoreResults(prog, e, prog') && i < |prog| && i != e.k && prog[i].Simple? && u in Uses(prog[i].stmt)
    ensures Before(SiteOf(prog', Subst(e.m, u)), Moved(e, i))
  {
    assert SsaTop(prog, i);
    UseBelow(prog, e.n, i, u);
    UseMoved(prog, e, prog', u, i);
  }

  lemma {:induction false} KeptStmtSsa(prog: seq<Top>, e: Edit, prog': seq<Top>, i: nat)
    requires EditOk(prog, e, prog') && CoreResults(prog, e, prog') && i < |prog| && i != e.k && prog[i].Simple?
    ensures SsaStmt(prog', Kept(prog, e, i).stmt, Moved(e, i))
  {
    var s, s' := prog[i].stmt, Kept(prog, e, i).stmt;
    assert KeptAt(prog, e, prog', i);
    if Defines(s') { SiteNew(prog, e, prog', s'.def, At(Moved(e, i))); }
    forall u | u in Uses(s') ensures Before(SiteOf(prog', u), Moved(e, i)) {
      var x := KeptUses(prog, e, i, u);
      OperandMoved(prog, e, prog', i, x);
    }
  }

  lemma KeptUses(prog: seq<Top>, e: Edit, i: nat, u: Id) returns (x: Id)
    requires EditAt(prog, e) && i < |prog| && prog[i].Simple? && u in Uses(Kept(prog, e, i).stmt)
    ensures x in Uses(prog[i].stmt) && u == Subst(e.m, x)
  {
    var s := prog[i].stmt;
    if i == e.w { x := s.addr; } else { x := RenamedUses(e.m, s, if Defines(s) then s.def else 0, u); }
  }

  lemma {:induction false} KeptBodySsa(prog: seq<Top>, e: Edit, prog': seq<Top>, i: nat, p: nat)
    requires EditOk(prog, e, prog') && CoreResults(prog, e, prog') && i < |prog| && i != e.k && prog[i].For? && p < |prog[i].loop.body|
    ensures SsaBodyStmt(prog', RenameStmt(e.m, prog[i].loop.body[p]), Moved(e, i), p)
  {
    var s := prog[i].loop.body[p];
    var s' := RenameStmt(e.m, s);
    assert SsaTop(prog, i) && SsaBodyStmt(prog, s, i, p) && KeptAt(prog, e, prog', i);
    if Defines(s') { SiteNew(prog, e, prog', s'.def, InBody(Moved(e, i), p)); }
    forall u | u in Uses(s') ensures Visible(SiteOf(prog', u), Moved(e, i), p) {
      var x := RenamedUses(e.m, s, if Defines(s) then s.def else 0, u);
      BodyUseBelow(prog, e.n, i, p, x);
      UseVisible(prog, e, prog', x, i, p);
    }
  }

  lemma {:induction false} LoopOperandMoved(prog: seq<Top>, e: Edit, prog': seq<Top>, i: nat, u: Id)
    requires EditOk(prog, e, prog') && CoreResults(prog, e, prog') && i < |prog| && i != e.k && u in TopUses(prog[i])
    ensures Before(SiteOf(prog, u), i) ==> Before(SiteOf(prog', Subst(e.m, u)), Moved(e, i))
    ensures prog[i].For? && Visible(SiteOf(prog, u), i, |prog[i].loop.body|) ==>
            Visible(SiteOf(prog', Subst(e.m, u)), Moved(e, i), |prog[i].loop.body|)
  {
    UseBelow(prog, e.n, i, u);
    if Before(SiteOf(prog, u), i) {
      UseMoved(prog, e, prog', u, i);
    } else if prog[i].For? && Visible(SiteOf(prog, u), i, |prog[i].loop.body|) {
      UseVisible(prog, e, prog', u, i, |prog[i].loop.body|);
    }
  }

  lemma {:induction false} OperandsMoved(prog: seq<Top>, e: Edit, prog': seq<Top>, i: nat, j: nat)
    requires EditOk(prog, e, prog') && CoreResults(prog, e, prog') && i < |prog| && i != e.k && prog[i].For?
    requires j == Moved(e, i)
    ensures var l' := RenameLoop(e.m, prog[i].loop);
            && Before(SiteOf(prog', l'.lb), j) && Before(SiteOf(prog', l'.ub), j) && Before(SiteOf(prog', l'.step), j)
            && (forall r :: 0 <= r < |l'.inits| ==> Before(SiteOf(prog', l'.inits[r]), j))
            && (forall r :: 0 <= r < |l'.yielded| ==> Visible(SiteOf(prog', l'.yielded[r]), j, |l'.body|))
  {
    var l := prog[i].loop;
    assert SsaTop(prog, i);
    LoopUses(l);
    LoopOperandMoved(prog, e, prog', i, l.lb);
    LoopOperandMoved(prog, e, prog', i, l.ub);
    LoopOperandMoved(prog, e, prog', i, l.step);
    forall r | 0 <= r < |l.inits| ensures Before(SiteOf(prog', Subst(e.m, l.inits[r])), j) { LoopOperandMoved(prog, e, prog', i, l.inits[r]); }
    forall r | 0 <= r < |l.yielded| ensures Visible(SiteOf(prog', Subst(e.m, l.yielded[r])), j, |l.body|) {
      LoopOperandMoved(prog, e, prog', i, l.yielded[r]);
    }
  }

  lemma {:induction false} KeptLoopSsa(prog: seq<Top>, e: Edit, prog': seq<Top>, i: nat)
    requires EditOk(prog, e, prog') && CoreResults(prog, e, prog') && i < |prog| && i != e.k && prog[i].For?
    ensures SsaLoop(prog', RenameLoop(e.m, prog[i].loop), Moved(e, i))
  {
    var l, l', j := prog[i].loop, RenameLoop(e.m, prog[i].loop), Moved(e, i);
    assert SsaTop(prog, i) && KeptAt(prog, e, prog', i);
    SiteNew(prog, e, prog', l.iv, Induction(j));
    forall r | 0 <= r < |l.results| ensures SiteOf(prog', l.results[r]) == Result(j, r) {
      SiteNew(prog, e, prog', l.results[r], Result(j, r));
    }
    forall a | 0 <= a < |l.args| ensures SiteOf(prog', l.args[a]) == Arg(j, a) { SiteNew(prog, e, prog', l.args[a], Arg(j, a)); }
    forall p | 0 <= p < |l'.body| ensures SsaBodyStmt(prog', l'.body[p], j, p) { KeptBodySsa(prog, e, prog', i, p); }
    OperandsMoved(prog, e, prog', i, j);
  }

  ghost predicate CoreSsa(prog': seq<Top>, e: Edit) {
    match e.core
    case Simple(s) => SsaStmt(prog', s, e.k + 1)
    case For(l) => SsaLoop(prog', l, e.k + 1)
  }

  ghost predicate SsaAt(prog: seq<Top>, k: nat) {
    k < |prog| && SsaTop(prog, k)
  }

  lemma CoreTop(prog': seq<Top>, e: Edit)
    requires e.k + 1 < |prog'| && prog'[e.k + 1] == e.core && CoreSsa(prog', e)
    ensures SsaAt(prog', e.k + 1)
  {
  }

  /** One definition per value, before its uses, once the new operation itself is well formed. */
  lemma {:induction false} EditedSsa(prog: seq<Top>, e: Edit, prog': seq<Top>)
    requires EditOk(prog, e, prog') && CoreResults(prog, e, prog') && CoreSsa(prog', e)
    ensures Ssa(prog')
  {
    CoreTop(prog', e);
    forall j | 0 <= j < |prog'| ensures SsaTop(prog', j) {
      if j != e.k + 1 { EditedTopSsa(prog, e, prog', j); }
    }
  }

  lemma {:induction false} EditedTopSsa(prog: seq<Top>, e: Edit, prog': seq<Top>, j: nat)
    requires EditOk(prog, e, prog') && CoreResults(prog, e, prog') && j < |prog'| && j != e.k + 1
    ensures SsaAt(prog', j)
  {
    if j == e.k || j == e.k + 2 {
      AroundSsa(prog, e, prog');
    } else if j < e.k {
      KeptTopSsa(prog, e, prog', j);
    } else {
      KeptTopSsa(prog, e, prog', j - 2);
    }
  }

  lemma {:induction false} AroundSsa(prog: seq<Top>, e: Edit, prog': seq<Top>)
    requires EditOk(prog, e, prog')
    ensures SsaAt(prog', e.k) && SsaAt(prog', e.k + 2)
  {
    forall u | u in Uses(e.init) ensures Before(SiteOf(prog', u), e.k) { UseEarly(prog, e, prog', u); }
    SiteNew(prog, e, prog', e.vec + e.n, At(e.k + 2));
  }

  lemma {:induction false} KeptTopSsa(prog: seq<Top>, e: Edit, prog': seq<Top>, i: nat)
    requires EditOk(prog, e, prog') && CoreResults(prog, e, prog') && i < |prog| && i != e.k
    ensures SsaAt(prog', Moved(e, i))
  {
    assert KeptAt(prog, e, prog', i);
    if prog[i].Simple? { KeptStmtSsa(prog, e, prog', i); } else { KeptLoopSsa(prog, e, prog', i); }
  }
}
