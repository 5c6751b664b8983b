/** The rewrites of the matrix pass are edits that keep SSA form. */
module PassEdits {
  import opened Options
  import opened TensorIR
  import opened TileRewrite
  import opened MatrixProgram
  import opened MatrixExact
  import opened MatrixPass
  import opened MatrixAlways
  import opened ChainAnalysis
  import opened SsaEdits
  import opened ChainTransport
  import So = ChainSoundness
  import St = StraightPass

  // ----- the new loop body, statement by statement -----

  /** The mapping in force at statement `p`. */
  function MapAt(body: seq<Stmt>, m: map<Id, Id>, updates: set<Id>, n: nat, p: nat): map<Id, Id>
    requires p <= |body|
  {
    if p == 0 then m else MapAt(body[1..], NextMap(body[0], m, updates, n), updates, n, p - 1)
  }

  lemma {:induction false} RewriteAt(body: seq<Stmt>, m: map<Id, Id>, updates: set<Id>, tile: nat, n: nat, p: nat)
    requires p < |body|
    ensures |RewriteBody(body, m, updates, tile, n)| == |body|
    ensures RewriteBody(body, m, updates, tile, n)[p] == RewriteStmt(body[p], MapAt(body, m, updates, n, p), updates, tile, n)
  {
    RewriteLength(body, m, updates, tile, n);
    if p > 0 { RewriteAt(body[1..], NextMap(body[0], m, updates, n), updates, tile, n, p - 1); }
  }

  lemma {:induction false} RewriteLength(body: seq<Stmt>, m: map<Id, Id>, updates: set<Id>, tile: nat, n: nat)
    ensures |RewriteBody(body, m, updates, tile, n)| == |body|
    decreases |body|
  {
    if body != [] { RewriteLength(body[1..], NextMap(body[0], m, updates, n), updates, tile, n); }
  }

  /** Statement `q` is cloned, and its result is called `x`. */
  predicate Clones(body: seq<Stmt>, updates: set<Id>, q: nat, x: Id)
    requires q < |body|
  {
    Defines(body[q]) && !IsUpdate(body[q], updates) && body[q].def == x
  }

  ghost predicate Shifts(m: map<Id, Id>, n: nat) {
    forall x :: x in m ==> m[x] == x + n
  }

  /** What is mapped at `p` was mapped at the start or is the result of a clone. */
  lemma {:induction false} MapFrom(body: seq<Stmt>, m: map<Id, Id>, updates: set<Id>, n: nat, p: nat, x: Id)
    requires p <= |body| && Shifts(m, n) && x in MapAt(body, m, updates, n, p)
    ensures MapAt(body, m, updates, n, p)[x] == x + n
    ensures x in m || exists q :: 0 <= q < p && Clones(body, updates, q, x)
    decreases p
  {
    if p > 0 {
      var m' := NextMap(body[0], m, updates, n);
      MapFrom(body[1..], m', updates, n, p - 1, x);
      if x !in m {
        if x in m' {
          assert Clones(body, updates, 0, x);
        } else {
          var q :| 0 <= q < p - 1 && Clones(body[1..], updates, q, x);
          assert Clones(body, updates, q + 1, x);
        }
      }
    }
  }

  lemma {:induction false} MapHas(body: seq<Stmt>, m: map<Id, Id>, updates: set<Id>, n: nat, p: nat, x: Id)
    requires p <= |body| && (x in m || exists q :: 0 <= q < p && Clones(body, updates, q, x))
    ensures x in MapAt(body, m, updates, n, p)
    decreases p
  {
    if p > 0 {
      if x !in NextMap(body[0], m, updates, n) {
        var q :| 0 <= q < p && Clones(body, updates, q, x);
        assert Clones(body[1..], updates, q - 1, x);
      }
      MapHas(body[1..], NextMap(body[0], m, updates, n), updates, n, p - 1, x);
    }
  }

  // ----- the loop rewrite -----

  ghost predicate LoopThere(prog: seq<Top>, f: Found) {
    && Ssa(prog) && f.k < f.w < |prog| && prog[f.k].For? && SameArity(prog[f.k].loop) && f.acc < |prog[f.k].loop.args|
    && prog[f.w].Simple? && prog[f.w].stmt.Write?
  }

  /** No use of an accumulator value but by the chain, and every other yield from outside. */
  ghost predicate LoopPrivate(prog: seq<Top>, f: Found) {
    && LoopThere(prog, f) && YieldsOutside(prog, f.k, f.acc)
    && So.Private(prog[f.k].loop.body, So.Names(f.us), Hidden(prog[f.k].loop, f.acc, So.Names(f.us)))
  }

  lemma FitIsPrivate(prog: seq<Top>, f: Found, tile: nat, n: nat)
    requires LoopFit(prog, f, tile, n)
    ensures LoopPrivate(prog, f)
  {
  }

  /** What the rewrite of a chain through a loop needs in order to keep SSA form. */
  ghost predicate LoopFit(prog: seq<Top>, f: Found, tile: nat, n: nat) {
    FoundOk(prog, f) && Usable(prog, f, tile, n) && UsesBelow(prog, n) && YieldsOutside(prog, f.k, f.acc)
  }

  function NewLoop(prog: seq<Top>, f: Found, tile: nat, n: nat): Loop
    requires LoopThere(prog, f)
  {
    RewriteLoop(prog[f.k].loop, f.acc, So.Names(f.us), tile, n)
  }

  function LoopEdit(prog: seq<Top>, f: Found, tile: nat, n: nat): Edit
    requires LoopThere(prog, f)
  {
    Edit(f.k, f.w, InitOp(f.init, tile), For(NewLoop(prog, f, tile, n)), Vec(prog, f), f.acc,
         ResultMap(prog[f.k].loop.results, n), tile, n)
  }

  lemma {:induction false} LoopEditIs(prog: seq<Top>, f: Found, tile: nat, n: nat)
    requires FoundOk(prog, f)
    ensures EditAt(prog, LoopEdit(prog, f, tile, n)) && Lowered(prog, f, f.acc, tile, n) == Edited(prog, LoopEdit(prog, f, tile, n))
  {
  }

  lemma {:induction false} LoopRedirects(prog: seq<Top>, f: Found, tile: nat, n: nat)
    requires FoundOk(prog, f)
    ensures Redirects(prog, LoopEdit(prog, f, tile, n)) && Vec(prog, f) in LoopEdit(prog, f, tile, n).m
  {
    var l := prog[f.k].loop;
    assert SsaTop(prog, f.k);
    forall x ensures x in l.results <==> (SiteOf(prog, x).At? || SiteOf(prog, x).Result?) && SiteOf(prog, x).top == f.k {
      if x in l.results {
        var r :| 0 <= r < |l.results| && l.results[r] == x;
        assert SiteOf(prog, l.results[r]) == Result(f.k, r);
      }
    }
  }

  lemma {:induction false} InitEarly(prog: seq<Top>, init: Init, v: Id, j: nat, k: nat, tile: nat, n: nat, u: Id)
    requires Ssa(prog) && UsesBelow(prog, n) && j < k < |prog| && prog[j].Simple? && Starts(prog[j].stmt, init, v)
    requires u in Uses(InitOp(init, tile))
    ensures Before(SiteOf(prog, u), k) && u < n && ReadAt(prog, j, u)
  {
    assert SsaTop(prog, j) && u in Uses(prog[j].stmt);
    UseBelow(prog, n, j, u);
  }

  /** Position `r` of the shortened list. */
  lemma DropShift(ids: seq<Id>, acc: nat, n: nat, r: nat)
    requires acc < |ids| && r < |ids| - 1
    ensures |Drop(Shift(ids, n), acc)| == |ids| - 1 && OldIndex(r, acc) < |ids| && OldIndex(r, acc) != acc
    ensures Drop(Shift(ids, n), acc)[r] == ids[OldIndex(r, acc)] + n
  {
  }

  /** The loop defines `v` at this place. */
  predicate LoopSite(l: Loop, v: Id, s: Site) {
    match s
    case Result(_, r) => r < |l.results| && l.results[r] == v
    case Arg(_, a) => a < |l.args| && l.args[a] == v
    case InBody(_, p) => p < |l.body| && Defines(l.body[p]) && l.body[p].def == v
    case Induction(_) => l.iv == v
    case _ => false
  }

  lemma LoopSiteOk(prog: seq<Top>, v: Id, s: Site)
    requires !s.Outside? && s.top < |prog| && prog[s.top].For?
    ensures SiteOk(prog, v, s) <==> LoopSite(prog[s.top].loop, v, s)
  {
  }

  lemma {:induction false} NewLoopSite(l: Loop, acc: nat, updates: set<Id>, tile: nat, n: nat, y: Id, s: Site, k: nat)
    requires SameArity(l) && acc < |l.args| && LoopSite(RewriteLoop(l, acc, updates, tile, n), y, s)
    ensures y >= n && LoopSite(l, y - n, CoreSite(s, k, acc)) && CoreSite(s, k, acc) != Result(k, acc)
  {
    match s {
      case Result(_, r) => DropShift(l.results, acc, n, r);
      case Arg(_, a) => DropShift(l.args, acc, n, a);
      case InBody(_, p) => CloneDef(l, acc, updates, tile, n, p);
      case Induction(_) =>
    }
  }

  lemma {:induction false} LoopCoreDef(prog: seq<Top>, f: Found, tile: nat, n: nat, e: Edit, prog': seq<Top>, y: Id, s: Site)
    requires LoopThere(prog, f) && e == LoopEdit(prog, f, tile, n) && IsEdited(prog, e, prog')
    ensures CoreDef(prog, e, prog', y, s)
  {
    if !s.Outside? && s.top == e.k + 1 && SiteOk(prog', y, s) {
      LoopSiteOk(prog', y, s);
      NewLoopSite(prog[f.k].loop, f.acc, So.Names(f.us), tile, n, y, s, f.k);
      var s0 := CoreSite(s, f.k, f.acc);
      LoopSiteOk(prog, y - n, s0);
      SiteUnique(prog, y - n, s0);
      SiteUnique(prog, Vec(prog, f), Result(f.k, f.acc));
    }
  }

  lemma {:induction false} CloneDef(l: Loop, acc: nat, updates: set<Id>, tile: nat, n: nat, p: nat)
    requires SameArity(l) && acc < |l.args| && p < |RewriteLoop(l, acc, updates, tile, n).body|
    ensures |RewriteLoop(l, acc, updates, tile, n).body| == |l.body|
    ensures var s := RewriteLoop(l, acc, updates, tile, n).body[p];
            Defines(s) ==> Defines(l.body[p]) && s.def == l.body[p].def + n
  {
    RewriteLength(l.body, ArgMap(l, acc, n), updates, tile, n);
    RewriteAt(l.body, ArgMap(l, acc, n), updates, tile, n, p);
  }

  lemma {:induction false} LoopEditOk(prog: seq<Top>, f: Found, tile: nat, n: nat, e: Edit, prog': seq<Top>)
    requires LoopFit(prog, f, tile, n) && e == LoopEdit(prog, f, tile, n) && IsEdited(prog, e, prog')
    ensures EditOk(prog, e, prog') && CoreResults(prog, e, prog')
  {
    LoopRedirects(prog, f, tile, n);
    LoopInitUses(prog, f, tile, n);
    LoopCore(prog, f, tile, n, e, prog');
  }

  lemma {:induction false} LoopInitUses(prog: seq<Top>, f: Found, tile: nat, n: nat)
    requires FoundOk(prog, f) && UsesBelow(prog, n)
    ensures forall u :: u in Uses(InitOp(f.init, tile)) ==> Before(SiteOf(prog, u), f.k) && u < n && ReadAt(prog, f.j, u)
  {
    forall u | u in Uses(InitOp(f.init, tile)) ensures Before(SiteOf(prog, u), f.k) && u < n && ReadAt(prog, f.j, u) {
      InitEarly(prog, f.init, prog[f.k].loop.inits[f.acc], f.j, f.k, tile, n, u);
    }
  }

  lemma {:induction false} LoopCore(prog: seq<Top>, f: Found, tile: nat, n: nat, e: Edit, prog': seq<Top>)
    requires LoopThere(prog, f) && e == LoopEdit(prog, f, tile, n) && IsEdited(prog, e, prog')
    ensures CoreDefs(prog, e, prog') && CoreResults(prog, e, prog')
  {
    forall y: Id, s: Site ensures CoreDef(prog, e, prog', y, s) { LoopCoreDef(prog, f, tile, n, e, prog', y, s); }
    forall x | x in e.m && x != e.vec ensures IsResult(prog', x + n, e.k + 1) { LoopCoreResult(prog, f, tile, n, e, prog', x); }
  }

  lemma {:induction false} LoopCoreResult(prog: seq<Top>, f: Found, tile: nat, n: nat, e: Edit, prog': seq<Top>, x: Id)
    requires LoopThere(prog, f) && e == LoopEdit(prog, f, tile, n) && IsEdited(prog, e, prog') && x in e.m && x != e.vec
    ensures IsResult(prog', x + n, e.k + 1)
  {
    var l := prog[f.k].loop;
    var r :| 0 <= r < |l.results| && l.results[r] == x;
    DropAt(Shift(l.results, n), f.acc, r);
    assert SiteOk(prog', x + n, Result(e.k + 1, NewIndex(r, f.acc)));
  }

  // ----- the new loop is well formed -----

  /** The mapping at statement `p` of the rewritten body. */
  function BodyMap(prog: seq<Top>, f: Found, n: nat, p: nat): map<Id, Id>
    requires LoopThere(prog, f) && p <= |prog[f.k].loop.body|
  {
    MapAt(prog[f.k].loop.body, ArgMap(prog[f.k].loop, f.acc, n), So.Names(f.us), n, p)
  }

  /** A value from outside the loop keeps its name. */
  lemma {:induction false} OuterOperand(prog: seq<Top>, f: Found, n: nat, p: nat, x: Id)
    requires LoopThere(prog, f) && p <= |prog[f.k].loop.body| && Before(SiteOf(prog, x), f.k)
    ensures Subst(BodyMap(prog, f, n, p), x) == x
  {
    var l, m := prog[f.k].loop, ArgMap(prog[f.k].loop, f.acc, n);
    if x in BodyMap(prog, f, n, p) {
      MapFrom(l.body, m, So.Names(f.us), n, p, x);
      if x in m {
        ArgSites(prog, f.k, x);
      } else {
        var q :| 0 <= q < p && Clones(l.body, So.Names(f.us), q, x);
        SiteUnique(prog, x, InBody(f.k, q));
      }
    }
  }

  /** One from the loop body is renamed. */
  lemma {:induction false} InnerOperand(prog: seq<Top>, f: Found, n: nat, p: nat, x: Id)
    requires LoopThere(prog, f) && p <= |prog[f.k].loop.body| && Visible(SiteOf(prog, x), f.k, p) && !Before(SiteOf(prog, x), f.k)
    requires x !in Hidden(prog[f.k].loop, f.acc, So.Names(f.us))
    ensures Subst(BodyMap(prog, f, n, p), x) == x + n
    ensures SiteOf(prog, x).InBody? ==> !IsUpdate(prog[f.k].loop.body[SiteOf(prog, x).pos], So.Names(f.us))
  {
    var l, m := prog[f.k].loop, ArgMap(prog[f.k].loop, f.acc, n);
    assert SsaTop(prog, f.k);
    if SiteOf(prog, x).InBody? {
      assert Clones(l.body, So.Names(f.us), SiteOf(prog, x).pos, x);
    } else {
      InArgs(l, SiteOf(prog, x), x);
      assert x in m;
    }
    MapHas(l.body, m, So.Names(f.us), n, p, x);
    MapFrom(l.body, m, So.Names(f.us), n, p, x);
  }

  lemma InArgs(l: Loop, s: Site, x: Id)
    requires (s.Arg? && s.index < |l.args| && l.args[s.index] == x) || (s.Induction? && l.iv == x)
    ensures x in ArgSet(l)
  {
  }

  /** The edited function around the new loop. */
  ghost predicate LoopEdited(prog: seq<Top>, f: Found, tile: nat, n: nat, e: Edit, prog': seq<Top>) {
    LoopPrivate(prog, f) && e == LoopEdit(prog, f, tile, n) && EditOk(prog, e, prog') && CoreResults(prog, e, prog')
  }

  /** A name that the new loop defines has its site there. */
  lemma {:induction false} LoopSiteNew(prog: seq<Top>, e: Edit, prog': seq<Top>, l': Loop, y: Id, s: Site)
    requires EditOk(prog, e, prog') && e.core == For(l') && !s.Outside? && s.top == e.k + 1 && LoopSite(l', y, s)
    ensures SiteOf(prog', y) == s
  {
    LoopSiteOk(prog', y, s);
    SiteNew(prog, e, prog', y, s);
  }

  /** A value of the loop body has its place in the new one. */
  lemma {:induction false} InnerSite(prog: seq<Top>, e: Edit, prog': seq<Top>, l: Loop, acc: nat, updates: set<Id>, p: nat,
                                     x: Id, s: Site)
    requires EditOk(prog, e, prog') && SameArity(l) && acc < |l.args| && e.core == For(RewriteLoop(l, acc, updates, e.tile, e.n))
    requires LoopSite(l, x, s) && !s.Result? && x != l.args[acc] && Visible(s, e.k, p)
    requires s.InBody? ==> !IsUpdate(l.body[s.pos], updates)
    ensures Visible(SiteOf(prog', x + e.n), e.k + 1, p)
  {
    NewSite(l, acc, updates, e.tile, e.n, x, s, e.k + 1);
    var s' := if s.Arg? then Arg(e.k + 1, NewIndex(s.index, acc)) else WithTop(s, e.k + 1);
    LoopSiteNew(prog, e, prog', RewriteLoop(l, acc, updates, e.tile, e.n), x + e.n, s');
  }

  lemma {:induction false} NewSite(l: Loop, acc: nat, updates: set<Id>, tile: nat, n: nat, x: Id, s: Site, k: nat)
    requires SameArity(l) && acc < |l.args| && LoopSite(l, x, s) && x != l.args[acc] && !s.Result?
    requires s.InBody? ==> !IsUpdate(l.body[s.pos], updates)
    ensures s.Arg? ==> s.index != acc
    ensures LoopSite(RewriteLoop(l, acc, updates, tile, n), x + n, if s.Arg? then Arg(k, NewIndex(s.index, acc)) else WithTop(s, k))
  {
    match s {
      case Arg(_, a) => DropAt(Shift(l.args, n), acc, a);
      case InBody(_, p) => RewriteAt(l.body, ArgMap(l, acc, n), updates, tile, n, p);
      case _ =>
    }
  }

  lemma {:induction false} InnerIsSite(prog: seq<Top>, f: Found, p: nat, x: Id)
    requires LoopThere(prog, f) && Visible(SiteOf(prog, x), f.k, p) && !Before(SiteOf(prog, x), f.k)
    requires x !in Hidden(prog[f.k].loop, f.acc, So.Names(f.us))
    ensures LoopSite(prog[f.k].loop, x, SiteOf(prog, x)) && !SiteOf(prog, x).Result? && x != prog[f.k].loop.args[f.acc]
  {
    LoopSiteOk(prog, x, SiteOf(prog, x));
  }

  /** The edit puts the new loop in the place of the old one. */
  ghost predicate ReplacesLoop(prog: seq<Top>, f: Found, e: Edit)
    requires LoopThere(prog, f)
  {
    e.k == f.k && e.core == For(RewriteLoop(prog[f.k].loop, f.acc, So.Names(f.us), e.tile, e.n))
  }

  lemma {:induction false} InnerPlace(prog: seq<Top>, f: Found, e: Edit, prog': seq<Top>, p: nat, x: Id)
    requires LoopThere(prog, f) && ReplacesLoop(prog, f, e) && EditOk(prog, e, prog')
    requires Visible(SiteOf(prog, x), f.k, p) && !Before(SiteOf(prog, x), f.k) && x !in Hidden(prog[f.k].loop, f.acc, So.Names(f.us))
    requires SiteOf(prog, x).InBody? ==> !IsUpdate(prog[f.k].loop.body[SiteOf(prog, x).pos], So.Names(f.us))
    ensures Visible(SiteOf(prog', x + e.n), f.k + 1, p)
  {
    InnerIsSite(prog, f, p, x);
    InnerSite(prog, e, prog', prog[f.k].loop, f.acc, So.Names(f.us), p, x, SiteOf(prog, x));
  }

  lemma {:induction false} OuterPlace(prog: seq<Top>, e: Edit, prog': seq<Top>, p: nat, x: Id)
    requires EditOk(prog, e, prog') && Before(SiteOf(prog, x), e.k) && x < e.n
    ensures Visible(SiteOf(prog', x), e.k + 1, p)
  {
    UseEarly(prog, e, prog', x);
  }

  /** The new name of an operand of the loop body. */
  ghost function BodyName(prog: seq<Top>, k: nat, n: nat, x: Id): Id {
    if Before(SiteOf(prog, x), k) then x else x + n
  }

  /** An operand of the new body is visible where it is used. */
  lemma {:induction false} NewOperand(prog: seq<Top>, f: Found, e: Edit, prog': seq<Top>, p: nat, x: Id)
    requires LoopThere(prog, f) && ReplacesLoop(prog, f, e) && EditOk(prog, e, prog')
    requires Visible(SiteOf(prog, x), f.k, p) && x < e.n && x !in Hidden(prog[f.k].loop, f.acc, So.Names(f.us))
    requires SiteOf(prog, x).InBody? ==> !IsUpdate(prog[f.k].loop.body[SiteOf(prog, x).pos], So.Names(f.us))
    ensures Visible(SiteOf(prog', BodyName(prog, f.k, e.n, x)), f.k + 1, p)
  {
    if Before(SiteOf(prog, x), f.k) {
      OuterPlace(prog, e, prog', p, x);
    } else {
      InnerPlace(prog, f, e, prog', p, x);
    }
  }

  /** An operand of the rewritten statement comes from one that is not hidden. */
  lemma {:induction false} NewUses(s: Stmt, m: map<Id, Id>, updates: set<Id>, hidden: set<Id>, tile: nat, n: nat, u: Id) returns (x: Id)
    requires So.PrivateStmt(s, updates, hidden) && u in Uses(RewriteStmt(s, m, updates, tile, n))
    ensures x in Uses(s) && x !in hidden && u == Subst(m, x)
  {
    if IsUpdate(s, updates) {
      x := if u == Subst(m, s.lhs) then s.lhs else s.rhs;
    } else {
      x := RenamedUses(m, s, FreshName(s, n), u);
    }
  }

  lemma {:induction false} NewStmtUse(prog: seq<Top>, f: Found, tile: nat, n: nat, e: Edit, prog': seq<Top>, p: nat, u: Id)
    requires LoopEdited(prog, f, tile, n, e, prog') && p < |prog[f.k].loop.body|
    requires u in Uses(RewriteStmt(prog[f.k].loop.body[p], BodyMap(prog, f, n, p), So.Names(f.us), tile, n))
    ensures Visible(SiteOf(prog', u), f.k + 1, p)
  {
    var x := BodyUse(prog, f, tile, n, p, u);
    NewOperand(prog, f, e, prog', p, x);
  }

  lemma {:induction false} BodyUse(prog: seq<Top>, f: Found, tile: nat, n: nat, p: nat, u: Id) returns (x: Id)
    requires LoopPrivate(prog, f) && UsesBelow(prog, n) && p < |prog[f.k].loop.body|
    requires u in Uses(RewriteStmt(prog[f.k].loop.body[p], BodyMap(prog, f, n, p), So.Names(f.us), tile, n))
    ensures x in Uses(prog[f.k].loop.body[p]) && Visible(SiteOf(prog, x), f.k, p) && x < n
    ensures x !in Hidden(prog[f.k].loop, f.acc, So.Names(f.us)) && u == BodyName(prog, f.k, n, x)
    ensures SiteOf(prog, x).InBody? ==> !IsUpdate(prog[f.k].loop.body[SiteOf(prog, x).pos], So.Names(f.us))
  {
    var l, updates := prog[f.k].loop, So.Names(f.us);
    assert SsaTop(prog, f.k) && SsaBodyStmt(prog, l.body[p], f.k, p);
    assert So.PrivateStmt(l.body[p], updates, Hidden(l, f.acc, updates));
    x := NewUses(l.body[p], BodyMap(prog, f, n, p), updates, Hidden(l, f.acc, updates), tile, n, u);
    BodyUseBelow(prog, n, f.k, p, x);
    if Before(SiteOf(prog, x), f.k) { OuterOperand(prog, f, n, p, x); } else { InnerOperand(prog, f, n, p, x); }
  }

  lemma {:induction false} NewStmtSsa(prog: seq<Top>, f: Found, tile: nat, n: nat, e: Edit, prog': seq<Top>, p: nat, s: Stmt)
    requires LoopEdited(prog, f, tile, n, e, prog') && p < |NewLoop(prog, f, tile, n).body| && s == NewLoop(prog, f, tile, n).body[p]
    ensures SsaBodyStmt(prog', s, f.k + 1, p)
  {
    if Defines(s) { LoopSiteNew(prog, e, prog', NewLoop(prog, f, tile, n), s.def, InBody(f.k + 1, p)); }
    NewStmtAt(prog, f, tile, n, p);
    forall u | u in Uses(s) ensures Visible(SiteOf(prog', u), f.k + 1, p) { NewStmtUse(prog, f, tile, n, e, prog', p, u); }
  }

  lemma {:induction false} NewStmtAt(prog: seq<Top>, f: Found, tile: nat, n: nat, p: nat)
    requires LoopThere(prog, f) && p < |NewLoop(prog, f, tile, n).body|
    ensures p < |prog[f.k].loop.body|
    ensures NewLoop(prog, f, tile, n).body[p] == RewriteStmt(prog[f.k].loop.body[p], BodyMap(prog, f, n, p), So.Names(f.us), tile, n)
  {
    var l := prog[f.k].loop;
    RewriteLength(l.body, ArgMap(l, f.acc, n), So.Names(f.us), tile, n);
    RewriteAt(l.body, ArgMap(l, f.acc, n), So.Names(f.us), tile, n, p);
  }

  /** Operands of the loop itself are those of the old one. */
  lemma {:induction false} NewLoopOperand(prog: seq<Top>, f: Found, tile: nat, n: nat, e: Edit, prog': seq<Top>, u: Id)
    requires LoopEdited(prog, f, tile, n, e, prog') && OldOperand(prog, f.k, u)
    ensures Before(SiteOf(prog', u), f.k + 1)
  {
    UseBelow(prog, n, f.k, u);
    UseEarly(prog, e, prog', u);
  }

  lemma {:induction false} NewLoopOperands(prog: seq<Top>, f: Found, tile: nat, n: nat, e: Edit, prog': seq<Top>, l': Loop)
    requires LoopEdited(prog, f, tile, n, e, prog') && l' == NewLoop(prog, f, tile, n)
    ensures LoopOperandsAt(prog', l', f.k + 1)
  {
    OldOperands(prog, f, tile, n, l');
    NewLoopOperand(prog, f, tile, n, e, prog', l'.lb);
    NewLoopOperand(prog, f, tile, n, e, prog', l'.ub);
    NewLoopOperand(prog, f, tile, n, e, prog', l'.step);
    forall r | 0 <= r < |l'.inits| ensures Before(SiteOf(prog', l'.inits[r]), f.k + 1) { NewLoopOperand(prog, f, tile, n, e, prog', l'.inits[r]); }
    forall r | 0 <= r < |l'.yielded| ensures Before(SiteOf(prog', l'.yielded[r]), f.k + 1) {
      NewLoopOperand(prog, f, tile, n, e, prog', l'.yielded[r]);
    }
  }

  ghost predicate OldOperand(prog: seq<Top>, k: nat, u: Id)
    requires k < |prog|
  {
    u in TopUses(prog[k]) && Before(SiteOf(prog, u), k)
  }

  lemma {:induction false} OldOperands(prog: seq<Top>, f: Found, tile: nat, n: nat, l': Loop)
    requires LoopThere(prog, f) && YieldsOutside(prog, f.k, f.acc) && l' == NewLoop(prog, f, tile, n)
    ensures OldOperand(prog, f.k, l'.lb) && OldOperand(prog, f.k, l'.ub) && OldOperand(prog, f.k, l'.step)
    ensures forall r :: 0 <= r < |l'.inits| ==> OldOperand(prog, f.k, l'.inits[r])
    ensures forall r :: 0 <= r < |l'.yielded| ==> OldOperand(prog, f.k, l'.yielded[r])
  {
    var l := prog[f.k].loop;
    assert SsaTop(prog, f.k);
    LoopUses(l);
    forall r | 0 <= r < |l'.inits| ensures OldOperand(prog, f.k, l'.inits[r]) { assert l'.inits[r] == l.inits[OldIndex(r, f.acc)]; }
    forall r | 0 <= r < |l'.yielded| ensures OldOperand(prog, f.k, l'.yielded[r]) {
      assert l'.yielded[r] == l.yielded[OldIndex(r, f.acc)];
    }
  }

  /** The names that the new loop defines. */
  ghost predicate LoopNamesAt(prog': seq<Top>, l': Loop, k: nat) {
    && SiteOf(prog', l'.iv) == Induction(k)
    && (forall r :: 0 <= r < |l'.results| ==> SiteOf(prog', l'.results[r]) == Result(k, r))
    && (forall a :: 0 <= a < |l'.args| ==> SiteOf(prog', l'.args[a]) == Arg(k, a))
  }

  /** Its operands, all from before it. */
  ghost predicate LoopOperandsAt(prog': seq<Top>, l': Loop, k: nat) {
    && Before(SiteOf(prog', l'.lb), k) && Before(SiteOf(prog', l'.ub), k) && Before(SiteOf(prog', l'.step), k)
    && (forall r :: 0 <= r < |l'.inits| ==> Before(SiteOf(prog', l'.inits[r]), k))
    && (forall r :: 0 <= r < |l'.yielded| ==> Before(SiteOf(prog', l'.yielded[r]), k))
  }

  ghost predicate LoopBodyAt(prog': seq<Top>, l': Loop, k: nat) {
    forall p :: 0 <= p < |l'.body| ==> SsaBodyStmt(prog', l'.body[p], k, p)
  }

  ghost predicate LoopPartsAt(prog': seq<Top>, l': Loop, k: nat) {
    SameArity(l') && LoopNamesAt(prog', l', k) && LoopOperandsAt(prog', l', k) && LoopBodyAt(prog', l', k)
  }

  lemma LoopAssembled(prog': seq<Top>, e: Edit, l': Loop)
    requires e.core == For(l') && LoopPartsAt(prog', l', e.k + 1)
    ensures CoreSsa(prog', e)
  {
  }

  lemma {:induction false} NewLoopNames(prog: seq<Top>, e: Edit, prog': seq<Top>, l': Loop)
    requires EditOk(prog, e, prog') && e.core == For(l')
    ensures LoopNamesAt(prog', l', e.k + 1)
  {
    var k' := e.k + 1;
    LoopSiteNew(prog, e, prog', l', l'.iv, Induction(k'));
    forall r | 0 <= r < |l'.results| ensures SiteOf(prog', l'.results[r]) == Result(k', r) {
      LoopSiteNew(prog, e, prog', l', l'.results[r], Result(k', r));
    }
    forall a | 0 <= a < |l'.args| ensures SiteOf(prog', l'.args[a]) == Arg(k', a) { LoopSiteNew(prog, e, prog', l', l'.args[a], Arg(k', a)); }
  }

  lemma {:induction false} NewLoopBody(prog: seq<Top>, f: Found, tile: nat, n: nat, e: Edit, prog': seq<Top>, l': Loop)
    requires LoopEdited(prog, f, tile, n, e, prog') && l' == NewLoop(prog, f, tile, n)
    ensures LoopBodyAt(prog', l', f.k + 1)
  {
    forall p | 0 <= p < |l'.body| ensures SsaBodyStmt(prog', l'.body[p], f.k + 1, p) { NewStmtSsa(prog, f, tile, n, e, prog', p, l'.body[p]); }
  }

  lemma {:induction false} NewLoopParts(prog: seq<Top>, f: Found, tile: nat, n: nat, e: Edit, prog': seq<Top>, l': Loop)
    requires LoopEdited(prog, f, tile, n, e, prog') && l' == NewLoop(prog, f, tile, n)
    ensures LoopPartsAt(prog', l', e.k + 1)
  {
    NewLoopShape(prog[f.k].loop, f.acc, So.Names(f.us), tile, n);
    NewLoopNames(prog, e, prog', l');
    NewLoopBody(prog, f, tile, n, e, prog', l');
    NewLoopOperands(prog, f, tile, n, e, prog', l');
  }

  lemma {:induction false} NewLoopSsa(prog: seq<Top>, f: Found, tile: nat, n: nat, e: Edit, prog': seq<Top>)
    requires LoopEdited(prog, f, tile, n, e, prog')
    ensures CoreSsa(prog', e)
  {
    NewLoopParts(prog, f, tile, n, e, prog', e.core.loop);
    LoopAssembled(prog', e, e.core.loop);
  }

  // ----- the new loop among the other operations -----

  lemma {:induction false} NewLoopBelow(l: Loop, acc: nat, updates: set<Id>, tile: nat, n: nat)
    requires SameArity(l) && acc < |l.args| && TopBelow(For(l), n)
    ensures TopBelow(For(RewriteLoop(l, acc, updates, tile, n)), 2 * n)
  {
    var l' := RewriteLoop(l, acc, updates, tile, n);
    forall p | 0 <= p < |l'.body| && Defines(l'.body[p]) ensures l'.body[p].def < 2 * n { CloneDef(l, acc, updates, tile, n, p); }
    forall i | 0 <= i < |l'.args| ensures l'.args[i] < 2 * n { DropShift(l.args, acc, n, i); }
    forall i | 0 <= i < |l'.results| ensures l'.results[i] < 2 * n { DropShift(l.results, acc, n, i); }
  }

  lemma {:induction false} NewLoopLeaves(l: Loop, acc: nat, updates: set<Id>, tile: nat, n: nat, t: nat)
    requires SameArity(l) && acc < |l.args| && LeavesTile(l.body, t) && t != tile
    ensures LeavesTile(RewriteLoop(l, acc, updates, tile, n).body, t)
  {
    RewriteLength(l.body, ArgMap(l, acc, n), updates, tile, n);
    forall p | 0 <= p < |l.body| ensures !TouchesTile(RewriteLoop(l, acc, updates, tile, n).body[p], t) {
      RewriteAt(l.body, ArgMap(l, acc, n), updates, tile, n, p);
      assert !TouchesTile(l.body[p], t);
    }
  }

  lemma {:induction false} NewLoopQuiet(l: Loop, acc: nat, updates: set<Id>, tile: nat, n: nat)
    requires SameArity(l) && acc < |l.args| && QuietBody(l.body)
    ensures QuietBody(RewriteLoop(l, acc, updates, tile, n).body)
  {
    RewriteLength(l.body, ArgMap(l, acc, n), updates, tile, n);
    forall p | 0 <= p < |l.body| ensures QuietStmt(RewriteLoop(l, acc, updates, tile, n).body[p]) {
      RewriteAt(l.body, ArgMap(l, acc, n), updates, tile, n, p);
      assert QuietStmt(l.body[p]);
    }
  }

  lemma {:induction false} NewLoopUses(prog: seq<Top>, f: Found, tile: nat, n: nat, u: Id)
    requires LoopFit(prog, f, tile, n) && u in TopUses(For(NewLoop(prog, f, tile, n)))
    ensures u < 2 * n && (u < n ==> u in TopUses(prog[f.k]))
  {
    var l' := NewLoop(prog, f, tile, n);
    if u in BodyUses(l'.body) {
      NewBodyUses(prog, f, tile, n, u);
    } else {
      OldOperands(prog, f, tile, n, l');
      NotInBody(l', u);
      UseBelow(prog, n, f.k, u);
    }
  }

  lemma NotInBody(l: Loop, u: Id)
    requires u in TopUses(For(l)) && u !in BodyUses(l.body)
    ensures u in {l.lb, l.ub, l.step} || u in l.inits || u in l.yielded
  {
  }

  lemma {:induction false} NewBodyUses(prog: seq<Top>, f: Found, tile: nat, n: nat, u: Id)
    requires LoopFit(prog, f, tile, n) && u in BodyUses(NewLoop(prog, f, tile, n).body)
    ensures u < 2 * n && (u < n ==> u in TopUses(prog[f.k]))
  {
    var p := BodyUsesFrom(NewLoop(prog, f, tile, n).body, u);
    NewStmtAt(prog, f, tile, n, p);
    FitIsPrivate(prog, f, tile, n);
    var x := BodyUse(prog, f, tile, n, p, u);
    BodyUsesHas(prog[f.k].loop.body, p);
    LoopUses(prog[f.k].loop);
  }

  lemma {:induction false} LoopCoreFacts(prog: seq<Top>, f: Found, tile: nat, n: nat, e: Edit)
    requires LoopFit(prog, f, tile, n) && e == LoopEdit(prog, f, tile, n)
    ensures TopBelow(e.core, 2 * n) && CoreUses(prog, e) && InitUses(prog, e) && CoreLeaves(prog, e)
    ensures QuietStmt(e.init) && (QuietTop(prog[e.k]) ==> QuietTop(e.core))
  {
    var l, updates := prog[f.k].loop, So.Names(f.us);
    assert TopBelow(prog[f.k], n);
    NewLoopBelow(l, f.acc, updates, tile, n);
    forall u | u in TopUses(e.core) ensures u < 2 * n && (u < n ==> u in TopUses(prog[f.k])) { NewLoopUses(prog, f, tile, n, u); }
    LoopInitUses(prog, f, tile, n);
    forall t: nat | t != tile && TopLeaves(prog[f.k], t) ensures TopLeaves(e.core, t) && !TouchesTile(e.init, t) {
      NewLoopLeaves(l, f.acc, updates, tile, n, t);
    }
    if QuietBody(l.body) { NewLoopQuiet(l, f.acc, updates, tile, n); }
  }

  lemma {:induction false} LoopKeepsSsa(prog: seq<Top>, f: Found, tile: nat, n: nat, e: Edit, prog': seq<Top>)
    requires LoopEdited(prog, f, tile, n, e, prog')
    ensures Ssa(prog')
  {
    NewLoopSsa(prog, f, tile, n, e, prog');
    EditedSsa(prog, e, prog');
  }

  /** The rewrite of a chain through a loop is an edit that keeps SSA form. */
  lemma {:induction false} LoopIsEdit(prog: seq<Top>, f: Found, tile: nat, n: nat, e: Edit, prog': seq<Top>)
    requires LoopFit(prog, f, tile, n) && e == LoopEdit(prog, f, tile, n) && IsEdited(prog, e, prog')
    ensures PassEdit(prog, e, prog')
  {
    LoopEditOk(prog, f, tile, n, e, prog');
    FitIsPrivate(prog, f, tile, n);
    LoopKeepsSsa(prog, f, tile, n, e, prog');
    LoopCoreFacts(prog, f, tile, n, e);
  }

  lemma {:induction false} LoweredIsEdited(prog: seq<Top>, f: Found, tile: nat, n: nat)
    requires FoundOk(prog, f)
    ensures IsEdited(prog, LoopEdit(prog, f, tile, n), Lowered(prog, f, f.acc, tile, n))
  {
    LoopEditIs(prog, f, tile, n);
    LoopRedirects(prog, f, tile, n);
    EditedIs(prog, LoopEdit(prog, f, tile, n));
  }

  // ----- the rewrite without a loop -----

  ghost predicate SingleFit(prog: seq<Top>, f: St.Single, tile: nat, n: nat) {
    St.SingleOk(prog, f) && St.SingleUsable(prog, f, tile, n) && UsesBelow(prog, n)
  }

  function SingleEdit(prog: seq<Top>, f: St.Single, tile: nat, n: nat): Edit
    requires St.SingleOk(prog, f)
  {
    var u := prog[f.k].stmt;
    Edit(f.k, f.w, InitOp(f.init, tile), Simple(TileMac(tile, u.lhs, u.rhs)), u.def, 0, map[u.def := u.def + n], tile, n)
  }

  lemma {:induction false} SingleEditIs(prog: seq<Top>, f: St.Single, tile: nat, n: nat)
    requires St.SingleOk(prog, f)
    ensures EditAt(prog, SingleEdit(prog, f, tile, n)) && St.SingleLowered(prog, f, tile, n) == Edited(prog, SingleEdit(prog, f, tile, n))
    ensures Redirects(prog, SingleEdit(prog, f, tile, n))
  {
    assert SsaTop(prog, f.k);
  }

  lemma {:induction false} SingleInitUses(prog: seq<Top>, f: St.Single, tile: nat, n: nat)
    requires St.SingleOk(prog, f) && UsesBelow(prog, n)
    ensures forall u :: u in Uses(InitOp(f.init, tile)) ==> Before(SiteOf(prog, u), f.k) && u < n && ReadAt(prog, f.j, u)
  {
    forall u | u in Uses(InitOp(f.init, tile)) ensures Before(SiteOf(prog, u), f.k) && u < n && ReadAt(prog, f.j, u) {
      InitEarly(prog, f.init, prog[f.k].stmt.acc, f.j, f.k, tile, n, u);
    }
  }

  lemma {:induction false} SingleEditOk(prog: seq<Top>, f: St.Single, tile: nat, n: nat, e: Edit, prog': seq<Top>)
    requires SingleFit(prog, f, tile, n) && e == SingleEdit(prog, f, tile, n) && IsEdited(prog, e, prog') && Redirects(prog, e)
    ensures EditOk(prog, e, prog') && CoreResults(prog, e, prog')
  {
    SingleInitUses(prog, f, tile, n);
    forall y: Id, s: Site ensures CoreDef(prog, e, prog', y, s) {}
  }

  lemma {:induction false} SingleCoreSsa(prog: seq<Top>, f: St.Single, tile: nat, n: nat, e: Edit, prog': seq<Top>)
    requires SingleFit(prog, f, tile, n) && e == SingleEdit(prog, f, tile, n) && EditOk(prog, e, prog')
    ensures CoreSsa(prog', e)
  {
    var s := prog[f.k].stmt;
    assert SsaTop(prog, f.k);
    forall u | u in {s.lhs, s.rhs} ensures Before(SiteOf(prog', u), e.k + 1) {
      UseBelow(prog, n, f.k, u);
      UseEarly(prog, e, prog', u);
    }
  }

  lemma {:induction false} SingleCoreFacts(prog: seq<Top>, f: St.Single, tile: nat, n: nat, e: Edit)
    requires SingleFit(prog, f, tile, n) && e == SingleEdit(prog, f, tile, n)
    ensures TopBelow(e.core, 2 * n) && CoreUses(prog, e) && InitUses(prog, e) && CoreLeaves(prog, e)
    ensures QuietStmt(e.init) && (QuietTop(prog[e.k]) ==> QuietTop(e.core))
  {
    var s := prog[f.k].stmt;
    assert TopUses(e.core) == {s.lhs, s.rhs} && TopUses(prog[f.k]) == {s.lhs, s.rhs, s.acc};
    forall u | u in {s.lhs, s.rhs} ensures u < 2 * n && u in TopUses(prog[f.k]) { UseBelow(prog, n, f.k, u); }
    SingleInitUses(prog, f, tile, n);
  }

  /** So is the rewrite of a single contraction. */
  lemma {:induction false} SingleIsEdit(prog: seq<Top>, f: St.Single, tile: nat, n: nat, e: Edit, prog': seq<Top>)
    requires SingleFit(prog, f, tile, n) && e == SingleEdit(prog, f, tile, n) && prog' == St.SingleLowered(prog, f, tile, n)
    ensures PassEdit(prog, e, prog')
  {
    SingleEditIs(prog, f, tile, n);
    EditedIs(prog, e);
    SingleEditOk(prog, f, tile, n, e, prog');
    SingleCoreSsa(prog, f, tile, n, e, prog');
    EditedSsa(prog, e, prog');
    SingleCoreFacts(prog, f, tile, n, e);
  }
}
