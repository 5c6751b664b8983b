/** A chain found before another chain was rewritten can still be rewritten afterwards: where its
    operations stand in the edited function, and why every condition on it still holds. */
module ChainTransport {
  import opened Options
  import opened TensorIR
  import opened TileRewrite
  import opened MatrixProgram
  import opened MatrixExact
  import opened MatrixPass
  import opened MatrixAlways
  import opened ChainAnalysis
  import opened SsaEdits
  import So = ChainSoundness
  import St = StraightPass

  // ----- uses -----

  lemma {:induction false} BodyUsesFrom(body: seq<Stmt>, x: Id) returns (p: nat)
    requires x in BodyUses(body)
    ensures p < |body| && x in Uses(body[p])
    decreases |body|
  {
    if x in Uses(body[0]) {
      p := 0;
    } else {
      p := BodyUsesFrom(body[1..], x);
      p := p + 1;
    }
  }

  lemma {:induction false} UsedNamesFrom(prog: seq<Top>, x: Id) returns (i: nat)
    requires x in UsedNames(prog)
    ensures i < |prog| && x in TopUses(prog[i])
    decreases |prog|
  {
    if x in TopUses(prog[0]) {
      i := 0;
    } else {
      i := UsedNamesFrom(prog[1..], x);
      i := i + 1;
    }
  }

  lemma FreeIs(top: Top, x: Id)
    ensures FreeTop(top, x) <==> x !in TopUses(top)
  {
    if top.For? {
      var l := top.loop;
      forall p | 0 <= p < |l.body| && x in Uses(l.body[p]) ensures x in BodyUses(l.body) { BodyUsesHas(l.body, p); }
      if x in BodyUses(l.body) { var p := BodyUsesFrom(l.body, x); }
    }
  }

  lemma MemberFrom(m: map<Id, Id>, ids: seq<Id>, u: Id) returns (x: Id)
    requires u in Members(SubstAll(m, ids))
    ensures x in Members(ids) && u == Subst(m, x)
  {
    var i :| 0 <= i < |ids| && SubstAll(m, ids)[i] == u;
    x := ids[i];
  }

  /** A use of the renamed operation is the new name of a use. */
  lemma {:induction false} RenamedTopUses(m: map<Id, Id>, top: Top, u: Id) returns (x: Id)
    requires u in TopUses(RenameTop(m, top))
    ensures x in TopUses(top) && u == Subst(m, x)
  {
    match top {
      case Simple(s) => x := RenamedUses(m, s, if Defines(s) then s.def else 0, u);
      case For(l) =>
        var l' := RenameLoop(m, l);
        if u in Members(l'.inits) {
          x := MemberFrom(m, l.inits, u);
        } else if u in Members(l'.yielded) {
          x := MemberFrom(m, l.yielded, u);
        } else if u in BodyUses(l'.body) {
          var p := BodyUsesFrom(l'.body, u);
          x := RenamedUses(m, l.body[p], if Defines(l.body[p]) then l.body[p].def else 0, u);
          BodyUsesHas(l.body, p);
        } else {
          x := if u == l'.lb then l.lb else if u == l'.ub then l.ub else l.step;
        }
    }
  }

  // ----- what is asked of the new operation -----

  ghost predicate CoreUses(prog: seq<Top>, e: Edit)
    requires e.k < |prog|
  {
    forall u :: u in TopUses(e.core) ==> u < 2 * e.n && (u < e.n ==> u in TopUses(prog[e.k]))
  }

  /** The initialisation uses what the operation that gives the initial value uses. */
  ghost predicate InitUses(prog: seq<Top>, e: Edit) {
    forall u :: u in Uses(e.init) ==> exists j :: 0 <= j < |prog| && ReadAt(prog, j, u)
  }

  predicate ReadAt(prog: seq<Top>, j: nat, u: Id)
    requires j < |prog|
  {
    prog[j].Simple? && prog[j].stmt.Read? && prog[j].stmt.addr == u
  }

  ghost predicate CoreLeaves(prog: seq<Top>, e: Edit)
    requires e.k < |prog|
  {
    forall t: nat :: t != e.tile && TopLeaves(prog[e.k], t) ==> TopLeaves(e.core, t) && !TouchesTile(e.init, t)
  }

  /** An edit as the pass makes it. */
  ghost predicate PassEdit(prog: seq<Top>, e: Edit, prog': seq<Top>) {
    && EditOk(prog, e, prog') && CoreResults(prog, e, prog') && Ssa(prog')
    && TopBelow(e.core, 2 * e.n) && CoreUses(prog, e) && InitUses(prog, e) && CoreLeaves(prog, e)
    && QuietStmt(e.init) && (QuietTop(prog[e.k]) ==> QuietTop(e.core))
  }

  // ----- the whole function after the edit -----

  function OldAt(e: Edit, j: nat): nat {
    if j < e.k then j else if j <= e.k + 2 then e.k else j - 2
  }

  /** Operation `j` of the new function is part of the edit or an old operation. */
  predicate Inserted(e: Edit, j: nat) {
    e.k <= j <= e.k + 2
  }

  lemma {:induction false} OldTop(prog: seq<Top>, e: Edit, prog': seq<Top>, j: nat)
    requires IsEdited(prog, e, prog') && j < |prog'| && !Inserted(e, j)
    ensures OldAt(e, j) < |prog| && OldAt(e, j) != e.k && prog'[j] == Kept(prog, e, OldAt(e, j)) && Moved(e, OldAt(e, j)) == j
  {
    assert KeptAt(prog, e, prog', OldAt(e, j));
  }

  lemma KeptBelow(prog: seq<Top>, e: Edit, i: nat)
    requires EditAt(prog, e) && i < |prog| && TopBelow(prog[i], e.n)
    ensures TopBelow(Kept(prog, e, i), 2 * e.n)
  {
    if prog[i].For? {
      var l := prog[i].loop;
      forall p | 0 <= p < |l.body| && Defines(RenameStmt(e.m, l.body[p])) ensures RenameStmt(e.m, l.body[p]).def < 2 * e.n {
        assert Defines(l.body[p]) ==> l.body[p].def < e.n;
      }
    }
  }

  lemma {:induction false} NamesStayBelow(prog: seq<Top>, e: Edit, prog': seq<Top>)
    requires PassEdit(prog, e, prog')
    ensures NamesBelow(prog', 2 * e.n)
  {
    SiteBelow(prog, e.n, e.vec, SiteOf(prog, e.vec));
    forall j | 0 <= j < |prog'| ensures TopBelow(prog'[j], 2 * e.n) { NameBelow(prog, e, prog', j); }
  }

  lemma {:induction false} NameBelow(prog: seq<Top>, e: Edit, prog': seq<Top>, j: nat)
    requires IsEdited(prog, e, prog') && NamesBelow(prog, e.n) && TopBelow(e.core, 2 * e.n) && !Defines(e.init)
    requires e.vec < e.n && j < |prog'|
    ensures TopBelow(prog'[j], 2 * e.n)
  {
    if !Inserted(e, j) {
      OldTop(prog, e, prog', j);
      KeptBelow(prog, e, OldAt(e, j));
    }
  }

  lemma {:induction false} KeptUse(prog: seq<Top>, e: Edit, i: nat, u: Id)
    requires EditAt(prog, e) && UsesBelow(prog, e.n) && (forall x :: x in e.m ==> e.m[x] == x + e.n)
    requires i < |prog| && u in TopUses(Kept(prog, e, i))
    ensures u < 2 * e.n && (u < e.n ==> u in TopUses(prog[i]))
  {
    var x;
    if i == e.w { x := prog[i].stmt.addr; } else { x := RenamedTopUses(e.m, prog[i], u); }
    UseBelow(prog, e.n, i, x);
  }

  /** Where a use of the new function comes from. */
  lemma {:induction false} UseFrom(prog: seq<Top>, e: Edit, prog': seq<Top>, j: nat, u: Id)
    requires PassEdit(prog, e, prog') && j < |prog'| && u in TopUses(prog'[j])
    ensures u < 2 * e.n
    ensures u < e.n && !Inserted(e, j) ==> u in TopUses(prog[OldAt(e, j)])
    ensures u < e.n && j == e.k + 1 ==> u in TopUses(prog[e.k])
    ensures u < e.n && j == e.k ==> exists i :: 0 <= i < |prog| && ReadAt(prog, i, u)
    ensures j != e.k + 2
  {
    if !Inserted(e, j) {
      OldTop(prog, e, prog', j);
      KeptUse(prog, e, OldAt(e, j), u);
    }
  }

  lemma {:induction false} UsesStayBelow(prog: seq<Top>, e: Edit, prog': seq<Top>)
    requires PassEdit(prog, e, prog')
    ensures UsesBelow(prog', 2 * e.n)
  {
    forall u | u in UsedNames(prog') ensures u < 2 * e.n {
      var j := UsedNamesFrom(prog', u);
      UseFrom(prog, e, prog', j, u);
    }
  }

  /** A value that only the operation at `w` uses is still used by that one alone. */
  lemma {:induction false} StaysFree(prog: seq<Top>, e: Edit, prog': seq<Top>, x: Id, w: nat)
    requires PassEdit(prog, e, prog') && x < e.n && w < |prog| && w != e.k && StoresAt(prog, w)
    requires forall i {:trigger FreeTop(prog[i], x)} :: 0 <= i < |prog| && i != w ==> FreeTop(prog[i], x)
    ensures forall j :: 0 <= j < |prog'| && j != Moved(e, w) ==> FreeTop(prog'[j], x)
  {
    forall j | 0 <= j < |prog'| && j != Moved(e, w) ensures FreeTop(prog'[j], x) {
      FreeIs(prog'[j], x);
      if x in TopUses(prog'[j]) {
        UseFrom(prog, e, prog', j, x);
        if j == e.k {
          var i :| 0 <= i < |prog| && ReadAt(prog, i, x);
          FreeIs(prog[i], x);
        } else {
          if !Inserted(e, j) { OldTop(prog, e, prog', j); }
          FreeIs(prog[OldAt(e, j)], x);
        }
      }
    }
  }

  lemma KeptLeaves(prog: seq<Top>, e: Edit, i: nat, t: nat)
    requires EditAt(prog, e) && i < |prog| && TopLeaves(prog[i], t) && t != e.tile
    ensures TopLeaves(Kept(prog, e, i), t)
  {
    if prog[i].For? {
      var l := prog[i].loop;
      forall p | 0 <= p < |l.body| ensures !TouchesTile(RenameStmt(e.m, l.body[p]), t) { assert !TouchesTile(l.body[p], t); }
    }
  }

  /** A tile that nothing touched is touched by nothing. */
  lemma {:induction false} StaysClear(prog: seq<Top>, e: Edit, prog': seq<Top>, t: nat)
    requires PassEdit(prog, e, prog') && t != e.tile && forall i {:trigger TopLeaves(prog[i], t)} :: 0 <= i < |prog| ==> TopLeaves(prog[i], t)
    ensures forall j :: 0 <= j < |prog'| ==> TopLeaves(prog'[j], t)
  {
    forall j | 0 <= j < |prog'| ensures TopLeaves(prog'[j], t) {
      if Inserted(e, j) {
        assert TopLeaves(prog[e.k], t);
      } else {
        OldTop(prog, e, prog', j);
        KeptLeaves(prog, e, OldAt(e, j), t);
      }
    }
  }

  lemma {:induction false} QuietAt(prog: seq<Top>, e: Edit, prog': seq<Top>, j: nat)
    requires IsEdited(prog, e, prog') && j < |prog'| && QuietTop(prog[OldAt(e, j)]) && QuietStmt(e.init)
    requires QuietTop(prog[e.k]) ==> QuietTop(e.core)
    ensures QuietTop(prog'[j])
  {
    if !Inserted(e, j) {
      OldTop(prog, e, prog', j);
      QuietRenamedTop(e.m, prog[OldAt(e, j)]);
    }
  }

  /** Code without stores stays so. */
  lemma {:induction false} StaysQuiet(prog: seq<Top>, e: Edit, prog': seq<Top>, a: nat, b: nat)
    requires PassEdit(prog, e, prog') && a < b <= |prog| && a != e.k && b != e.k && Quiet(prog[a + 1..b])
    ensures Moved(e, a) < Moved(e, b) <= |prog'| && Quiet(prog'[Moved(e, a) + 1..Moved(e, b)])
  {
    var part := prog'[Moved(e, a) + 1..Moved(e, b)];
    forall h | 0 <= h < |part| ensures QuietTop(part[h]) {
      var j := Moved(e, a) + 1 + h;
      assert part[h] == prog'[j] && prog[a + 1..b][OldAt(e, j) - a - 1] == prog[OldAt(e, j)];
      QuietAt(prog, e, prog', j);
    }
  }
}
