/** Chains moved through an edit: the analysis finds them again, and what made them right still
    does. */
module ChainMoves {
  import opened Options
  import opened TensorIR
  import opened TileRewrite
  import opened MatrixProgram
  import opened MatrixExact
  import opened MatrixPass
  import opened MatrixAlways
  import opened ChainAnalysis
  import opened SsaEdits
  import opened ChainTransport
  import So = ChainSoundness
  import St = StraightPass

  // ----- the path through a loop body -----

  lemma RenameAppend(m: map<Id, Id>, us: seq<Stmt>, s: Stmt)
    ensures RenameBody(m, us + [s]) == RenameBody(m, us) + [RenameStmt(m, s)]
  {
  }

  lemma {:induction false} WalkOne(prog: seq<Top>, k: nat, a: nat, v: Id, p: nat, q: nat)
    requires Ssa(prog) && k < |prog| && prog[k].For? && SiteOf(prog, v) == InBody(k, q) && q < p && IsLink(prog[k].loop.body[q])
    ensures var s := prog[k].loop.body[q];
            && Visible(SiteOf(prog, s.acc), k, q)
            && WalkBody(prog, k, a, v, p) ==
               match WalkBody(prog, k, a, s.acc, q) case None => None case Some(us) => Some(us + [s])
  {
    var s := prog[k].loop.body[q];
    assert SsaTop(prog, k) && SsaBodyStmt(prog, s, k, q) && s.acc in Uses(s);
  }

  lemma {:induction false} WalkMoved(prog: seq<Top>, e: Edit, prog': seq<Top>, k: nat, a: nat, v: Id, p: nat, us: seq<Stmt>)
    requires PassEdit(prog, e, prog') && k < |prog| && k != e.k && prog[k].For? && Visible(SiteOf(prog, v), k, p)
    requires WalkBody(prog, k, a, v, p) == Some(us) && Moved(e, k) < |prog'| && prog'[Moved(e, k)] == For(RenameLoop(e.m, prog[k].loop))
    ensures v !in e.m && Visible(SiteOf(prog', v), Moved(e, k), p)
    ensures WalkBody(prog', Moved(e, k), a, v, p) == Some(RenameBody(e.m, us))
    decreases p
  {
    SiteKept(prog, e, prog', v);
    if SiteOf(prog, v).InBody? {
      var q := SiteOf(prog, v).pos;
      var s := prog[k].loop.body[q];
      WalkOne(prog, k, a, v, p, q);
      var us' := WalkBody(prog, k, a, s.acc, q).value;
      WalkMoved(prog, e, prog', k, a, s.acc, q, us');
      RenameAppend(e.m, us', s);
      WalkOne(prog', Moved(e, k), a, v, p, q);
    } else {
      assert RenameBody(e.m, us) == [];
    }
  }

  lemma {:induction false} CarriesMoved(prog: seq<Top>, e: Edit, prog': seq<Top>, k: nat, a: nat, us: seq<Stmt>)
    requires PassEdit(prog, e, prog') && k != e.k && So.CarriesChain(prog, k, a, us)
    ensures So.CarriesChain(prog', Moved(e, k), a, RenameBody(e.m, us))
  {
    var l := prog[k].loop;
    assert KeptAt(prog, e, prog', k);
    assert Kept(prog, e, k) == For(RenameLoop(e.m, l));
    WalkMoved(prog, e, prog', k, a, l.yielded[a], |l.body|, us);
  }

  // ----- a chain through a loop -----

  function MovedInit(m: map<Id, Id>, init: Init): Init {
    if init.Zero? then init else Block(Subst(m, init.addr))
  }

  function MovedFound(e: Edit, g: Found): Found {
    Found(Moved(e, g.w), Moved(e, g.k), g.acc, RenameBody(e.m, g.us), MovedInit(e.m, g.init), Moved(e, g.j))
  }

  /** The operation that gives the initial value. */
  lemma {:induction false} StartMoved(prog: seq<Top>, e: Edit, prog': seq<Top>, j: nat, init: Init, v: Id)
    requires PassEdit(prog, e, prog') && j < |prog| && j != e.k && j != e.w && prog[j].Simple? && Starts(prog[j].stmt, init, v)
    ensures Moved(e, j) < |prog'| && prog'[Moved(e, j)].Simple? && v !in e.m && v < e.n
    ensures Starts(prog'[Moved(e, j)].stmt, MovedInit(e.m, init), v)
  {
    assert SsaTop(prog, j) && KeptAt(prog, e, prog', j);
    SiteBelow(prog, e.n, v, At(j));
  }

  lemma {:induction false} FoundMoved(prog: seq<Top>, e: Edit, prog': seq<Top>, g: Found)
    requires PassEdit(prog, e, prog') && FoundOk(prog, g) && g.k != e.k && g.w != e.w && g.j != e.k && g.w != e.k
    ensures FoundOk(prog', MovedFound(e, g)) && Vec(prog', MovedFound(e, g)) == Vec(prog, g) && Vec(prog, g) !in e.m
    ensures prog'[Moved(e, g.k)] == For(RenameLoop(e.m, prog[g.k].loop))
    ensures prog'[Moved(e, g.w)] == Simple(Write(Subst(e.m, prog[g.w].stmt.addr), Vec(prog, g)))
    ensures prog[g.k].loop.inits[g.acc] !in e.m && prog[g.k].loop.inits[g.acc] < e.n
  {
    CarriesMoved(prog, e, prog', g.k, g.acc, g.us);
    StartMoved(prog, e, prog', g.j, g.init, prog[g.k].loop.inits[g.acc]);
    assert SsaTop(prog, g.k) && KeptAt(prog, e, prog', g.k) && KeptAt(prog, e, prog', g.w);
  }

  lemma NamesMoved(m: map<Id, Id>, us: seq<Stmt>)
    ensures So.Names(RenameBody(m, us)) == So.Names(us)
  {
    var us' := RenameBody(m, us);
    forall i | 0 <= i < |us| ensures us'[i].Contract? == us[i].Contract? && (us[i].Contract? ==> us'[i].def == us[i].def) {
    }
    forall x | x in So.Names(us) ensures x in So.Names(us') {
      var i :| 0 <= i < |us| && us[i].Contract? && us[i].def == x;
      assert us'[i].def == x;
    }
  }

  lemma {:induction false} PrivateMoved(m: map<Id, Id>, n: nat, body: seq<Stmt>, updates: set<Id>, hidden: set<Id>)
    requires So.Private(body, updates, hidden) && (forall x :: x in m ==> m[x] == x + n) && (forall x :: x in hidden ==> x < n)
    ensures So.Private(RenameBody(m, body), updates, hidden)
  {
    forall p | 0 <= p < |body| ensures So.PrivateStmt(RenameStmt(m, body[p]), updates, hidden) {
      assert So.PrivateStmt(body[p], updates, hidden);
      PrivateStmtMoved(m, n, body[p], updates, hidden);
    }
  }

  lemma {:induction false} PrivateStmtMoved(m: map<Id, Id>, n: nat, s: Stmt, updates: set<Id>, hidden: set<Id>)
    requires So.PrivateStmt(s, updates, hidden) && (forall x :: x in m ==> m[x] == x + n) && (forall x :: x in hidden ==> x < n)
    ensures So.PrivateStmt(RenameStmt(m, s), updates, hidden)
  {
    if !IsUpdate(s, updates) {
      forall u | u in Uses(RenameStmt(m, s)) ensures u !in hidden {
        var x := RenamedUses(m, s, if Defines(s) then s.def else 0, u);
      }
    }
  }

  lemma {:induction false} HiddenBelow(prog: seq<Top>, g: Found, n: nat)
    requires FoundOk(prog, g) && NamesBelow(prog, n)
    ensures forall x :: x in Hidden(prog[g.k].loop, g.acc, So.Names(g.us)) ==> x < n
  {
    assert SsaTop(prog, g.k) && TopBelow(prog[g.k], n);
    forall x | x in So.Names(g.us) ensures x < n {
      UpdateSites(prog, g.k, g.acc, g.us, x);
      SiteBelow(prog, n, x, SiteOf(prog, x));
    }
  }

  lemma {:induction false} PrivateLoop(prog: seq<Top>, e: Edit, g: Found, l': Loop)
    requires FoundOk(prog, g) && NamesBelow(prog, e.n) && Redirects(prog, e) && l' == RenameLoop(e.m, prog[g.k].loop)
    requires So.Private(prog[g.k].loop.body, So.Names(g.us), Hidden(prog[g.k].loop, g.acc, So.Names(g.us)))
    ensures g.acc < |l'.args| && So.Private(l'.body, So.Names(RenameBody(e.m, g.us)), Hidden(l', g.acc, So.Names(RenameBody(e.m, g.us))))
  {
    HiddenBelow(prog, g, e.n);
    NamesMoved(e.m, g.us);
    PrivateMoved(e.m, e.n, prog[g.k].loop.body, So.Names(g.us), Hidden(prog[g.k].loop, g.acc, So.Names(g.us)));
  }

  lemma {:induction false} UsableMoved(prog: seq<Top>, e: Edit, prog': seq<Top>, g: Found, t: nat)
    requires PassEdit(prog, e, prog') && FoundOk(prog, g) && g.k != e.k && g.w != e.w && g.j != e.k && g.w != e.k
    requires Usable(prog, g, t, e.n) && t != e.tile
    ensures FoundOk(prog', MovedFound(e, g)) && Usable(prog', MovedFound(e, g), t, 2 * e.n)
  {
    FoundMoved(prog, e, prog', g);
    NamesStayBelow(prog, e, prog');
    assert SsaTop(prog, g.k);
    SiteBelow(prog, e.n, Vec(prog, g), Result(g.k, g.acc));
    StaysFree(prog, e, prog', Vec(prog, g), g.w);
    StaysClear(prog, e, prog', t);
    PrivateLoop(prog, e, g, RenameLoop(e.m, prog[g.k].loop));
  }

  // ----- what makes it right -----

  lemma {:induction false} ConditionsMoved(prog: seq<Top>, e: Edit, prog': seq<Top>, g: Found)
    requires PassEdit(prog, e, prog') && FoundOk(prog, g) && g.k != e.k && g.w != e.w && g.j != e.k && g.w != e.k
    requires Conditions(prog, g)
    ensures FoundOk(prog', MovedFound(e, g)) && Conditions(prog', MovedFound(e, g))
  {
    FoundMoved(prog, e, prog', g);
    var l := prog[g.k].loop;
    UniqueMoved(e.m, e.n, l, g.acc);
    YieldsMoved(prog, e, prog', g.k, g.acc);
    NamesMoved(e.m, g.us);
    PlainMoved(e.m, l.body, So.Names(g.us));
  }

  lemma {:induction false} InitMoved(prog: seq<Top>, e: Edit, prog': seq<Top>, init: Init, j: nat, k: nat)
    requires PassEdit(prog, e, prog') && j < k <= |prog| && j != e.k && k != e.k && KeepsInit(prog, init, j, k)
    ensures Moved(e, j) < Moved(e, k) <= |prog'| && KeepsInit(prog', MovedInit(e.m, init), Moved(e, j), Moved(e, k))
  {
    if init.Block? { StaysQuiet(prog, e, prog', j, k); }
  }

  lemma UniqueMoved(m: map<Id, Id>, n: nat, l: Loop, acc: nat)
    requires acc < |l.inits| && UniqueInit(l, acc) && (forall x :: x in m ==> m[x] == x + n) && l.inits[acc] !in m && l.inits[acc] < n
    ensures UniqueInit(RenameLoop(m, l), acc)
  {
  }

  lemma PlainMoved(m: map<Id, Id>, body: seq<Stmt>, updates: set<Id>)
    requires NoTransposed(body, updates)
    ensures NoTransposed(RenameBody(m, body), updates)
  {
    forall p | 0 <= p < |body| && IsUpdate(RenameBody(m, body)[p], updates) ensures !RenameBody(m, body)[p].transposed {
      assert IsUpdate(body[p], updates);
    }
  }

  lemma {:induction false} YieldsMoved(prog: seq<Top>, e: Edit, prog': seq<Top>, k: nat, acc: nat)
    requires PassEdit(prog, e, prog') && k < |prog| && k != e.k && prog[k].For? && YieldsOutside(prog, k, acc)
    ensures Moved(e, k) < |prog'| && prog'[Moved(e, k)].For? && YieldsOutside(prog', Moved(e, k), acc)
  {
    assert KeptAt(prog, e, prog', k);
    var l := prog[k].loop;
    LoopUses(l);
    forall i | 0 <= i < |l.yielded| && i != acc ensures Before(SiteOf(prog', Subst(e.m, l.yielded[i])), Moved(e, k)) {
      UseBelow(prog, e.n, k, l.yielded[i]);
      UseMoved(prog, e, prog', l.yielded[i], k);
    }
  }

  // ----- a chain without a loop -----

  function MovedSingle(e: Edit, g: St.Single): St.Single {
    St.Single(Moved(e, g.w), Moved(e, g.k), MovedInit(e.m, g.init), Moved(e, g.j))
  }

  lemma {:induction false} SingleMoved(prog: seq<Top>, e: Edit, prog': seq<Top>, g: St.Single)
    requires PassEdit(prog, e, prog') && St.SingleOk(prog, g) && g.k != e.k && g.w != e.w && g.j != e.k && g.k != e.w && g.w != e.k
    ensures St.SingleOk(prog', MovedSingle(e, g)) && prog[g.k].stmt.def !in e.m && prog[g.k].stmt.def < e.n
    ensures prog'[Moved(e, g.k)] == Simple(RenameStmt(e.m, prog[g.k].stmt))
    ensures prog'[Moved(e, g.w)] == Simple(Write(Subst(e.m, prog[g.w].stmt.addr), prog[g.k].stmt.def))
  {
    StartMoved(prog, e, prog', g.j, g.init, prog[g.k].stmt.acc);
    assert SsaTop(prog, g.k) && KeptAt(prog, e, prog', g.k) && KeptAt(prog, e, prog', g.w);
    SiteBelow(prog, e.n, prog[g.k].stmt.def, At(g.k));
  }

  lemma {:induction false} SingleUsableMoved(prog: seq<Top>, e: Edit, prog': seq<Top>, g: St.Single, t: nat)
    requires PassEdit(prog, e, prog') && St.SingleOk(prog, g) && g.k != e.k && g.w != e.w && g.j != e.k && g.k != e.w && g.w != e.k
    requires St.SingleUsable(prog, g, t, e.n) && t != e.tile
    ensures St.SingleOk(prog', MovedSingle(e, g)) && St.SingleUsable(prog', MovedSingle(e, g), t, 2 * e.n)
  {
    SingleMoved(prog, e, prog', g);
    NamesStayBelow(prog, e, prog');
    StaysFree(prog, e, prog', prog[g.k].stmt.def, g.w);
    StaysClear(prog, e, prog', t);
  }
}
