/** Which chains the pass lowers, told from the operation that gives the initial value: a read is
    loaded into the tile, a zero constant clears it, and nothing else will do. */
module ChainStarts {
  import opened Options
  import opened TensorIR
  import opened MatrixProgram
  import opened MatrixPass
  import opened ChainAnalysis
  import opened PassComposition
  import opened MatrixLowering
  import St = StraightPass

  // ----- the chain as it stands in the text -----

  /** `us` are supported contractions of the body, each on the result of the one before; the first is
      on `from` and the last gives `to`. */
  ghost predicate BodyChain(body: seq<Stmt>, from: Id, us: seq<Stmt>, to: Id) {
    if us == [] then from == to
    else
      var last := us[|us| - 1];
      last in body && last.Contract? && last.supported && last.def == to && BodyChain(body, from, us[..|us| - 1], last.acc)
  }

  /** The vector written at `w` is result `acc` of loop `k`, which starts from `v` and is updated by
      `us`. */
  ghost predicate ThroughLoop(prog: seq<Top>, w: nat, v: Id, k: nat, acc: nat, us: seq<Stmt>) {
    && WriteAt(prog, w) && us != [] && k < w && prog[k].For?
    && var l := prog[k].loop;
       && acc < |l.results| && acc < |l.inits| && acc < |l.args| && acc < |l.yielded|
       && l.results[acc] == prog[w].stmt.vec && l.inits[acc] == v && BodyChain(l.body, l.args[acc], us, l.yielded[acc])
  }

  /** The operations `ks` are supported contractions, each on the result of the one before; the first
      is on `v` and the last gives `to`. */
  ghost predicate StraightChain(prog: seq<Top>, v: Id, ks: seq<nat>, to: Id) {
    if ks == [] then v == to
    else
      var k := ks[|ks| - 1];
      && k < |prog| && prog[k].Simple? && prog[k].stmt.Contract? && prog[k].stmt.supported && prog[k].stmt.def == to
      && StraightChain(prog, v, ks[..|ks| - 1], prog[k].stmt.acc)
  }

  /** The vector written at `w` comes from `v` by the contractions `ks`, none of them in a loop. */
  ghost predicate ThroughOnes(prog: seq<Top>, w: nat, v: Id, ks: seq<nat>) {
    WriteAt(prog, w) && ks != [] && StraightChain(prog, v, ks, prog[w].stmt.vec)
  }

  /** Operation `j` is `s`. */
  predicate Is(prog: seq<Top>, j: nat, s: Stmt) {
    j < |prog| && prog[j] == Simple(s)
  }

  /** No operation has `v` as its result: it is an argument of the function or of a loop body. */
  predicate NoResult(prog: seq<Top>, v: Id) {
    forall j :: 0 <= j < |prog| ==> !Gives(prog[j], v)
  }

  predicate Gives(top: Top, v: Id) {
    match top
    case Simple(s) => Defines(s) && s.def == v
    case For(l) => v in l.results
  }

  /** An argument, a constant or a read: no chain goes beyond it. */
  ghost predicate Begins(prog: seq<Top>, v: Id) {
    NoResult(prog, v) || exists j :: 0 <= j < |prog| && prog[j].Simple? && Gives(prog[j], v) && (prog[j].stmt.Const? || prog[j].stmt.Read?)
  }

  /** The operation is a read or a constant zero. */
  predicate Starter(s: Stmt) {
    s.Read? || (s.Const? && s.zero)
  }

  /** The tile can be filled with `v`. */
  ghost predicate CanStart(prog: seq<Top>, v: Id) {
    exists j :: 0 <= j < |prog| && prog[j].Simple? && Starter(prog[j].stmt) && Gives(prog[j], v)
  }

  lemma SiteOfResult(prog: seq<Top>, j: nat, s: Stmt)
    requires Ssa(prog) && Is(prog, j, s) && Defines(s)
    ensures SiteOf(prog, s.def) == At(j)
  {
    assert SsaTop(prog, j);
  }

  lemma {:induction false} CanStartExact(prog: seq<Top>, v: Id)
    requires Ssa(prog)
    ensures CanStart(prog, v) <==> SupportedInit(prog, v)
  {
    if j :| 0 <= j < |prog| && prog[j].Simple? && Starter(prog[j].stmt) && Gives(prog[j], v) {
      SiteOfResult(prog, j, prog[j].stmt);
    }
    if SupportedInit(prog, v) { assert Gives(prog[SiteOf(prog, v).top], v); }
  }

  // ----- the walk finds it -----

  lemma {:induction false} WalkBodyExact(prog: seq<Top>, k: nat, a: nat, v: Id, p: nat, us: seq<Stmt>)
    requires Ssa(prog) && k < |prog| && prog[k].For? && a < |prog[k].loop.args| && p <= |prog[k].loop.body|
    requires Visible(SiteOf(prog, v), k, p)
    ensures WalkBody(prog, k, a, v, p) == Some(us) <==> BodyChain(prog[k].loop.body, prog[k].loop.args[a], us, v)
    decreases p
  {
    var l, site := prog[k].loop, SiteOf(prog, v);
    assert SsaTop(prog, k);
    if us == [] {
      OnlyOwnArg(prog, k, a, v, p);
    } else {
      var init, last := us[..|us| - 1], us[|us| - 1];
      assert us == init + [last];
      if last in l.body && Defines(last) && last.def == v { BodySite(prog, k, last); }
      if site.InBody? && IsLink(l.body[site.pos]) {
        var s := l.body[site.pos];
        assert SsaBodyStmt(prog, s, k, site.pos) && s.acc in Uses(s);
        WalkBodyExact(prog, k, a, s.acc, site.pos, init);
        LastOf(WalkBody(prog, k, a, s.acc, site.pos), s, init, last);
      }
    }
  }

  lemma LastOf(inner: Option<seq<Stmt>>, s: Stmt, init: seq<Stmt>, last: Stmt)
    ensures (match inner case None => None case Some(us) => Some(us + [s])) == Some(init + [last]) <==> inner == Some(init) && s == last
  {
    if inner.Some? && inner.value + [s] == init + [last] {
      assert (inner.value + [s])[..|inner.value|] == inner.value && (init + [last])[..|init|] == init;
      assert (inner.value + [s])[|inner.value|] == s && (init + [last])[|init|] == last;
    }
  }

  lemma OnlyOwnArg(prog: seq<Top>, k: nat, a: nat, v: Id, p: nat)
    requires Ssa(prog) && k < |prog| && prog[k].For? && a < |prog[k].loop.args| && Visible(SiteOf(prog, v), k, p)
    ensures WalkBody(prog, k, a, v, p) == Some([]) <==> v == prog[k].loop.args[a]
  {
    assert SsaTop(prog, k);
  }

  lemma BodySite(prog: seq<Top>, k: nat, s: Stmt)
    requires Ssa(prog) && k < |prog| && prog[k].For? && s in prog[k].loop.body && Defines(s)
    ensures SiteOf(prog, s.def).InBody? && SiteOf(prog, s.def).top == k && prog[k].loop.body[SiteOf(prog, s.def).pos] == s
  {
    assert SsaTop(prog, k);
    var q :| 0 <= q < |prog[k].loop.body| && prog[k].loop.body[q] == s;
    assert SsaBodyStmt(prog, prog[k].loop.body[q], k, q);
  }

  lemma {:induction false} BeginsExact(prog: seq<Top>, v: Id, i: nat)
    requires Ssa(prog) && Before(SiteOf(prog, v), i)
    ensures Begins(prog, v) <==> Walk(prog, v, i) == Some(Path(v, []))
  {
    var site := SiteOf(prog, v);
    if site.At? { assert Gives(prog[site.top], v); }
    if site.Result? { assert Gives(prog[site.top], v); }
    forall j | 0 <= j < |prog| && Gives(prog[j], v) ensures !site.Outside? && site.top == j && (site.At? <==> prog[j].Simple?) {
      assert SsaTop(prog, j);
    }
    if site.At? && !prog[site.top].stmt.Const? && !prog[site.top].stmt.Read? && Walk(prog, v, i).Some? {
      assert IsLink(prog[site.top].stmt) && Walk(prog, v, i).value.pieces != [];
    }
  }

  lemma {:induction false} LoopPath(prog: seq<Top>, w: nat, v: Id, k: nat, acc: nat, us: seq<Stmt>)
    requires ThroughLoop(prog, w, v, k, acc, us) && Begins(prog, v)
    ensures PathOf(prog, w) == Some(Path(v, [Rep(k, us)])) && SiteOf(prog, prog[w].stmt.vec) == Result(k, acc)
  {
    assert SsaTop(prog, k);
    WriteOperand(prog, w);
    var l := prog[k].loop;
    WalkBodyExact(prog, k, acc, l.yielded[acc], |l.body|, us);
    BeginsExact(prog, v, k);
    assert [] + [Rep(k, us)] == [Rep(k, us)];
  }

  function Ones(ks: seq<nat>): seq<Piece> {
    seq(|ks|, i requires 0 <= i < |ks| => One(ks[i]))
  }

  function StmtsAt(prog: seq<Top>, ks: seq<nat>): seq<Stmt>
    requires forall i :: 0 <= i < |ks| ==> ks[i] < |prog| && prog[ks[i]].Simple?
  {
    seq(|ks|, i requires 0 <= i < |ks| => prog[ks[i]].stmt)
  }

  lemma {:induction false} StraightTops(prog: seq<Top>, v: Id, ks: seq<nat>, to: Id)
    requires StraightChain(prog, v, ks, to)
    ensures forall a :: 0 <= a < |ks| ==> ks[a] < |prog| && prog[ks[a]].Simple? && prog[ks[a]].stmt.Contract?
    decreases |ks|
  {
    if ks != [] {
      var n := |ks| - 1;
      StraightTops(prog, v, ks[..n], prog[ks[n]].stmt.acc);
      assert forall a :: 0 <= a < n ==> ks[..n][a] == ks[a];
    }
  }

  lemma {:induction false} FlatOnes(prog: seq<Top>, ks: seq<nat>)
    requires forall a :: 0 <= a < |ks| ==> ks[a] < |prog| && prog[ks[a]].Simple?
    ensures Flat(prog, Ones(ks)) == StmtsAt(prog, ks)
    decreases |ks|
  {
    if ks != [] {
      var n := |ks| - 1;
      FlatOnes(prog, ks[..n]);
      FlatAppend(prog, Ones(ks[..n]), One(ks[n]));
      assert Ones(ks) == Ones(ks[..n]) + [One(ks[n])] && StmtsAt(prog, ks) == StmtsAt(prog, ks[..n]) + [prog[ks[n]].stmt];
    }
  }

  lemma {:induction false} StraightPath(prog: seq<Top>, v: Id, ks: seq<nat>, to: Id, i: nat)
    requires Ssa(prog) && StraightChain(prog, v, ks, to) && Begins(prog, v) && Before(SiteOf(prog, to), i)
    ensures Walk(prog, to, i) == Some(Path(v, Ones(ks)))
    decreases |ks|
  {
    if ks == [] {
      BeginsExact(prog, v, i);
    } else {
      var n := |ks| - 1;
      var k, init := ks[n], ks[..n];
      assert SsaTop(prog, k) && prog[k].stmt.acc in Uses(prog[k].stmt);
      StraightPath(prog, v, init, prog[k].stmt.acc, k);
      LinkWalk(prog, to, i, k, Path(v, Ones(init)));
      assert Ones(ks) == Ones(init) + [One(k)];
    }
  }

  lemma LinkWalk(prog: seq<Top>, to: Id, i: nat, k: nat, path: Path)
    requires Ssa(prog) && Before(SiteOf(prog, to), i) && SiteOf(prog, to) == At(k) && IsLink(prog[k].stmt)
    requires Before(SiteOf(prog, prog[k].stmt.acc), k) && Walk(prog, prog[k].stmt.acc, k) == Some(path)
    ensures Walk(prog, to, i) == Some(Path(path.initVal, path.pieces + [One(k)]))
  {
  }

  // ----- what becomes of a write -----

  lemma {:induction false} NotTraced(prog: seq<Top>, w: nat, chain: ChainAnalysis.Chain)
    requires WriteAt(prog, w)
    ensures WorkOf(prog, w, chain) != NoChain
    ensures WorkOf(prog, w, chain) == Skipped <==> !CanStart(prog, chain.initVal)
  {
    CanStartExact(prog, chain.initVal);
  }

  /** A write has no chain when the walk is refused or meets no update; a chain is skipped exactly
      when no read and no zero constant gives its initial value. */
  lemma {:induction false} TraceExact(prog: seq<Top>, w: nat)
    requires WriteAt(prog, w)
    ensures var path := PathOf(prog, w);
            && (TraceOf(prog, w) == NoChain <==> path.None? || Flat(prog, path.value.pieces) == [])
            && (TraceOf(prog, w) == Skipped <==>
                path.Some? && Flat(prog, path.value.pieces) != [] && !CanStart(prog, path.value.initVal))
  {
    var path := PathOf(prog, w);
    if path.Some? {
      assert Flat(prog, path.value.pieces) + [] == Flat(prog, path.value.pieces);
      NotTraced(prog, w, ChainAnalysis.Chain(path.value.initVal, Flat(prog, path.value.pieces)));
    }
  }

  /** A loop whose result is written, whatever it starts from. */
  lemma {:induction false} LoopTrace(prog: seq<Top>, w: nat, v: Id, k: nat, acc: nat, us: seq<Stmt>)
    requires ThroughLoop(prog, w, v, k, acc, us) && Begins(prog, v)
    ensures TraceOf(prog, w) == WorkOf(prog, w, ChainAnalysis.Chain(v, us)) && SiteOf(prog, prog[w].stmt.vec) == Result(k, acc)
  {
    LoopPath(prog, w, v, k, acc, us);
    FlatAppend(prog, [], Rep(k, us));
    assert [] + [Rep(k, us)] == [Rep(k, us)] && [] + us + [] == us;
  }

  lemma {:induction false} OnesTrace(prog: seq<Top>, w: nat, v: Id, ks: seq<nat>)
    requires ThroughOnes(prog, w, v, ks) && Begins(prog, v)
    ensures ks[0] < |prog| && TraceOf(prog, w) == if CanStart(prog, v) then FirstLowered(prog, w, v, ks[0]) else Skipped
  {
    WriteOperand(prog, w);
    StraightTops(prog, v, ks, prog[w].stmt.vec);
    FlatOnes(prog, ks);
    StraightPath(prog, v, ks, prog[w].stmt.vec, w);
    var us, k := StmtsAt(prog, ks), ks[|ks| - 1];
    assert us + [] == us && us[0] == prog[ks[0]].stmt;
    assert SsaTop(prog, ks[0]) && SsaTop(prog, k);
    CanStartExact(prog, v);
  }

  ghost function FirstLowered(prog: seq<Top>, w: nat, v: Id, k: nat): Trace {
    if SupportedInit(prog, v) then Traced(Lone(St.Single(w, k, InitOf(prog, v), SiteOf(prog, v).top))) else Skipped
  }

  lemma ReadBegins(prog: seq<Top>, j: nat, s: Stmt)
    requires Is(prog, j, s) && (s.Read? || s.Const?)
    ensures Begins(prog, s.def)
  {
    assert Gives(prog[j], s.def);
  }

  /** A loop that accumulates onto a block read from memory: the tile is loaded from that block. */
  lemma {:induction false} LoopFromRead(prog: seq<Top>, w: nat, v: Id, k: nat, acc: nat, us: seq<Stmt>, j: nat, addr: Id)
    requires ThroughLoop(prog, w, v, k, acc, us) && Is(prog, j, Read(v, addr))
    ensures TraceOf(prog, w) == Traced(Looped(Found(w, k, acc, us, Block(addr), j)))
  {
    ReadBegins(prog, j, Read(v, addr));
    SiteOfResult(prog, j, Read(v, addr));
    LoopTrace(prog, w, v, k, acc, us);
  }

  /** A loop that accumulates onto zero: the tile is cleared. */
  lemma {:induction false} LoopFromZero(prog: seq<Top>, w: nat, v: Id, k: nat, acc: nat, us: seq<Stmt>, j: nat, code: nat)
    requires ThroughLoop(prog, w, v, k, acc, us) && Is(prog, j, Const(v, true, code))
    ensures TraceOf(prog, w) == Traced(Looped(Found(w, k, acc, us, Init.Zero, j)))
  {
    ReadBegins(prog, j, Const(v, true, code));
    SiteOfResult(prog, j, Const(v, true, code));
    LoopTrace(prog, w, v, k, acc, us);
  }

  /** Contractions outside loops onto a block read from memory: the first of them is lowered. */
  lemma {:induction false} OnesFromRead(prog: seq<Top>, w: nat, v: Id, ks: seq<nat>, j: nat, addr: Id)
    requires ThroughOnes(prog, w, v, ks) && Is(prog, j, Read(v, addr))
    ensures TraceOf(prog, w) == Traced(Lone(St.Single(w, ks[0], Block(addr), j)))
  {
    ReadBegins(prog, j, Read(v, addr));
    SiteOfResult(prog, j, Read(v, addr));
    CanStartExact(prog, v);
    OnesTrace(prog, w, v, ks);
  }

  /** Contractions outside loops onto zero. */
  lemma {:induction false} OnesFromZero(prog: seq<Top>, w: nat, v: Id, ks: seq<nat>, j: nat, code: nat)
    requires ThroughOnes(prog, w, v, ks) && Is(prog, j, Const(v, true, code))
    ensures TraceOf(prog, w) == Traced(Lone(St.Single(w, ks[0], Init.Zero, j)))
  {
    ReadBegins(prog, j, Const(v, true, code));
    SiteOfResult(prog, j, Const(v, true, code));
    CanStartExact(prog, v);
    OnesTrace(prog, w, v, ks);
  }

  lemma CannotStart(prog: seq<Top>, v: Id, j: nat, code: nat)
    requires Ssa(prog) && (NoResult(prog, v) || Is(prog, j, Const(v, false, code)))
    ensures !CanStart(prog, v)
  {
    if i :| 0 <= i < |prog| && prog[i].Simple? && Starter(prog[i].stmt) && Gives(prog[i], v) {
      SiteOfResult(prog, i, prog[i].stmt);
      if Is(prog, j, Const(v, false, code)) { SiteOfResult(prog, j, Const(v, false, code)); }
    }
  }

  /** A chain that starts from another constant or from an argument is skipped. */
  lemma {:induction false} OthersSkipped(prog: seq<Top>, w: nat, v: Id, k: nat, acc: nat, us: seq<Stmt>, ks: seq<nat>, j: nat, code: nat)
    requires ThroughLoop(prog, w, v, k, acc, us) || ThroughOnes(prog, w, v, ks)
    requires NoResult(prog, v) || Is(prog, j, Const(v, false, code))
    ensures TraceOf(prog, w) == Skipped
  {
    if Is(prog, j, Const(v, false, code)) { ReadBegins(prog, j, Const(v, false, code)); }
    CannotStart(prog, v, j, code);
    CanStartExact(prog, v);
    if ThroughOnes(prog, w, v, ks) { OnesTrace(prog, w, v, ks); } else { LoopTrace(prog, w, v, k, acc, us); }
  }

  /** A vector that comes from a contraction of another shape, or from any other operation, has no
      chain. */
  lemma {:induction false} OthersRefused(prog: seq<Top>, w: nat, k: nat)
    requires WriteAt(prog, w) && k < |prog| && prog[k].Simple? && Gives(prog[k], prog[w].stmt.vec)
    requires !(prog[k].stmt.Contract? && prog[k].stmt.supported)
    ensures TraceOf(prog, w) == NoChain
  {
    SiteOfResult(prog, k, prog[k].stmt);
    WriteOperand(prog, w);
  }

  /** The same inside a loop body. */
  lemma {:induction false} BodyRefused(prog: seq<Top>, w: nat, k: nat, acc: nat, s: Stmt)
    requires WriteAt(prog, w) && k < |prog| && prog[k].For? && acc < |prog[k].loop.results| && acc < |prog[k].loop.yielded|
    requires prog[k].loop.results[acc] == prog[w].stmt.vec && s in prog[k].loop.body && Defines(s) && s.def == prog[k].loop.yielded[acc]
    requires !(s.Contract? && s.supported)
    ensures TraceOf(prog, w) == NoChain
  {
    assert SsaTop(prog, k);
    BodySite(prog, k, s);
    WriteOperand(prog, w);
  }
}
