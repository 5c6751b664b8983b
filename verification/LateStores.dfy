/** Stores between the read of a chain's initial block and its loop.  The pass loads the tile at the
    loop, so such a store may be seen by the tile and not by the vector. */
module LateStores {
  import opened Options
  import opened TensorIR
  import opened TileRewrite
  import opened MatrixProgram
  import opened MatrixExact
  import opened MatrixPass
  import opened MatrixAlways
  import An = ChainAnalysis
  import So = ChainSoundness

  /** Arguments and operations whose values are told apart from all others. */
  datatype Marks = Marks(args: set<Id>, codes: set<nat>)

  /** An argument, or the result of an operation the pass does not look into, that is marked. */
  predicate Marked(prog: seq<Top>, x: Marks, v: Id) {
    match An.SiteOf(prog, v)
    case Outside => v in x.args
    case At(k) =>
      var s := prog[k].stmt;
      (s.Const? && !s.zero && s.code in x.codes) || (s.Other? && s.code in x.codes)
    case _ => false
  }

  /** The same, not marked. */
  predicate Unmarked(prog: seq<Top>, x: Marks, v: Id) {
    match An.SiteOf(prog, v)
    case Outside => v !in x.args
    case At(k) =>
      var s := prog[k].stmt;
      (s.Const? && (s.zero || s.code !in x.codes)) || (s.Other? && s.code !in x.codes)
    case _ => false
  }

  /** What is stored after the read has nothing to do with the addresses or with what was stored
      before the read.  Loops may store before the read but not after it. */
  predicate Independent(prog: seq<Top>, f: Found, x: Marks) {
    && f.init.Block? && Unmarked(prog, x, f.init.addr)
    && (forall i :: 0 <= i < f.j && StoresAt(prog, i) ==> Unmarked(prog, x, prog[i].stmt.vec))
    && (forall i :: f.j < i < f.k && StoresAt(prog, i) ==> Marked(prog, x, prog[i].stmt.vec) && Unmarked(prog, x, prog[i].stmt.addr))
    && (forall i :: f.j < i < f.k && i < |prog| && prog[i].For? ==> QuietBody(prog[i].loop.body))
  }

  // ----- a meaning that sees the marks -----

  function Marking(x: Marks): Sem<int> {
    Counting(2, 0, x.codes)
  }

  /** Marked values are 1 and unmarked ones 0. */
  lemma {:induction false} MarkIsOne(prog: seq<Top>, x: Marks, v: Id, i: nat, s: State<int>)
    requires An.Ssa(prog) && An.Before(An.SiteOf(prog, v), i) && v in s.env
    requires So.StateAt(Marking(x), prog, Initial(prog, 2, x.args), i) == Some(s)
    ensures Marked(prog, x, v) ==> s.env[v] == 1
    ensures Unmarked(prog, x, v) ==> s.env[v] == 0
  {
    var sem, st := Marking(x), Initial(prog, 2, x.args);
    match An.SiteOf(prog, v) {
      case Outside =>
        So.ValueKept(sem, prog, st, v, 0, i);
        assert prog[..0] == [];
      case At(k) =>
        So.ValueKept(sem, prog, st, v, k + 1, i);
        So.StateStep(sem, prog, st, k);
      case _ =>
    }
  }

  /** Everywhere 0. */
  ghost predicate AllZero(mem: map<int, int>) {
    forall a :: a in mem ==> mem[a] == 0
  }

  /** No loop iterates, so only the stores of the function itself are seen. */
  lemma {:induction false} MemoryStep(prog: seq<Top>, x: Marks, i: nat, s: State<int>, next: State<int>)
    requires VectorOnly(prog) && i < |prog| && RunTop(Marking(x), prog[i], s) == Some(next)
    ensures if StoresAt(prog, i) then prog[i].stmt.addr in s.env && prog[i].stmt.vec in s.env &&
                                      next.mem == s.mem[s.env[prog[i].stmt.addr] := s.env[prog[i].stmt.vec]]
            else next.mem == s.mem
  {
  }

  /** Where the written vector and the address come from. */
  lemma StoreOperands(prog: seq<Top>, i: nat)
    requires An.Ssa(prog) && StoresAt(prog, i)
    ensures An.Before(An.SiteOf(prog, prog[i].stmt.vec), i) && An.Before(An.SiteOf(prog, prog[i].stmt.addr), i)
  {
    assert An.SsaTop(prog, i) && prog[i].stmt.vec in Uses(prog[i].stmt) && prog[i].stmt.addr in Uses(prog[i].stmt);
  }

  /** The operands of a store, as the meaning sees them. */
  lemma {:induction false} StoredMarks(prog: seq<Top>, x: Marks, i: nat, s: State<int>)
    requires An.Ssa(prog) && StoresAt(prog, i) && prog[i].stmt.addr in s.env && prog[i].stmt.vec in s.env
    requires So.StateAt(Marking(x), prog, Initial(prog, 2, x.args), i) == Some(s)
    ensures Unmarked(prog, x, prog[i].stmt.vec) ==> s.env[prog[i].stmt.vec] == 0
    ensures Marked(prog, x, prog[i].stmt.vec) ==> s.env[prog[i].stmt.vec] == 1
    ensures Unmarked(prog, x, prog[i].stmt.addr) ==> s.env[prog[i].stmt.addr] == 0
  {
    StoreOperands(prog, i);
    MarkIsOne(prog, x, prog[i].stmt.vec, i, s);
    MarkIsOne(prog, x, prog[i].stmt.addr, i, s);
  }

  lemma {:induction false} Previous<V>(sem: Sem<V>, prog: seq<Top>, st: State<V>, i: nat, s: State<V>) returns (before: State<V>)
    requires 0 < i <= |prog| && So.StateAt(sem, prog, st, i) == Some(s)
    ensures So.StateAt(sem, prog, st, i - 1) == Some(before) && RunTop(sem, prog[i - 1], before) == Some(s)
  {
    So.StateStep(sem, prog, st, i - 1);
    before := So.StateAt(sem, prog, st, i - 1).value;
  }

  lemma {:induction false} ZeroStep(prog: seq<Top>, x: Marks, i: nat, before: State<int>, s: State<int>)
    requires An.Ssa(prog) && VectorOnly(prog) && i < |prog| && AllZero(before.mem) && RunTop(Marking(x), prog[i], before) == Some(s)
    requires So.StateAt(Marking(x), prog, Initial(prog, 2, x.args), i) == Some(before)
    requires StoresAt(prog, i) ==> Unmarked(prog, x, prog[i].stmt.vec)
    ensures AllZero(s.mem)
  {
    MemoryStep(prog, x, i, before, s);
    if StoresAt(prog, i) { StoredMarks(prog, x, i, before); }
  }

  /** Up to the read memory holds nothing but 0. */
  lemma {:induction false} ZeroBefore(prog: seq<Top>, f: Found, x: Marks, i: nat, s: State<int>)
    requires An.Ssa(prog) && Independent(prog, f, x) && VectorOnly(prog) && i <= f.j < |prog|
    requires So.StateAt(Marking(x), prog, Initial(prog, 2, x.args), i) == Some(s)
    ensures AllZero(s.mem)
    decreases i
  {
    var sem, st := Marking(x), Initial(prog, 2, x.args);
    if i == 0 {
      assert prog[..0] == [];
      forall a | a in s.mem ensures s.mem[a] == 0 { ZerosTotal(2, a); }
    } else {
      var before := Previous(sem, prog, st, i, s);
      ZeroBefore(prog, f, x, i - 1, before);
      ZeroStep(prog, x, i - 1, before, s);
    }
  }

  lemma {:induction false} OneStep(prog: seq<Top>, x: Marks, i: nat, before: State<int>, s: State<int>)
    requires An.Ssa(prog) && VectorOnly(prog) && i < |prog| && RunTop(Marking(x), prog[i], before) == Some(s)
    requires So.StateAt(Marking(x), prog, Initial(prog, 2, x.args), i) == Some(before)
    requires if StoresAt(prog, i) then Marked(prog, x, prog[i].stmt.vec) && Unmarked(prog, x, prog[i].stmt.addr)
             else 0 in before.mem && before.mem[0] == 1
    ensures 0 in s.mem && s.mem[0] == 1
  {
    MemoryStep(prog, x, i, before, s);
    if StoresAt(prog, i) { StoredMarks(prog, x, i, before); }
  }

  lemma LateMarks(prog: seq<Top>, f: Found, x: Marks, i: nat)
    requires Independent(prog, f, x) && f.j < i < f.k && StoresAt(prog, i)
    ensures Marked(prog, x, prog[i].stmt.vec) && Unmarked(prog, x, prog[i].stmt.addr)
  {
  }

  /** After a store behind the read, address 0 holds 1. */
  lemma {:induction false} OneAfter(prog: seq<Top>, f: Found, x: Marks, q: nat, i: nat, s: State<int>)
    requires An.Ssa(prog) && Independent(prog, f, x) && VectorOnly(prog) && f.j < q < i <= f.k < |prog| && StoresAt(prog, q)
    requires So.StateAt(Marking(x), prog, Initial(prog, 2, x.args), i) == Some(s)
    ensures 0 in s.mem && s.mem[0] == 1
    decreases i
  {
    var before := Previous(Marking(x), prog, Initial(prog, 2, x.args), i, s);
    if StoresAt(prog, i - 1) { LateMarks(prog, f, x, i - 1); } else { OneAfter(prog, f, x, q, i - 1, before); }
    OneStep(prog, x, i - 1, before, s);
  }

  /** The chain starts from 0, which it read at address 0. */
  lemma {:induction false} ReadsZero(prog: seq<Top>, f: Found, x: Marks, s: State<int>)
    requires FoundOk(prog, f) && Independent(prog, f, x) && VectorOnly(prog)
    requires So.StateAt(Marking(x), prog, Initial(prog, 2, x.args), f.k) == Some(s)
    ensures var v := prog[f.k].loop.inits[f.acc];
            v in s.env && s.env[v] == 0 && f.init.addr in s.env && s.env[f.init.addr] == 0
  {
    var sem, st, v, b := Marking(x), Initial(prog, 2, x.args), prog[f.k].loop.inits[f.acc], f.init.addr;
    var op := prog[f.j].stmt;
    assert An.SsaTop(prog, f.j) && b in Uses(op);
    So.ValueKept(sem, prog, st, v, f.j + 1, f.k);
    So.ValueKept(sem, prog, st, b, f.j, f.k);
    So.StateStep(sem, prog, st, f.j);
    var s0 := So.StateAt(sem, prog, st, f.j).value;
    ZeroBefore(prog, f, x, f.j, s0);
    MarkIsOne(prog, x, b, f.j, s0);
  }

  // ----- exactly the functions that are lowered rightly -----

  lemma {:induction false} StoreApart(prog: seq<Top>, f: Found, x: Marks, q: nat, tile: nat, n: nat)
    requires Plainly(prog, f, f.acc, tile, n) && Independent(prog, f, x) && f.j < q < f.k && StoresAt(prog, q)
    ensures !AlwaysAgrees(prog, Lowered(prog, f, f.acc, tile, n), n)
  {
    var sem, st := Marking(x), Initial(prog, 2, x.args);
    SourceRuns(2, 0, x.codes, prog, n, x.args);
    var s := AtLoopHolds(sem, prog, f, tile, n, st);
    ReadsZero(prog, f, x, s);
    OneAfter(prog, f, x, q, f.k, s);
    OnlyUseHolds(prog, f, tile, n);
    SourceIs(prog, f);
    LateLoadExact(sem, ChainOf(prog, f), tile, n, st, s);
    assert !SameResult(sem, prog, Lowered(prog, f, f.acc, tile, n), st);
  }

  /** A store between the read and the loop is found among the operations of the function. */
  lemma LateStoreAt(prog: seq<Top>, f: Found, x: Marks) returns (q: nat)
    requires FoundOk(prog, f) && Independent(prog, f, x) && VectorOnly(prog) && !KeepsBlock(prog, f)
    ensures f.j < q < f.k && StoresAt(prog, q)
  {
    var between := prog[f.j + 1..f.k];
    var i :| 0 <= i < |between| && !QuietTop(between[i]);
    q := f.j + 1 + i;
    assert between[i] == prog[q];
  }

  /** The pass is right for such a function, whatever its operations mean, if and only if the
      conditions of `AlwaysExact` hold and nothing is stored between the read and the loop. */
  lemma {:induction false} LateStoreExact(prog: seq<Top>, f: Found, x: Marks, found: nat, tile: nat, n: nat)
    requires Plainly(prog, f, found, tile, n) && Independent(prog, f, x)
    ensures AlwaysAgrees(prog, Lowered(prog, f, found, tile, n), n) <==> Conditions(prog, f) && KeepsBlock(prog, f)
  {
    if KeepsBlock(prog, f) {
      AlwaysExact(prog, f, found, tile, n);
    } else {
      AccIdxExact(prog[f.k].loop.inits, f.acc, found);
      if found == f.acc {
        var q := LateStoreAt(prog, f, x);
        StoreApart(prog, f, x, q, tile, n);
      } else {
        OtherApart(prog, f, found, tile, n);
      }
    }
  }

  /** Whatever is stored: with another position dropped the new loop never iterates. */
  lemma {:induction false} OtherApart(prog: seq<Top>, f: Found, found: nat, tile: nat, n: nat)
    requires Plainly(prog, f, found, tile, n) && found != f.acc
    ensures !AlwaysAgrees(prog, Lowered(prog, f, found, tile, n), n)
  {
    var sem, st := Counting(2, 1, {}), Initial(prog, 2, {});
    SourceRuns(2, 1, {}, prog, n, {});
    var s := AtLoopHolds(sem, prog, f, tile, n, st);
    OtherPosition(sem, prog, f, found, tile, n, st, s);
    assert !SameResult(sem, prog, Lowered(prog, f, found, tile, n), st);
  }
}
