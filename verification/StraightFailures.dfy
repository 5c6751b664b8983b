/** Two contractions outside loops: the pass lowers the first and leaves the second without effect. */
module StraightFailures {
  import opened Options
  import opened TensorIR
  import opened TileRewrite
  import opened MatrixProgram
  import opened SsaEdits
  import opened MatrixLowering
  import CS = ChainStarts
  import PC = PassComposition
  import An = ChainAnalysis
  import St = StraightPass

  const NAMES: nat := 7

  function First(): Stmt { Contract(5, 0, 1, 3, true, false) }
  function Second(acc: Id): Stmt { Contract(6, 0, 1, acc, true, false) }

  /** C = 0 + A * B + A * B. */
  function Twice(): seq<Top> {
    [Simple(Const(3, true, 0)), Simple(First()), Simple(Second(5)), Simple(Write(4, 6))]
  }

  /** The tile is updated once; the second contraction is on the zero vector that stands for the first,
      and its result is not used. */
  function TwiceLowered(): seq<Top> {
    [ Simple(Const(3, true, 0)),
      Simple(TileZero(0)), Simple(TileMac(0, 0, 1)), Simple(Const(12, true, 0)),
      Simple(Second(12)),
      Simple(TileStore(0, 4)) ]
  }

  function Site(x: Id): An.Site {
    if x == 3 then An.At(0) else if x == 5 then An.At(1) else if x == 6 then An.At(2) else An.Outside
  }

  lemma {:induction false} SiteIs(x: Id)
    ensures An.SiteOf(Twice(), x) == Site(x)
  {
    var p := Twice();
    assert An.SiteFrom(p, x, 4) == An.Outside;
    assert An.SiteFrom(p, x, 3) == An.Outside;
    assert An.SiteFrom(p, x, 2) == if x == 6 then An.At(2) else An.Outside;
    assert An.SiteFrom(p, x, 1) == if x == 5 then An.At(1) else An.SiteFrom(p, x, 2);
  }

  lemma {:induction false} TwiceSsa()
    ensures An.Ssa(Twice())
  {
    forall k | 0 <= k < |Twice()| ensures An.SsaTop(Twice(), k) {
      SiteIs(0);
      SiteIs(1);
      SiteIs(3);
      SiteIs(4);
      SiteIs(5);
      SiteIs(6);
    }
  }

  function TwiceWork(): PC.Work {
    PC.Lone(St.Single(3, 1, Init.Zero, 0))
  }

  lemma {:induction false} TwiceTraces()
    ensures An.Ssa(Twice()) && Traces(Twice(), 4) == [Traced(TwiceWork())]
  {
    var p := Twice();
    TwiceSsa();
    var ks := [1, 2];
    assert ks[..1] == [1] && ks[..1][..0] == [];
    assert CS.StraightChain(p, 3, [], 3) && CS.StraightChain(p, 3, ks[..1], 5) && CS.StraightChain(p, 3, ks, 6);
    CS.OnesFromZero(p, 3, 3, ks, 0, 0);
    TracesNext(p, 0);
    TracesNext(p, 1);
    TracesNext(p, 2);
    TracesNext(p, 3);
    assert Traces(p, 0) == [];
  }

  lemma {:induction false} TwiceEdited()
    ensures PC.Shaped(Twice(), TwiceWork()) && Edited(Twice(), EditFor(Twice(), TwiceWork(), 0, NAMES)) == TwiceLowered()
  {
    var p, e := Twice(), EditFor(Twice(), TwiceWork(), 0, NAMES);
    assert e.m == map[5 := 12];
    assert p[..1] == [p[0]] && p[2..3] == [p[2]] && p[4..] == [];
    assert RenameProg(e.m, p[2..3]) == [Simple(Second(12))] && RenameProg(e.m, p[4..]) == [];
  }

  lemma {:induction false} OneWork(prog: seq<Top>, work: PC.Work)
    requires PC.Shaped(prog, work)
    ensures PassAll(prog, [work], [0], NAMES) == Some(Edited(prog, EditFor(prog, work, 0, NAMES)))
  {
    assert [work][1..] == [] && [0][1..] == [];
  }

  lemma {:induction false} TwicePass()
    ensures PassOf(Twice(), [Traced(TwiceWork())], NAMES) == Code(TwiceLowered())
  {
    TwiceEdited();
    OneWork(Twice(), TwiceWork());
    assert [Traced(TwiceWork())][..0] == [];
  }

  /** What the pass returns. */
  method LowerTwice() returns (r: Outcome)
    ensures r == Code(TwiceLowered())
  {
    TwiceTraces();
    TwicePass();
    r := LowerFunction(Twice(), NAMES);
  }

  // ----- what it leaves -----

  lemma {:induction false} SourceLeaves<V>(sem: Sem<V>, st: State<V>)
    requires {0, 1, 4} <= st.env.Keys
    ensures var a, b := st.env[0], st.env[1];
            var r := Run(sem, Twice(), st);
            r.Some? && r.value.mem == st.mem[st.env[4] := sem.mac(sem.mac(sem.zero, a, b), a, b)]
  {
    var s1 := Define(st, 3, sem.zero);
    var s2 := Step(sem, First(), s1).value;
    var s3 := Step(sem, Second(5), s2).value;
    var p := Twice();
    assert p[1..][0] == p[1] && p[1..][1..] == p[2..] && p[2..][1..] == p[3..] && p[3..][1..] == [];
    assert Run(sem, p, st) == Run(sem, p[1..], s1) == Run(sem, p[2..], s2) == Run(sem, p[3..], s3);
    RunOne(sem, p[3], s3);
    assert p[3..] == [p[3]];
  }

  lemma {:induction false} LoweredLeaves<V>(sem: Sem<V>, st: State<V>)
    requires {0, 1, 4} <= st.env.Keys
    ensures var r := Run(sem, TwiceLowered(), st);
            r.Some? && r.value.mem == st.mem[st.env[4] := sem.mac(sem.zero, st.env[0], st.env[1])]
  {
    var s1 := Define(st, 3, sem.zero);
    var s2 := Step(sem, TileZero(0), s1).value;
    var s3 := Step(sem, TileMac(0, 0, 1), s2).value;
    var s4 := Define(s3, 12, sem.zero);
    var s5 := Step(sem, Second(12), s4).value;
    var p := TwiceLowered();
    assert p[1..][1..] == p[2..] && p[2..][1..] == p[3..] && p[3..][1..] == p[4..] && p[4..][1..] == p[5..] && p[5..] == [p[5]];
    assert Run(sem, p, st) == Run(sem, p[1..], s1) == Run(sem, p[2..], s2) == Run(sem, p[3..], s3);
    assert Run(sem, p[3..], s3) == Run(sem, p[4..], s4) == Run(sem, p[5..], s5);
    RunOne(sem, p[5], s5);
  }

  /** The lowered function is right exactly for the meanings and operands on which a second update
      changes nothing. */
  lemma {:induction false} TwiceExact<V>(sem: Sem<V>, st: State<V>)
    requires {0, 1, 4} <= st.env.Keys
    ensures var a, b := st.env[0], st.env[1];
            var r1, r2 := Run(sem, Twice(), st), Run(sem, TwiceLowered(), st);
            && r1.Some? && r2.Some?
            && (r1.value.mem == r2.value.mem <==> sem.mac(sem.mac(sem.zero, a, b), a, b) == sem.mac(sem.zero, a, b))
  {
    SourceLeaves(sem, st);
    LoweredLeaves(sem, st);
    var x := st.env[4];
    assert Run(sem, Twice(), st).value.mem[x] == sem.mac(sem.mac(sem.zero, st.env[0], st.env[1]), st.env[0], st.env[1]);
    assert Run(sem, TwiceLowered(), st).value.mem[x] == sem.mac(sem.zero, st.env[0], st.env[1]);
  }

  /** With integers and A = B = 1 the source stores 2 and the lowered function 1. */
  lemma {:induction false} TwiceFails(sem: Sem<int>, st: State<int>)
    requires sem.zero == 0 && (forall c, a, b :: sem.mac(c, a, b) == c + a * b)
    requires {0, 1, 4} <= st.env.Keys && st.env[0] == st.env[1] == 1
    ensures var r1, r2 := Run(sem, Twice(), st), Run(sem, TwiceLowered(), st);
            && r1.Some? && r1.value.mem == st.mem[st.env[4] := 2]
            && r2.Some? && r2.value.mem == st.mem[st.env[4] := 1]
  {
    SourceLeaves(sem, st);
    LoweredLeaves(sem, st);
  }
}
