/** CoralNPUVectorToMatrixPass: trace the vector of every write back to its chain, number the tiles,
    rewrite chain after chain. */
module MatrixLowering {
  import opened Options
  import opened TensorIR
  import opened TileRewrite
  import opened MatrixProgram
  import opened MatrixPass
  import opened MatrixAlways
  import opened ChainAnalysis
  import opened SsaEdits
  import opened PassComposition
  import TA = TileAssignment
  import So = ChainSoundness
  import St = StraightPass

  // ----- one write -----

  /** No chain; a chain with an initial value that is neither a read nor zero; a chain to rewrite; or
      a first update inside a loop whose result is not what is written. */
  datatype Trace = NoChain | Skipped | Traced(work: Work) | Unmodelled

  ghost predicate WriteAt(prog: seq<Top>, w: nat) {
    Ssa(prog) && w < |prog| && prog[w].Simple? && prog[w].stmt.Write?
  }

  lemma WriteOperand(prog: seq<Top>, w: nat)
    requires WriteAt(prog, w)
    ensures Before(SiteOf(prog, prog[w].stmt.vec), w)
  {
    assert SsaTop(prog, w) && prog[w].stmt.vec in Uses(prog[w].stmt);
  }

  /** The path that the written vector is traced along. */
  ghost function PathOf(prog: seq<Top>, w: nat): Option<Path>
    requires WriteAt(prog, w)
  {
    WriteOperand(prog, w);
    Walk(prog, prog[w].stmt.vec, w)
  }

  /** What the pass does with a chain: rewrite the loop whose result is written, or else the first
      update. */
  function WorkOf(prog: seq<Top>, w: nat, chain: ChainAnalysis.Chain): Trace
    requires w < |prog| && prog[w].Simple? && prog[w].stmt.Write?
  {
    var site := SiteOf(prog, prog[w].stmt.vec);
    if !SupportedInit(prog, chain.initVal) then Skipped
    else
      var init, j := InitOf(prog, chain.initVal), SiteOf(prog, chain.initVal).top;
      if site.Result? then Traced(Looped(Found(w, site.top, site.index, chain.updates, init, j)))
      else if chain.updates != [] && chain.updates[0].Contract? && SiteOf(prog, chain.updates[0].def).At? then
        Traced(Lone(St.Single(w, SiteOf(prog, chain.updates[0].def).top, init, j)))
      else Unmodelled
  }

  ghost function TraceOf(prog: seq<Top>, w: nat): Trace
    requires WriteAt(prog, w)
  {
    match Finish(prog, PathOf(prog, w), [])
    case None => NoChain
    case Some(chain) => WorkOf(prog, w, chain)
  }

  method TraceChain(prog: seq<Top>, w: nat) returns (r: Trace)
    requires WriteAt(prog, w)
    ensures r == TraceOf(prog, w)
  {
    WriteOperand(prog, w);
    var chain := AnalyzeChain(prog, prog[w].stmt.vec, w);
    if chain.None? {
      return NoChain;
    }
    r := WorkOf(prog, w, chain.value);
  }

  /** The path goes through one loop, with updates, and starts from a supported value. */
  ghost predicate OneLoopPath(prog: seq<Top>, path: Option<Path>) {
    && path.Some? && |path.value.pieces| == 1 && path.value.pieces[0].Rep? && path.value.pieces[0].updates != []
    && SupportedInit(prog, path.value.initVal)
  }

  /** A vector traced to one loop is lowered as `PassExact` describes. */
  lemma {:induction false} LoopTraced(prog: seq<Top>, w: nat) returns (f: Found)
    requires WriteAt(prog, w) && OneLoopPath(prog, PathOf(prog, w))
    ensures TraceOf(prog, w) == Traced(Looped(f)) && FoundOk(prog, f) && f.w == w
    ensures PathOf(prog, w).value.pieces == [Rep(f.k, f.us)]
  {
    WriteOperand(prog, w);
    var path := PathOf(prog, w).value;
    var us := path.pieces[0].updates;
    assert path.pieces == [path.pieces[0]];
    f := WalkFinds(prog, w, path.initVal, path.pieces[0].top, us);
    FlatAppend(prog, [], path.pieces[0]);
    assert [] + [path.pieces[0]] == path.pieces && Flat(prog, path.pieces) == us && us + [] == us;
  }

  /** A vector traced to one contraction is lowered as `SingleExact` describes. */
  lemma {:induction false} SingleTraced(prog: seq<Top>, w: nat) returns (s: St.Single)
    requires WriteAt(prog, w) && St.OneStepPath(prog, PathOf(prog, w))
    ensures TraceOf(prog, w) == Traced(Lone(s)) && St.SingleOk(prog, s) && s.w == w
  {
    WriteOperand(prog, w);
    s := St.WalkSingle(prog, w);
    assert SsaTop(prog, s.k);
  }

  // ----- all writes -----

  /** The chains of the first `i` operations, in order. */
  ghost function Traces(prog: seq<Top>, i: nat): seq<Trace>
    requires Ssa(prog) && i <= |prog|
  {
    if i == 0 then []
    else
      var rest := Traces(prog, i - 1);
      if WriteAt(prog, i - 1) && TraceOf(prog, i - 1) != NoChain then rest + [TraceOf(prog, i - 1)] else rest
  }

  lemma {:induction false} TracesNext(prog: seq<Top>, w: nat)
    requires Ssa(prog) && w < |prog|
    ensures !(prog[w].Simple? && prog[w].stmt.Write?) ==> Traces(prog, w + 1) == Traces(prog, w)
    ensures WriteAt(prog, w) ==>
              Traces(prog, w + 1) == Traces(prog, w) + if TraceOf(prog, w) == NoChain then [] else [TraceOf(prog, w)]
  {
  }

  method CollectChains(prog: seq<Top>) returns (chains: seq<Trace>)
    requires Ssa(prog)
    ensures chains == Traces(prog, |prog|)
  {
    chains := [];
    for w := 0 to |prog|
      invariant chains == Traces(prog, w)
    {
      TracesNext(prog, w);
      if prog[w].Simple? && prog[w].stmt.Write? {
        var chain := TraceChain(prog, w);
        if chain != NoChain { chains := chains + [chain]; }
      }
    }
  }

  function WorksIn(chains: seq<Trace>): seq<Work> {
    if chains == [] then []
    else
      var last := chains[|chains| - 1];
      WorksIn(chains[..|chains| - 1]) + if last.Traced? then [last.work] else []
  }

  /** The numbers of the chains that are rewritten. */
  function TilesIn(chains: seq<Trace>): seq<nat> {
    if chains == [] then []
    else TilesIn(chains[..|chains| - 1]) + if chains[|chains| - 1].Traced? then [|chains| - 1] else []
  }

  lemma {:induction false} TilesInBelow(chains: seq<Trace>)
    ensures |TilesIn(chains)| == |WorksIn(chains)|
    ensures forall i :: 0 <= i < |TilesIn(chains)| ==> TilesIn(chains)[i] < |chains|
    ensures TilesApart(TilesIn(chains))
    decreases |chains|
  {
    if chains != [] { TilesInBelow(chains[..|chains| - 1]); }
  }

  // ----- rewriting -----

  /** The first carried position with the given initial operand, or 0. */
  function FirstPosition(inits: seq<Id>, v: Id): nat {
    match IndexOf(inits, v, 0)
    case Some(i) => i
    case None => 0
  }

  lemma {:induction false} IndexIsFirst(inits: seq<Id>, v: Id, i: nat)
    requires i <= |inits| && forall j :: 0 <= j < i ==> inits[j] != v
    ensures match IndexOf(inits, v, i)
            case Some(k) => k < |inits| && inits[k] == v && forall j :: 0 <= j < k ==> inits[j] != v
            case None => v !in inits
    decreases |inits| - i
  {
    if i < |inits| && inits[i] != v { IndexIsFirst(inits, v, i + 1); }
  }

  /** The search of the pass finds it. */
  lemma {:induction false} FirstIs(inits: seq<Id>, v: Id, i: nat)
    ensures IsFirst(inits, v, i) <==> i == FirstPosition(inits, v)
  {
    IndexIsFirst(inits, v, 0);
  }

  /** The carried position that the pass drops. */
  function DroppedBy(prog: seq<Top>, work: Work): (r: nat)
    requires Shaped(prog, work)
  {
    if work.Looped? then FirstPosition(prog[Place(work)].loop.inits, prog[StartOf(work)].stmt.def) else 0
  }

  lemma {:induction false} DroppedInside(prog: seq<Top>, work: Work)
    requires Shaped(prog, work)
    ensures work.Looped? ==> DroppedBy(prog, work) < |prog[Place(work)].loop.results|
  {
    if work.Looped? { IndexIsFirst(prog[Place(work)].loop.inits, prog[StartOf(work)].stmt.def, 0); }
  }

  method DroppedPosition(prog: seq<Top>, work: Work) returns (dropped: nat)
    requires Shaped(prog, work)
    ensures dropped == DroppedBy(prog, work)
  {
    dropped := 0;
    if work.Looped? {
      dropped := FindAccIdx(prog[Place(work)].loop.inits, prog[StartOf(work)].stmt.def);
      FirstIs(prog[Place(work)].loop.inits, prog[StartOf(work)].stmt.def, dropped);
    }
  }

  /** For a chain that is handled rightly it is the chain's own. */
  lemma {:induction false} DroppedIsOwn(prog: seq<Top>, work: Work, tile: nat, n: nat)
    requires Right(prog, work, tile, n) && Shaped(prog, work)
    ensures DroppedBy(prog, work) == Position(work)
  {
    if work.Looped? {
      var inits := prog[work.f.k].loop.inits;
      FirstIs(inits, prog[work.f.j].stmt.def, DroppedBy(prog, work));
      AccIdxExact(inits, work.f.acc, DroppedBy(prog, work));
    }
  }

  /** The edit for one chain. */
  function EditFor(prog: seq<Top>, work: Work, tile: nat, n: nat): Edit
    requires Shaped(prog, work)
  {
    DroppedInside(prog, work);
    EditOf(prog, work, DroppedBy(prog, work), tile, n)
  }

  /** Chain after chain, whether or not that is right; `None` when a chain's operations are no longer
      there because an earlier chain replaced them. */
  function PassAll(prog: seq<Top>, works: seq<Work>, tiles: seq<nat>, n: nat): Option<seq<Top>>
    requires |works| == |tiles|
    decreases |works|
  {
    if works == [] then Some(prog)
    else if !Shaped(prog, works[0]) then None
    else
      var e := EditFor(prog, works[0], tiles[0], n);
      PassAll(Edited(prog, e), MoveAll(e, works[1..]), tiles[1..], 2 * n)
  }

  /** When all chains are handled rightly, this is the composition that is shown to be right. */
  lemma {:induction false} PassIsRight(prog: seq<Top>, works: seq<Work>, tiles: seq<nat>, n: nat)
    requires AllRight(prog, works, tiles, n)
    ensures PassAll(prog, works, tiles, n) == Some(LowerAll(prog, works, tiles, n))
    decreases |works|
  {
    if works != [] {
      RightShaped(prog, works[0], tiles[0], n);
      DroppedIsOwn(prog, works[0], tiles[0], n);
      var e := EditFor(prog, works[0], tiles[0], n);
      OneIsEdit(prog, works[0], tiles[0], n);
      RestRight(prog, works, tiles, n, e, Edited(prog, e));
      PassIsRight(Edited(prog, e), MoveAll(e, works[1..]), tiles[1..], 2 * n);
    }
  }

  /** The loop over the chains. */
  method LowerWorks(prog: seq<Top>, works: seq<Work>, tiles: seq<nat>, n: nat) returns (r: Option<seq<Top>>)
    requires |works| == |tiles|
    ensures r == PassAll(prog, works, tiles, n)
  {
    var code, rest, size := prog, works, n;
    for i := 0 to |works|
      invariant |rest| == |works| - i && PassAll(code, rest, tiles[i..], size) == PassAll(prog, works, tiles, n)
    {
      if !Shaped(code, rest[0]) {
        return None;
      }
      var dropped := DroppedPosition(code, rest[0]);
      DroppedInside(code, rest[0]);
      var e := EditOf(code, rest[0], dropped, tiles[i], size);
      assert tiles[i..][1..] == tiles[i + 1..];
      code, rest, size := Edited(code, e), MoveAll(e, rest[1..]), 2 * size;
    }
    r := Some(code);
  }

  datatype Outcome = Code(prog: seq<Top>) | OutOfTiles | OutsideModel

  /** The pass as a function of the traces. */
  function PassOf(prog: seq<Top>, chains: seq<Trace>, n: nat): Outcome {
    if Unmodelled in chains then OutsideModel
    else if |chains| > TA.TILE_REGISTERS then OutOfTiles
    else
      TilesInBelow(chains);
      match PassAll(prog, WorksIn(chains), TilesIn(chains), n)
      case None => OutsideModel
      case Some(code) => Code(code)
  }

  /** The pass.  It fails at the seventeenth chain; a function whose chains are all handled rightly
      leaves the same memory as before, whatever its operations mean. */
  method LowerFunction(prog: seq<Top>, n: nat) returns (r: Outcome)
    requires Ssa(prog)
    ensures var chains := Traces(prog, |prog|);
            && r == PassOf(prog, chains, n)
            && (r == OutOfTiles <==> Unmodelled !in chains && |chains| > TA.TILE_REGISTERS)
            && (Unmodelled !in chains && |chains| <= TA.TILE_REGISTERS && AllRight(prog, WorksIn(chains), TilesIn(chains), n) ==>
                r == Code(LowerAll(prog, WorksIn(chains), TilesIn(chains), n)) && AlwaysAgrees(prog, r.prog, n))
  {
    var chains := CollectChains(prog);
    if Unmodelled in chains {
      return OutsideModel;
    }
    var ok, ids := TA.AssignTiles(seq(|chains|, c requires 0 <= c < |chains| => chains[c].Traced?));
    if !ok {
      return OutOfTiles;
    }
    TilesInBelow(chains);
    var works, tiles := Numbered(chains, ids);
    var code := LowerWorks(prog, works, tiles, n);
    if AllRight(prog, works, tiles, n) {
      FunctionAgrees(prog, works, tiles, n);
      PassIsRight(prog, works, tiles, n);
    }
    if code.None? {
      return OutsideModel;
    }
    r := Code(code.value);
  }

  method Numbered(chains: seq<Trace>, ids: seq<Option<nat>>) returns (works: seq<Work>, tiles: seq<nat>)
    requires |ids| == |chains| && forall c :: 0 <= c < |ids| ==> ids[c] == if chains[c].Traced? then Some(c) else None
    ensures works == WorksIn(chains) && tiles == TilesIn(chains)
  {
    works, tiles := [], [];
    for c := 0 to |chains|
      invariant works == WorksIn(chains[..c]) && tiles == TilesIn(chains[..c])
    {
      assert chains[..c + 1][..c] == chains[..c];
      if chains[c].Traced? { works, tiles := works + [chains[c].work], tiles + [ids[c].value]; }
    }
    assert chains[..|chains|] == chains;
  }

  /** All chains lowered, for every meaning of the operations and all arguments. */
  lemma {:induction false} FunctionAgrees(prog: seq<Top>, works: seq<Work>, tiles: seq<nat>, n: nat)
    requires AllRight(prog, works, tiles, n)
    ensures AlwaysAgrees(prog, LowerAll(prog, works, tiles, n), n)
  {
    forall sem: Sem<int>, st: State<int> | Arguments(prog, n, st) && Run(sem, prog, st).Some?
      ensures SameResult(sem, prog, LowerAll(prog, works, tiles, n), st)
    {
      AllAgree(sem, prog, works, tiles, n, st);
    }
  }
}
