/** The tile operations carried out on memory cells.  Block loads and stores run as row operations,
    tile updates as element-wise multiply-adds; what the cells then hold is what the functions of
    `TensorIR` compute on whole blocks. */
module CellRefinement {
  import opened Options
  import opened TensorIR
  import opened TileMemory
  import MP = MatrixPass

  /** An index, a vector, or a block. */
  datatype Value<E> = Index(k: nat) | Vector(v: seq<E>) | Block(b: seq<seq<E>>)

  /** Blocks of `rows` by `cols` elements; `place` says where the block of an address lies, for the
      addresses in `addrs`. */
  datatype Config<!E(==)> = Config(rows: nat, cols: nat, zero: E, fma: (E, E, E) -> E, place: Value<E> -> Call, addrs: set<Value<E>>)

  /** The block of all elements `e(i, j)`. */
  ghost function Filled<E>(m: nat, n: nat, e: (nat, nat) -> E): Value<E> {
    Value.Block(seq(m, i requires 0 <= i < m => seq(n, j requires 0 <= j < n => e(i, j))))
  }

  ghost predicate IsBlock<E>(v: Value<E>, m: nat, n: nat) {
    v.Block? && |v.b| == m && forall i :: 0 <= i < m ==> |v.b[i]| == n
  }

  lemma FilledSame<E>(m: nat, n: nat, e: (nat, nat) -> E, e': (nat, nat) -> E)
    requires forall i: nat, j: nat :: i < m && j < n ==> e(i, j) == e'(i, j)
    ensures Filled(m, n, e) == Filled(m, n, e')
  {
    forall i: nat | i < m ensures Filled(m, n, e).b[i] == Filled(m, n, e').b[i] {
      forall j: nat | j < n ensures Filled(m, n, e).b[i][j] == Filled(m, n, e').b[i][j] {
        assert e(i, j) == e'(i, j);
      }
    }
  }

  /** Element `i` of a vector. */
  function Element<E>(v: Value<E>, i: nat, zero: E): E {
    if v.Vector? && i < |v.v| then v.v[i] else zero
  }

  function ElementAt<E>(v: Value<E>, i: nat, j: nat, zero: E): E {
    if v.Block? && i < |v.b| && j < |v.b[i]| then v.b[i][j] else zero
  }

  /** C[i][j] multiplied and added with a[i] and b[j]. */
  ghost function OuterMac<E>(c: Config<E>, acc: Value<E>, a: Value<E>, b: Value<E>): Value<E> {
    Filled(c.rows, c.cols, (i: nat, j: nat) => c.fma(ElementAt(acc, i, j, c.zero), Element(a, i, c.zero), Element(b, j, c.zero)))
  }

  /** The meaning of the operations on blocks; the rest of `sem` is free. */
  ghost predicate OnBlocks<E(!new)>(c: Config<E>, sem: Sem<Value<E>>) {
    && sem.zero == Filled(c.rows, c.cols, (i: nat, j: nat) => c.zero)
    && forall acc, a, b :: sem.mac(acc, a, b) == OuterMac(c, acc, a, b)
  }

  // ----- cells -----

  /** Values by name, the tiles in use, the addresses that hold a block, and the machine. */
  datatype Cells<E(==)> = Cells(env: map<Id, Value<E>>, held: set<nat>, blocks: set<Value<E>>, machine: Machine<E>)

  ghost function TileBlock<E>(c: Config<E>, s: Machine<E>, t: nat): Value<E> {
    Filled(c.rows, c.cols, (i: nat, j: nat) => s.tiles(t, i, j))
  }

  ghost function MemBlock<E>(c: Config<E>, s: Machine<E>, a: Value<E>): Value<E> {
    Filled(c.rows, c.cols, (i: nat, j: nat) => s.mem(BlockAddr(c.place(a), i, j)))
  }

  /** The state that the cells stand for. */
  ghost function BlockState<E(!new)>(c: Config<E>, s: Cells<E>): State<Value<E>> {
    State(s.env, map t: nat | t in s.held :: TileBlock(c, s.machine, t), map a: Value<E> | a in s.blocks :: MemBlock(c, s.machine, a))
  }

  /** The block at `a`, moved to or from tile `t`. */
  function Transfer<E(==)>(c: Config<E>, a: Value<E>, t: nat, load: bool): Call {
    c.place(a).(load := load, tile := t)
  }

  /** The row operations of a call. */
  function RowCode(call: Call): seq<RowOp> {
    var rows := if NumRows(call) < 0 then 0 else NumRows(call);
    seq(rows, row requires 0 <= row < rows => RowOp(call.load, Tss(call.tile, row), RowAddr(call, row)))
  }

  /** What the lowering emits. */
  lemma RowCodeIs(call: Call, code: seq<RowOp>)
    ensures LoweredTo(call, code) <==> code == RowCode(call)
  {
  }

  ghost function Transferred<E>(c: Config<E>, call: Call, s: Machine<E>): Machine<E> {
    ExecRows(RowCode(call), |RowCode(call)|, c.cols, s)
  }

  ghost function ExecZero<E>(c: Config<E>, t: nat, s: Machine<E>): Machine<E> {
    s.(tiles := (t': nat, r: nat, j: nat) => if t' == t && r < c.rows && j < c.cols then c.zero else s.tiles(t', r, j))
  }

  const MACHINE_TILES: nat := 32

  /** One statement; those that touch neither tile nor memory have the meaning they had. */
  ghost function CellStep<E(!new)>(c: Config<E>, sem: Sem<Value<E>>, s: Stmt, st: Cells<E>): Option<Cells<E>> {
    var env := st.env;
    match s
    case TileZero(t) =>
      if t < MACHINE_TILES then Some(st.(held := st.held + {t}, machine := ExecZero(c, t, st.machine))) else None
    case TileLoad(t, addr) =>
      if addr in env && env[addr] in st.blocks && t < MACHINE_TILES then
        Some(st.(held := st.held + {t}, machine := Transferred(c, Transfer(c, env[addr], t, true), st.machine)))
      else None
    case TileMac(t, lhs, rhs) =>
      if t in st.held && lhs in env && rhs in env then
        Some(st.(machine := ExecMac(c.fma, t, c.rows, c.cols, (i: nat) => Element(env[lhs], i, c.zero),
                                    (j: nat) => Element(env[rhs], j, c.zero), st.machine)))
      else None
    case TileStore(t, addr) =>
      if t in st.held && addr in env && env[addr] in c.addrs then
        Some(st.(blocks := st.blocks + {env[addr]}, machine := Transferred(c, Transfer(c, env[addr], t, false), st.machine)))
      else None
    case Write(_, _) => None
    case _ =>
      match Step(sem, s, BlockState(c, st))
      case None => None
      case Some(r) => Some(st.(env := r.env))
  }

  // ----- one statement -----

  /** The block of an address has the configured shape and rows that do not overlap. */
  ghost predicate Fits(call: Call, m: nat, n: nat) {
    HasRows(call, m) && m <= ROW_LIMIT && (n <= 1 || call.stride1 == 1) && (m <= 1 || TileMemory.Abs(call.stride0) >= n)
  }

  ghost predicate BlocksApart<E(!new)>(c: Config<E>, a: Value<E>, b: Value<E>) {
    forall i: nat, j: nat, i': nat, j': nat :: i < c.rows && j < c.cols && i' < c.rows && j' < c.cols ==>
      BlockAddr(c.place(a), i, j) != BlockAddr(c.place(b), i', j')
  }

  /** Different addresses have disjoint blocks. */
  ghost predicate Laid<E(!new)>(c: Config<E>) {
    && (forall a :: a in c.addrs ==> Fits(c.place(a), c.rows, c.cols))
    && (forall a, b :: a in c.addrs && b in c.addrs && a != b ==> BlocksApart(c, a, b))
  }

  ghost predicate Sound<E(!new)>(c: Config<E>, st: Cells<E>) {
    st.blocks <= c.addrs && forall t :: t in st.held ==> t < MACHINE_TILES
  }

  /** Only one tile changes. */
  lemma {:induction false} TilesUpdated<E(!new)>(c: Config<E>, st: Cells<E>, t: nat, s': Machine<E>, v: Value<E>)
    requires s'.mem == st.machine.mem && TileBlock(c, s', t) == v
    requires forall t': nat :: t' != t ==> TileBlock(c, s', t') == TileBlock(c, st.machine, t')
    ensures BlockState(c, st.(held := st.held + {t}, machine := s')) == BlockState(c, st).(tiles := BlockState(c, st).tiles[t := v])
  {
    var r := st.(held := st.held + {t}, machine := s');
    assert BlockState(c, r).tiles == BlockState(c, st).tiles[t := v];
    forall a | a in st.blocks ensures MemBlock(c, s', a) == MemBlock(c, st.machine, a) {
      FilledSame(c.rows, c.cols, (i: nat, j: nat) => s'.mem(BlockAddr(c.place(a), i, j)),
                 (i: nat, j: nat) => st.machine.mem(BlockAddr(c.place(a), i, j)));
    }
    assert BlockState(c, r).mem == BlockState(c, st).mem;
  }

  lemma {:induction false} ZeroRefines<E(!new)>(c: Config<E>, sem: Sem<Value<E>>, t: nat, st: Cells<E>)
    requires OnBlocks(c, sem) && t < MACHINE_TILES
    ensures Step(sem, TileZero(t), BlockState(c, st)) == Some(BlockState(c, CellStep(c, sem, TileZero(t), st).value))
  {
    var s' := ExecZero(c, t, st.machine);
    FilledSame(c.rows, c.cols, (i: nat, j: nat) => s'.tiles(t, i, j), (i: nat, j: nat) => c.zero);
    forall t': nat | t' != t ensures TileBlock(c, s', t') == TileBlock(c, st.machine, t') { SameTiles(c, st.machine, s', t'); }
    TilesUpdated(c, st, t, s', sem.zero);
  }

  lemma SameTiles<E(!new)>(c: Config<E>, s: Machine<E>, s': Machine<E>, t: nat)
    requires forall i: nat, j: nat :: i < c.rows && j < c.cols ==> s'.tiles(t, i, j) == s.tiles(t, i, j)
    ensures TileBlock(c, s', t) == TileBlock(c, s, t)
  {
    FilledSame(c.rows, c.cols, (i: nat, j: nat) => s'.tiles(t, i, j), (i: nat, j: nat) => s.tiles(t, i, j));
  }

  /** The call moves a block of the configured shape. */
  lemma TransferFits<E(!new)>(c: Config<E>, a: Value<E>, t: nat, load: bool)
    requires Laid(c) && a in c.addrs && t < MACHINE_TILES
    ensures var call := Transfer(c, a, t, load);
            && BlockCall(call, c.rows, c.cols) && |RowCode(call)| == c.rows && LoweredTo(call, RowCode(call)) && TileFits(call, c.rows)
            && (c.rows <= 1 || TileMemory.Abs(call.stride0) >= c.cols)
            && forall i: nat, j: nat :: BlockAddr(call, i, j) == BlockAddr(c.place(a), i, j)
  {
    RowCodeIs(Transfer(c, a, t, load), RowCode(Transfer(c, a, t, load)));
  }

  lemma {:induction false} OtherTiles<E(!new)>(c: Config<E>, a: Value<E>, t: nat, call: Call, s: Machine<E>, s': Machine<E>, t': nat)
    requires Laid(c) && a in c.addrs && t < MACHINE_TILES && call == Transfer(c, a, t, true) && s' == Transferred(c, call, s)
    ensures s'.mem == s.mem && (t' != t ==> TileBlock(c, s', t') == TileBlock(c, s, t'))
  {
    TransferFits(c, a, t, true);
    LoadRows(call, RowCode(call), c.rows, c.cols, s, 0, 0, 0);
    if t' != t {
      forall i: nat, j: nat | i < c.rows && j < c.cols ensures s'.tiles(t', i, j) == s.tiles(t', i, j) {
        LoadRows(call, RowCode(call), c.rows, c.cols, s, t', i, j);
      }
      SameTiles(c, s, s', t');
    }
  }

  /** The row loads fill the tile with the block. */
  lemma {:induction false} LoadRefines<E(!new)>(c: Config<E>, sem: Sem<Value<E>>, t: nat, addr: Id, st: Cells<E>)
    requires Laid(c) && Sound(c, st) && CellStep(c, sem, TileLoad(t, addr), st).Some?
    ensures Step(sem, TileLoad(t, addr), BlockState(c, st)) == Some(BlockState(c, CellStep(c, sem, TileLoad(t, addr), st).value))
  {
    var a := st.env[addr];
    var call := Transfer(c, a, t, true);
    var s' := Transferred(c, call, st.machine);
    OtherTiles(c, a, t, call, st.machine, s', t);
    forall t': nat | t' != t ensures TileBlock(c, s', t') == TileBlock(c, st.machine, t') { OtherTiles(c, a, t, call, st.machine, s', t'); }
    TileLoaded(c, a, t, call, st.machine, s');
    TilesUpdated(c, st, t, s', MemBlock(c, st.machine, a));
  }

  lemma {:induction false} TileLoaded<E(!new)>(c: Config<E>, a: Value<E>, t: nat, call: Call, s: Machine<E>, s': Machine<E>)
    requires Laid(c) && a in c.addrs && t < MACHINE_TILES && call == Transfer(c, a, t, true) && s' == Transferred(c, call, s)
    ensures TileBlock(c, s', t) == MemBlock(c, s, a)
  {
    TransferFits(c, a, t, true);
    forall i: nat, j: nat | i < c.rows && j < c.cols ensures s'.tiles(t, i, j) == s.mem(BlockAddr(c.place(a), i, j)) {
      LoadRows(call, RowCode(call), c.rows, c.cols, s, t, i, j);
      ColumnAt(call, c.rows, c.cols, i, j);
    }
    FilledSame(c.rows, c.cols, (i: nat, j: nat) => s'.tiles(t, i, j), (i: nat, j: nat) => s.mem(BlockAddr(c.place(a), i, j)));
  }

  /** The element-wise multiply-adds are the block's. */
  lemma {:induction false} MacRefines<E(!new)>(c: Config<E>, sem: Sem<Value<E>>, t: nat, lhs: Id, rhs: Id, st: Cells<E>)
    requires OnBlocks(c, sem) && CellStep(c, sem, TileMac(t, lhs, rhs), st).Some?
    ensures Step(sem, TileMac(t, lhs, rhs), BlockState(c, st)) == Some(BlockState(c, CellStep(c, sem, TileMac(t, lhs, rhs), st).value))
  {
    var st' := CellStep(c, sem, TileMac(t, lhs, rhs), st).value;
    var s' := st'.machine;
    forall t': nat | t' != t ensures TileBlock(c, s', t') == TileBlock(c, st.machine, t') { SameTiles(c, st.machine, s', t'); }
    TileUpdated(c, t, st.env[lhs], st.env[rhs], st.machine, s');
    TilesUpdated(c, st, t, s', OuterMac(c, TileBlock(c, st.machine, t), st.env[lhs], st.env[rhs]));
    assert st.held + {t} == st.held;
  }

  lemma {:induction false} TileUpdated<E(!new)>(c: Config<E>, t: nat, a: Value<E>, b: Value<E>, s: Machine<E>, s': Machine<E>)
    requires s' == ExecMac(c.fma, t, c.rows, c.cols, (i: nat) => Element(a, i, c.zero), (j: nat) => Element(b, j, c.zero), s)
    ensures TileBlock(c, s', t) == OuterMac(c, TileBlock(c, s, t), a, b)
  {
    var acc := TileBlock(c, s, t);
    forall i: nat, j: nat | i < c.rows && j < c.cols
      ensures s'.tiles(t, i, j) == c.fma(ElementAt(acc, i, j, c.zero), Element(a, i, c.zero), Element(b, j, c.zero))
    {
      assert acc.b[i][j] == s.tiles(t, i, j);
    }
    FilledSame(c.rows, c.cols, (i: nat, j: nat) => s'.tiles(t, i, j),
               (i: nat, j: nat) => c.fma(ElementAt(acc, i, j, c.zero), Element(a, i, c.zero), Element(b, j, c.zero)));
  }

  lemma {:induction false} CellStored<E(!new)>(c: Config<E>, call: Call, code: seq<RowOp>, s: Machine<E>, i: nat, j: nat)
    requires BlockCall(call, c.rows, c.cols) && !call.load && LoweredTo(call, code) && |code| == c.rows && i < c.rows && j < c.cols
    requires c.rows <= 1 || TileMemory.Abs(call.stride0) >= c.cols
    ensures ExecRows(code, |code|, c.cols, s).mem(BlockAddr(call, i, j)) == s.tiles(call.tile, i, j)
  {
    RowsApartExact(call, c.rows, c.cols);
    LoweredApart(call, code, c.cols);
    ColumnAt(call, c.rows, c.cols, i, j);
    StoreRows(code, call.tile, c.rows, c.cols, s, i, j);
  }

  /** The row stores fill the block with the tile. */
  lemma {:induction false} BlockStored<E(!new)>(c: Config<E>, a: Value<E>, t: nat, call: Call, s: Machine<E>, s': Machine<E>)
    requires Laid(c) && a in c.addrs && t < MACHINE_TILES && call == Transfer(c, a, t, false) && s' == Transferred(c, call, s)
    ensures MemBlock(c, s', a) == TileBlock(c, s, t) && s'.tiles == s.tiles
  {
    TransferFits(c, a, t, false);
    StoreKeepsTiles(RowCode(call), c.rows, c.cols, s);
    forall i: nat, j: nat | i < c.rows && j < c.cols ensures s'.mem(BlockAddr(c.place(a), i, j)) == s.tiles(t, i, j) {
      CellStored(c, call, RowCode(call), s, i, j);
    }
    FilledSame(c.rows, c.cols, (i: nat, j: nat) => s'.mem(BlockAddr(c.place(a), i, j)), (i: nat, j: nat) => s.tiles(t, i, j));
  }

  /** And no other block. */
  lemma {:induction false} OtherBlocks<E(!new)>(c: Config<E>, a: Value<E>, b: Value<E>, t: nat, call: Call, s: Machine<E>, s': Machine<E>)
    requires Laid(c) && a in c.addrs && b in c.addrs && a != b && t < MACHINE_TILES
    requires call == Transfer(c, a, t, false) && s' == Transferred(c, call, s)
    ensures MemBlock(c, s', b) == MemBlock(c, s, b)
  {
    TransferFits(c, a, t, false);
    assert BlocksApart(c, b, a);
    forall i: nat, j: nat | i < c.rows && j < c.cols
      ensures s'.mem(BlockAddr(c.place(b), i, j)) == s.mem(BlockAddr(c.place(b), i, j))
    {
      RowsInBlock(call, c.rows, c.cols, BlockAddr(c.place(b), i, j));
      StoreOutside(call, RowCode(call), c.rows, c.cols, s, BlockAddr(c.place(b), i, j));
    }
    FilledSame(c.rows, c.cols, (i: nat, j: nat) => s'.mem(BlockAddr(c.place(b), i, j)), (i: nat, j: nat) => s.mem(BlockAddr(c.place(b), i, j)));
  }

  /** Only one block changes. */
  lemma {:induction false} BlocksUpdated<E(!new)>(c: Config<E>, st: Cells<E>, a: Value<E>, s': Machine<E>, v: Value<E>)
    requires s'.tiles == st.machine.tiles && MemBlock(c, s', a) == v
    requires forall b :: b in st.blocks && b != a ==> MemBlock(c, s', b) == MemBlock(c, st.machine, b)
    ensures BlockState(c, st.(blocks := st.blocks + {a}, machine := s')) == BlockState(c, st).(mem := BlockState(c, st).mem[a := v])
  {
    var r := st.(blocks := st.blocks + {a}, machine := s');
    assert BlockState(c, r).mem == BlockState(c, st).mem[a := v];
    forall t | t in st.held ensures TileBlock(c, s', t) == TileBlock(c, st.machine, t) { SameTiles(c, st.machine, s', t); }
    assert BlockState(c, r).tiles == BlockState(c, st).tiles;
  }

  lemma {:induction false} StoreRefines<E(!new)>(c: Config<E>, sem: Sem<Value<E>>, t: nat, addr: Id, st: Cells<E>)
    requires Laid(c) && Sound(c, st) && CellStep(c, sem, TileStore(t, addr), st).Some?
    ensures Step(sem, TileStore(t, addr), BlockState(c, st)) == Some(BlockState(c, CellStep(c, sem, TileStore(t, addr), st).value))
  {
    var a := st.env[addr];
    var call := Transfer(c, a, t, false);
    var s' := Transferred(c, call, st.machine);
    BlockStored(c, a, t, call, st.machine, s');
    forall b | b in st.blocks && b != a ensures MemBlock(c, s', b) == MemBlock(c, st.machine, b) {
      OtherBlocks(c, a, b, t, call, st.machine, s');
    }
    BlocksUpdated(c, st, a, s', TileBlock(c, st.machine, t));
  }

  lemma {:induction false} NamesRefine<E(!new)>(c: Config<E>, sem: Sem<Value<E>>, s: Stmt, st: Cells<E>)
    requires (s.Const? || s.Read? || s.Contract? || s.Other?) && CellStep(c, sem, s, st).Some?
    ensures Step(sem, s, BlockState(c, st)) == Some(BlockState(c, CellStep(c, sem, s, st).value))
  {
  }

  lemma {:induction false} StaysSound<E(!new)>(c: Config<E>, sem: Sem<Value<E>>, s: Stmt, st: Cells<E>)
    requires Sound(c, st) && CellStep(c, sem, s, st).Some?
    ensures Sound(c, CellStep(c, sem, s, st).value)
  {
  }

  /** One statement on the cells is one on the blocks. */
  lemma {:induction false} StepRefines<E(!new)>(c: Config<E>, sem: Sem<Value<E>>, s: Stmt, st: Cells<E>)
    requires Setting(c, sem) && Sound(c, st) && CellStep(c, sem, s, st).Some?
    ensures Step(sem, s, BlockState(c, st)) == Some(BlockState(c, CellStep(c, sem, s, st).value))
  {
    match s {
      case TileZero(t) => ZeroRefines(c, sem, t, st);
      case TileLoad(t, addr) => LoadRefines(c, sem, t, addr, st);
      case TileMac(t, lhs, rhs) => MacRefines(c, sem, t, lhs, rhs, st);
      case TileStore(t, addr) => StoreRefines(c, sem, t, addr, st);
      case _ => NamesRefine(c, sem, s, st);
    }
  }

  /** No vector is written, and only tiles of the machine are named. */
  predicate OnCells(s: Stmt) {
    match s
    case Write(_, _) => false
    case TileZero(t) => t < MACHINE_TILES
    case TileLoad(t, _) => t < MACHINE_TILES
    case _ => true
  }

  lemma {:induction false} StepOnCells<E(!new)>(c: Config<E>, sem: Sem<Value<E>>, s: Stmt, st: Cells<E>)
    requires OnCells(s) && Step(sem, s, BlockState(c, st)).Some? && Step(sem, s, BlockState(c, st)).value.mem.Keys <= c.addrs
    ensures CellStep(c, sem, s, st).Some?
  {
    if s.TileStore? { assert st.env[s.addr] in Step(sem, s, BlockState(c, st)).value.mem.Keys; }
  }

  // ----- bodies and loops -----

  ghost function CellSteps<E(!new)>(c: Config<E>, sem: Sem<Value<E>>, body: seq<Stmt>, st: Cells<E>): Option<Cells<E>> {
    if body == [] then Some(st)
    else match CellStep(c, sem, body[0], st)
      case None => None
      case Some(next) => CellSteps(c, sem, body[1..], next)
  }

  /** Values carried from one iteration to the next, and the machine; the names do not outlive it. */
  datatype CellPass<E(==)> = CellPass(carried: seq<Value<E>>, held: set<nat>, blocks: set<Value<E>>, machine: Machine<E>)

  ghost function With<E(!new)>(env: map<Id, Value<E>>, p: CellPass<E>): Cells<E> {
    Cells(env, p.held, p.blocks, p.machine)
  }

  ghost function BlockPass<E(!new)>(c: Config<E>, p: CellPass<E>): Pass<Value<E>> {
    var s := BlockState(c, With(map[], p));
    Pass(p.carried, s.tiles, s.mem)
  }

  ghost function CellIteration<E(!new)>(c: Config<E>, sem: Sem<Value<E>>, l: Loop, env: map<Id, Value<E>>, k: nat,
                                 p: CellPass<E>): Option<CellPass<E>> {
    if l.lb !in env || l.step !in env || |l.args| != |p.carried| then None
    else match CellSteps(c, sem, l.body, With(BodyState(sem, l, env, k, BlockPass(c, p)).env, p))
      case None => None
      case Some(st) =>
        if Defined(st.env, l.yielded) then Some(CellPass(Values(st.env, l.yielded), st.held, st.blocks, st.machine)) else None
  }

  ghost function CellIterate<E(!new)>(c: Config<E>, sem: Sem<Value<E>>, l: Loop, env: map<Id, Value<E>>, k: nat,
                               p: CellPass<E>): Option<CellPass<E>> {
    if k == 0 then Some(p)
    else match CellIterate(c, sem, l, env, k - 1, p)
      case None => None
      case Some(q) => CellIteration(c, sem, l, env, k - 1, q)
  }

  ghost function CellEntry<E(!new)>(l: Loop, st: Cells<E>): CellPass<E>
    requires CanEnter(l, st.env)
  {
    CellPass(Values(st.env, l.inits), st.held, st.blocks, st.machine)
  }

  ghost function CellLoop<E(!new)>(c: Config<E>, sem: Sem<Value<E>>, l: Loop, st: Cells<E>): Option<Cells<E>> {
    if !CanEnter(l, st.env) then None
    else match CellIterate(c, sem, l, st.env, Trips(sem, l, st.env), CellEntry(l, st))
      case None => None
      case Some(p) => if |p.carried| == |l.results| then Some(With(Bind(st.env, l.results, p.carried), p)) else None
  }

  ghost function CellTop<E(!new)>(c: Config<E>, sem: Sem<Value<E>>, top: Top, st: Cells<E>): Option<Cells<E>> {
    match top
    case Simple(s) => CellStep(c, sem, s, st)
    case For(l) => CellLoop(c, sem, l, st)
  }

  /** The lowered function on the machine. */
  ghost function CellRun<E(!new)>(c: Config<E>, sem: Sem<Value<E>>, prog: seq<Top>, st: Cells<E>): Option<Cells<E>> {
    if prog == [] then Some(st)
    else match CellTop(c, sem, prog[0], st)
      case None => None
      case Some(next) => CellRun(c, sem, prog[1..], next)
  }

  // ----- the refinement -----

  ghost predicate Setting<E(!new)>(c: Config<E>, sem: Sem<Value<E>>) {
    Laid(c) && OnBlocks(c, sem)
  }

  /** What the cells compute is what the blocks compute. */
  ghost predicate Refined<E(!new)>(c: Config<E>, cells: Option<Cells<E>>, blocks: Option<State<Value<E>>>) {
    cells.Some? ==> Sound(c, cells.value) && blocks == Some(BlockState(c, cells.value))
  }

  /** The machine does not stop while the block function runs within the known addresses. */
  ghost predicate Keeps<E(!new)>(c: Config<E>, cells: Option<Cells<E>>, blocks: Option<State<Value<E>>>) {
    blocks.Some? && blocks.value.mem.Keys <= c.addrs ==> cells.Some?
  }

  predicate BodyOnCells(body: seq<Stmt>) {
    forall p :: 0 <= p < |body| ==> OnCells(body[p])
  }

  lemma {:induction false} StepsRefine<E(!new)>(c: Config<E>, sem: Sem<Value<E>>, body: seq<Stmt>, st: Cells<E>)
    requires Setting(c, sem) && Sound(c, st)
    ensures Refined(c, CellSteps(c, sem, body, st), Steps(sem, body, BlockState(c, st)))
    ensures BodyOnCells(body) ==> Keeps(c, CellSteps(c, sem, body, st), Steps(sem, body, BlockState(c, st)))
    decreases |body|
  {
    if body != [] {
      var next := CellStep(c, sem, body[0], st);
      if next.Some? {
        StepRefines(c, sem, body[0], st);
        StaysSound(c, sem, body[0], st);
        StepsRefine(c, sem, body[1..], next.value);
      } else if BodyOnCells(body) && Steps(sem, body, BlockState(c, st)).Some? && Steps(sem, body, BlockState(c, st)).value.mem.Keys <= c.addrs {
        FirstKeeps(c, sem, body, st);
      }
    }
  }

  lemma {:induction false} FirstKeeps<E(!new)>(c: Config<E>, sem: Sem<Value<E>>, body: seq<Stmt>, st: Cells<E>)
    requires body != [] && OnCells(body[0]) && Steps(sem, body, BlockState(c, st)).Some?
    requires Steps(sem, body, BlockState(c, st)).value.mem.Keys <= c.addrs
    ensures CellStep(c, sem, body[0], st).Some?
  {
    MP.StepsGrow(sem, body[1..], Step(sem, body[0], BlockState(c, st)).value);
    StepOnCells(c, sem, body[0], st);
  }

  ghost predicate PassSound<E(!new)>(c: Config<E>, p: CellPass<E>) {
    Sound(c, With(map[], p))
  }

  ghost predicate PassRefined<E(!new)>(c: Config<E>, cells: Option<CellPass<E>>, blocks: Option<Pass<Value<E>>>) {
    cells.Some? ==> PassSound(c, cells.value) && blocks == Some(BlockPass(c, cells.value))
  }

  ghost predicate PassKeeps<E(!new)>(c: Config<E>, cells: Option<CellPass<E>>, blocks: Option<Pass<Value<E>>>) {
    blocks.Some? && blocks.value.mem.Keys <= c.addrs ==> cells.Some?
  }

  lemma WithNames<E(!new)>(c: Config<E>, env: map<Id, Value<E>>, p: CellPass<E>)
    ensures BlockState(c, With(env, p)) == State(env, BlockPass(c, p).tiles, BlockPass(c, p).mem)
    ensures PassSound(c, p) <==> Sound(c, With(env, p))
  {
  }

  lemma {:induction false} IterationRefines<E(!new)>(c: Config<E>, sem: Sem<Value<E>>, l: Loop, env: map<Id, Value<E>>,
                                              k: nat, p: CellPass<E>)
    requires Setting(c, sem) && PassSound(c, p)
    ensures PassRefined(c, CellIteration(c, sem, l, env, k, p), Iteration(sem, l, env, k, BlockPass(c, p)))
    ensures BodyOnCells(l.body) ==> PassKeeps(c, CellIteration(c, sem, l, env, k, p), Iteration(sem, l, env, k, BlockPass(c, p)))
  {
    if l.lb in env && l.step in env && |l.args| == |p.carried| {
      var st := BodyState(sem, l, env, k, BlockPass(c, p));
      WithNames(c, st.env, p);
      StepsRefine(c, sem, l.body, With(st.env, p));
      var r := CellSteps(c, sem, l.body, With(st.env, p));
      if r.Some? && Defined(r.value.env, l.yielded) { PassOfCells(c, r.value, Values(r.value.env, l.yielded)); }
    }
  }

  lemma PassOfCells<E(!new)>(c: Config<E>, st: Cells<E>, carried: seq<Value<E>>)
    ensures var p := CellPass(carried, st.held, st.blocks, st.machine);
            BlockPass(c, p) == Pass(carried, BlockState(c, st).tiles, BlockState(c, st).mem) && (Sound(c, st) <==> PassSound(c, p))
  {
  }

  /** What a number of iterations comes to on both sides. */
  ghost predicate Further<E(!new)>(c: Config<E>, l: Loop, x: Option<CellPass<E>>, y: Option<Pass<Value<E>>>) {
    PassRefined(c, x, y) && (BodyOnCells(l.body) ==> PassKeeps(c, x, y))
  }

  ghost predicate IterationFits<E(!new)>(c: Config<E>, sem: Sem<Value<E>>, l: Loop, env: map<Id, Value<E>>, k: nat, q: CellPass<E>) {
    Further(c, l, CellIteration(c, sem, l, env, k, q), Iteration(sem, l, env, k, BlockPass(c, q)))
  }

  ghost predicate EveryIteration<E(!new)>(c: Config<E>, sem: Sem<Value<E>>, l: Loop, env: map<Id, Value<E>>) {
    forall k: nat, q :: PassSound(c, q) ==> IterationFits(c, sem, l, env, k, q)
  }

  lemma {:induction false} EveryIterationFits<E(!new)>(c: Config<E>, sem: Sem<Value<E>>, l: Loop, env: map<Id, Value<E>>)
    requires Setting(c, sem)
    ensures EveryIteration(c, sem, l, env)
  {
    forall k: nat, q | PassSound(c, q) ensures IterationFits(c, sem, l, env, k, q) { IterationRefines(c, sem, l, env, k, q); }
  }

  lemma {:induction false} IterateRefines<E(!new)>(c: Config<E>, sem: Sem<Value<E>>, l: Loop, env: map<Id, Value<E>>, k: nat,
                                            p: CellPass<E>, p': Pass<Value<E>>)
    requires EveryIteration(c, sem, l, env) && Further(c, l, Some(p), Some(p'))
    ensures Further(c, l, CellIterate(c, sem, l, env, k, p), Iterate(sem, l, env, k, p'))
  {
    if k > 0 {
      IterateRefines(c, sem, l, env, k - 1, p, p');
      var q := CellIterate(c, sem, l, env, k - 1, p);
      if q.Some? {
        assert IterationFits(c, sem, l, env, k - 1, q.value);
        OneFurther(c, sem, l, env, k, p, p', q.value);
      } else {
        NoneFurther(c, sem, l, env, k, p, p');
      }
    }
  }

  lemma {:induction false} OneFurther<E(!new)>(c: Config<E>, sem: Sem<Value<E>>, l: Loop, env: map<Id, Value<E>>, k: nat, p: CellPass<E>,
                                               p': Pass<Value<E>>, q: CellPass<E>)
    requires k > 0 && CellIterate(c, sem, l, env, k - 1, p) == Some(q) && Iterate(sem, l, env, k - 1, p') == Some(BlockPass(c, q))
    requires Further(c, l, CellIteration(c, sem, l, env, k - 1, q), Iteration(sem, l, env, k - 1, BlockPass(c, q)))
    ensures Further(c, l, CellIterate(c, sem, l, env, k, p), Iterate(sem, l, env, k, p'))
  {
    CellNext(c, sem, l, env, k, p, q);
    IterateNext(sem, l, env, k, p', BlockPass(c, q));
  }

  lemma {:induction false} NoneFurther<E(!new)>(c: Config<E>, sem: Sem<Value<E>>, l: Loop, env: map<Id, Value<E>>, k: nat, p: CellPass<E>,
                                                p': Pass<Value<E>>)
    requires k > 0 && CellIterate(c, sem, l, env, k - 1, p) == None
    requires Further(c, l, CellIterate(c, sem, l, env, k - 1, p), Iterate(sem, l, env, k - 1, p'))
    ensures Further(c, l, CellIterate(c, sem, l, env, k, p), Iterate(sem, l, env, k, p'))
  {
    if Iterate(sem, l, env, k, p').Some? { LastGrows(sem, l, env, k, p'); }
  }

  lemma CellNext<E(!new)>(c: Config<E>, sem: Sem<Value<E>>, l: Loop, env: map<Id, Value<E>>, k: nat, p: CellPass<E>, q: CellPass<E>)
    requires k > 0 && CellIterate(c, sem, l, env, k - 1, p) == Some(q)
    ensures CellIterate(c, sem, l, env, k, p) == CellIteration(c, sem, l, env, k - 1, q)
  {
  }

  lemma {:induction false} LastGrows<V>(sem: Sem<V>, l: Loop, env: map<Id, V>, k: nat, p: Pass<V>)
    requires k > 0 && Iterate(sem, l, env, k, p).Some?
    ensures Iterate(sem, l, env, k - 1, p).Some?
    ensures Iterate(sem, l, env, k - 1, p).value.mem.Keys <= Iterate(sem, l, env, k, p).value.mem.Keys
  {
    var q := Iterate(sem, l, env, k - 1, p).value;
    MP.StepsGrow(sem, l.body, BodyState(sem, l, env, k - 1, q));
  }

  lemma {:induction false} LoopRefines<E(!new)>(c: Config<E>, sem: Sem<Value<E>>, l: Loop, st: Cells<E>)
    requires Setting(c, sem) && Sound(c, st)
    ensures Refined(c, CellLoop(c, sem, l, st), RunLoop(sem, l, BlockState(c, st)))
    ensures BodyOnCells(l.body) ==> Keeps(c, CellLoop(c, sem, l, st), RunLoop(sem, l, BlockState(c, st)))
  {
    if CanEnter(l, st.env) {
      PassOfCells(c, st, Values(st.env, l.inits));
      var k, p := Trips(sem, l, st.env), CellEntry(l, st);
      EveryIterationFits(c, sem, l, st.env);
      IterateRefines(c, sem, l, st.env, k, p, BlockPass(c, p));
      var q := CellIterate(c, sem, l, st.env, k, p);
      if q.Some? && |q.value.carried| == |l.results| { WithNames(c, Bind(st.env, l.results, q.value.carried), q.value); }
    }
  }

  predicate TopOnCells(top: Top) {
    match top
    case Simple(s) => OnCells(s)
    case For(l) => BodyOnCells(l.body)
  }

  /** Every write of the function has been lowered to a tile store. */
  predicate AllOnCells(prog: seq<Top>) {
    forall k :: 0 <= k < |prog| ==> TopOnCells(prog[k])
  }

  lemma {:induction false} TopRefines<E(!new)>(c: Config<E>, sem: Sem<Value<E>>, top: Top, st: Cells<E>)
    requires Setting(c, sem) && Sound(c, st)
    ensures Refined(c, CellTop(c, sem, top, st), RunTop(sem, top, BlockState(c, st)))
    ensures TopOnCells(top) ==> Keeps(c, CellTop(c, sem, top, st), RunTop(sem, top, BlockState(c, st)))
  {
    match top {
      case Simple(s) =>
        if CellStep(c, sem, s, st).Some? {
          StepRefines(c, sem, s, st);
          StaysSound(c, sem, s, st);
        } else if OnCells(s) && Step(sem, s, BlockState(c, st)).Some? && Step(sem, s, BlockState(c, st)).value.mem.Keys <= c.addrs {
          StepOnCells(c, sem, s, st);
        }
      case For(l) => LoopRefines(c, sem, l, st);
    }
  }

  /** Any function, any number of chains, tiles, iterations and blocks: a run on the cells is a run on
      the blocks; and a function without vector writes runs on the cells whenever it runs on the
      blocks and stays within the known addresses. */
  lemma {:induction false} RunRefines<E(!new)>(c: Config<E>, sem: Sem<Value<E>>, prog: seq<Top>, st: Cells<E>)
    requires Setting(c, sem) && Sound(c, st)
    ensures Refined(c, CellRun(c, sem, prog, st), Run(sem, prog, BlockState(c, st)))
    ensures AllOnCells(prog) ==> Keeps(c, CellRun(c, sem, prog, st), Run(sem, prog, BlockState(c, st)))
    decreases |prog|
  {
    if prog != [] {
      TopRefines(c, sem, prog[0], st);
      var next := CellTop(c, sem, prog[0], st);
      if next.Some? {
        RunRefines(c, sem, prog[1..], next.value);
      } else if RunTop(sem, prog[0], BlockState(c, st)).Some? && Run(sem, prog, BlockState(c, st)).Some? {
        MP.RunGrow(sem, prog[1..], RunTop(sem, prog[0], BlockState(c, st)).value);
      }
    }
  }
}
