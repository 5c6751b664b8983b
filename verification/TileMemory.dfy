/** CoralNPUMatrixToLLVM.cpp: block loads and stores become one row operation per tile row.
    Together with the rank-1 tile updates they leave C + A * B in the addressed block.

    Addresses count 32-bit elements from the aligned pointer.  Elements are of an abstract type
    with a multiply-add `fma(c, a, b)`. */
module TileMemory {
  import opened Options

  // ----- the tile row descriptor -----

  const ROW_LIMIT: nat := 0x800_0000
  const WORD_LIMIT: nat := 0x1_0000_0000

  function Pow2(n: nat): nat {
    if n == 0 then 1 else 2 * Pow2(n - 1)
  }

  lemma {:induction false} Pow2Add(a: nat, b: nat)
    ensures Pow2(a + b) == Pow2(a) * Pow2(b)
  {
    if a > 0 {
      Pow2Add(a - 1, b);
      Doubled(Pow2(a - 1), Pow2(b));
      assert a + b - 1 == a - 1 + b;
    }
  }

  lemma Doubled(x: nat, y: nat)
    ensures 2 * (x * y) == (2 * x) * y
  {
  }

  lemma RowLimitIsPower()
    ensures Pow2(27) == ROW_LIMIT && Pow2(32) == WORD_LIMIT
  {
    assert Pow2(3) == 8 && Pow2(5) == 32;
    Pow2Add(3, 3);
    Pow2Add(6, 3);
    Pow2Add(9, 9);
    Pow2Add(18, 9);
    Pow2Add(27, 5);
  }

  /** Bitwise or. */
  function BitOr(x: nat, y: nat): nat {
    if x == 0 then y
    else if y == 0 then x
    else 2 * BitOr(x / 2, y / 2) + (if x % 2 == 1 || y % 2 == 1 then 1 else 0)
  }

  predicate Bit(x: nat, n: nat) {
    if n == 0 then x % 2 == 1 else Bit(x / 2, n - 1)
  }

  lemma {:induction false} BitOfZero(n: nat)
    ensures !Bit(0, n)
  {
    if n > 0 { BitOfZero(n - 1); }
  }

  /** Bit by bit. */
  lemma {:induction false} OrBits(x: nat, y: nat, n: nat)
    ensures Bit(BitOr(x, y), n) <==> Bit(x, n) || Bit(y, n)
  {
    BitOfZero(n);
    if n > 0 && x > 0 && y > 0 {
      OrBits(x / 2, y / 2, n - 1);
      assert BitOr(x, y) / 2 == BitOr(x / 2, y / 2);
    }
  }

  function ShiftLeft32(x: nat, n: nat): nat {
    (x * Pow2(n)) % WORD_LIMIT
  }

  /** `(tile << 27) | row` in 32 bits. */
  function Tss(tile: nat, row: nat): nat {
    BitOr(ShiftLeft32(tile, 27), row)
  }

  function TileOf(tss: nat): nat { tss / ROW_LIMIT }
  function RowOf(tss: nat): nat { tss % ROW_LIMIT }

  lemma {:induction false} OrDisjoint(t: nat, r: nat, n: nat)
    requires r < Pow2(n)
    ensures BitOr(t * Pow2(n), r) == t * Pow2(n) + r
  {
    if n > 0 && t > 0 && r > 0 {
      var p := Pow2(n - 1);
      assert t * Pow2(n) == 2 * (t * p);
      assert t * p > 0;
      OrDisjoint(t, r / 2, n - 1);
      assert (2 * (t * p)) / 2 == t * p && (2 * (t * p)) % 2 == 0;
    }
  }

  lemma SmallShift(tile: nat)
    requires tile < 32
    ensures ShiftLeft32(tile, 27) == tile * ROW_LIMIT
  {
    RowLimitIsPower();
    var x := tile * ROW_LIMIT;
    assert x < WORD_LIMIT;
    assert x % WORD_LIMIT == x;
  }

  lemma TssValue(tile: nat, row: nat)
    requires tile < 32 && row < ROW_LIMIT
    ensures Tss(tile, row) == tile * ROW_LIMIT + row
  {
    SmallShift(tile);
    RowLimitIsPower();
    OrDisjoint(tile, row, 27);
  }

  lemma Decode(tile: nat, row: nat)
    requires row < ROW_LIMIT
    ensures TileOf(tile * ROW_LIMIT + row) == tile && RowOf(tile * ROW_LIMIT + row) == row
  {
  }

  /** The descriptor names its tile and row exactly when both fit; in particular, descriptors of
      different tiles or rows differ. */
  lemma TssDecodes(tile: nat, row: nat)
    requires row < WORD_LIMIT
    ensures (TileOf(Tss(tile, row)) == tile && RowOf(Tss(tile, row)) == row) <==> tile < 32 && row < ROW_LIMIT
  {
    if tile < 32 && row < ROW_LIMIT {
      TssValue(tile, row);
      Decode(tile, row);
    } else {
      TssFits(tile, row);
      var tss := Tss(tile, row);
      assert TileOf(tss) < 32 && RowOf(tss) < ROW_LIMIT;
    }
  }

  lemma {:induction false} OrBelow(x: nat, y: nat, n: nat)
    requires x < Pow2(n) && y < Pow2(n)
    ensures BitOr(x, y) < Pow2(n)
  {
    if x > 0 && y > 0 { OrBelow(x / 2, y / 2, n - 1); }
  }

  lemma TssFits(tile: nat, row: nat)
    requires row < WORD_LIMIT
    ensures Tss(tile, row) < WORD_LIMIT
  {
    RowLimitIsPower();
    OrBelow(ShiftLeft32(tile, 27), row, 32);
  }

  // ----- the lowering -----

  /** A call of the load or writeback function.  `rows` is the first size when it is constant. */
  datatype Call = Call(load: bool, base: int, offset: int, rows: Option<int>, stride0: int, stride1: int,
                       idx0: int, idx1: int, tile: nat)

  datatype RowOp = RowOp(load: bool, tss: nat, addr: int)

  function NumRows(call: Call): int {
    if call.rows.Some? then call.rows.value else 4
  }

  function RowAddr(call: Call, row: nat): int {
    call.base + (call.offset + call.idx0 * call.stride0 + call.idx1 * call.stride1 + row * call.stride0)
  }

  /** Where element (i, j) of the described block is. */
  function BlockAddr(call: Call, i: nat, j: nat): int {
    call.base + call.offset + (call.idx0 + i) * call.stride0 + (call.idx1 + j) * call.stride1
  }

  ghost predicate LoweredTo(call: Call, code: seq<RowOp>) {
    && |code| == (if NumRows(call) < 0 then 0 else NumRows(call))
    && forall row :: 0 <= row < |code| ==> code[row] == RowOp(call.load, Tss(call.tile, row), RowAddr(call, row))
  }

  method LowerMatrixMemOp(call: Call) returns (code: seq<RowOp>)
    ensures LoweredTo(call, code)
  {
    var totalOffset := call.offset + call.idx0 * call.stride0;
    totalOffset := totalOffset + call.idx1 * call.stride1;
    var numRows := 4;
    if call.rows.Some? { numRows := call.rows.value; }
    code := [];
    var row: nat := 0;
    while row < numRows
      invariant row == |code| && (row == 0 || row <= numRows)
      invariant forall r :: 0 <= r < row ==> code[r] == RowOp(call.load, Tss(call.tile, r), RowAddr(call, r))
      decreases numRows - row
    {
      var tss := Tss(call.tile, row);
      var finalOffset := totalOffset + row * call.stride0;
      code := code + [RowOp(call.load, tss, call.base + finalOffset)];
      row := row + 1;
    }
  }

  /** The rows are taken to be contiguous: column `j` of row `i` is the block's element exactly
      when the column stride is one, the block has at most one column, or it has no row. */
  lemma ColumnsContiguous(call: Call, m: nat, n: nat)
    ensures (forall i, j :: 0 <= i < m && 0 <= j < n ==> BlockAddr(call, i, j) == RowAddr(call, i) + j) <==>
            m == 0 || n <= 1 || call.stride1 == 1
  {
    forall i: nat, j: nat ensures BlockAddr(call, i, j) == RowAddr(call, i) + j * call.stride1 {
      assert (call.idx0 + i) * call.stride0 == call.idx0 * call.stride0 + i * call.stride0;
      assert (call.idx1 + j) * call.stride1 == call.idx1 * call.stride1 + j * call.stride1;
    }
    if m > 0 && n > 1 && call.stride1 != 1 {
      assert BlockAddr(call, 0, 1) == RowAddr(call, 0) + 1 * call.stride1;
    }
  }

  ghost predicate RowsApart(call: Call, m: nat, n: nat) {
    forall r: nat, s: nat :: r < s < m ==> RowAddr(call, r) + n <= RowAddr(call, s) || RowAddr(call, s) + n <= RowAddr(call, r)
  }

  function Abs(x: int): nat { if x < 0 then -x else x }

  lemma Scaled(d: nat, s: int, n: nat)
    requires d > 0
    ensures s >= n ==> d * s >= n
    ensures s + n <= 0 ==> d * s + n <= 0
  {
  }

  /** Rows of `n` elements do not overlap exactly when the row stride is at least the width (in
      either direction), or there is at most one row, or no column. */
  lemma RowsApartExact(call: Call, m: nat, n: nat)
    ensures RowsApart(call, m, n) <==> m <= 1 || n == 0 || Abs(call.stride0) >= n
  {
    var s0 := call.stride0;
    forall r: nat, s: nat | r < s ensures RowAddr(call, s) == RowAddr(call, r) + (s - r) * s0 {
      assert s * s0 == r * s0 + (s - r) * s0;
    }
    if Abs(s0) >= n {
      forall r: nat, s: nat | r < s < m
        ensures RowAddr(call, r) + n <= RowAddr(call, s) || RowAddr(call, s) + n <= RowAddr(call, r)
      {
        Scaled(s - r, s0, n);
      }
    } else if m > 1 && n > 0 {
      assert RowAddr(call, 1) == RowAddr(call, 0) + 1 * s0;
    }
  }

  // ----- the machine -----

  /** `tiles(t, r, c)` is column `c` of row `r` of tile `t`. */
  datatype Machine<V> = Machine(tiles: (nat, nat, nat) -> V, mem: int -> V)

  /** One row operation on the `tn` configured columns. */
  ghost function ExecRow<V>(op: RowOp, tn: nat, s: Machine<V>): Machine<V> {
    var t, r := TileOf(op.tss), RowOf(op.tss);
    if op.load then
      s.(tiles := (t': nat, r': nat, c: nat) => if t' == t && r' == r && c < tn then s.mem(op.addr + c) else s.tiles(t', r', c))
    else
      s.(mem := (a: int) => if op.addr <= a < op.addr + tn then s.tiles(t, r, a - op.addr) else s.mem(a))
  }

  /** The first `n` row operations. */
  ghost function ExecRows<V>(code: seq<RowOp>, n: nat, tn: nat, s: Machine<V>): Machine<V>
    requires n <= |code|
  {
    if n == 0 then s else ExecRow(code[n - 1], tn, ExecRows(code, n - 1, tn, s))
  }

  /** `C += A^T * B` for one column of A and one row of B. */
  ghost function ExecMac<V>(fma: (V, V, V) -> V, tile: nat, tm: nat, tn: nat, a: nat -> V, b: nat -> V, s: Machine<V>): Machine<V> {
    s.(tiles := (t: nat, r: nat, c: nat) =>
      if t == tile && r < tm && c < tn then fma(s.tiles(t, r, c), a(r), b(c)) else s.tiles(t, r, c))
  }

  ghost function ExecMacs<V>(fma: (V, V, V) -> V, tile: nat, tm: nat, tn: nat, a: (nat, nat) -> V, b: (nat, nat) -> V,
                             k: nat, s: Machine<V>): Machine<V> {
    if k == 0 then s
    else ExecMac(fma, tile, tm, tn, (r: nat) => a(r, k - 1), (c: nat) => b(k - 1, c), ExecMacs(fma, tile, tm, tn, a, b, k - 1, s))
  }

  ghost predicate TileFits(call: Call, m: nat) {
    call.tile < 32 && m <= ROW_LIMIT
  }

  /** After `n` row loads the first `n` rows of the tile hold the memory rows, and nothing else
      has changed. */
  lemma {:induction false} LoadRows<V>(call: Call, code: seq<RowOp>, n: nat, tn: nat, s: Machine<V>, t: nat, r: nat, c: nat)
    requires call.load && LoweredTo(call, code) && n <= |code| && TileFits(call, |code|)
    ensures ExecRows(code, n, tn, s).mem == s.mem
    ensures ExecRows(code, n, tn, s).tiles(t, r, c) ==
            if t == call.tile && r < n && c < tn then s.mem(RowAddr(call, r) + c) else s.tiles(t, r, c)
  {
    if n > 0 {
      LoadRows(call, code, n - 1, tn, s, t, r, c);
      TssDecodes(call.tile, n - 1);
    }
  }

  /** Row `r` of the code stores row `r` of the tile. */
  ghost predicate StoresTile(code: seq<RowOp>, tile: nat) {
    forall r :: 0 <= r < |code| ==> !code[r].load && code[r].tss == Tss(tile, r)
  }

  ghost predicate Missed(op: RowOp, a: int, tn: nat) {
    !(op.addr <= a < op.addr + tn)
  }

  ghost predicate CodeApart(code: seq<RowOp>, tn: nat) {
    forall r, s :: 0 <= r < s < |code| ==> Apart(code[r], code[s], tn)
  }

  ghost predicate Apart(op: RowOp, other: RowOp, tn: nat) {
    op.addr + tn <= other.addr || other.addr + tn <= op.addr
  }

  /** After `n` row stores the cells of the first `n` rows hold the tile's rows. */
  lemma {:induction false} StoreRows<V>(code: seq<RowOp>, tile: nat, n: nat, tn: nat, s: Machine<V>, r: nat, c: nat)
    requires StoresTile(code, tile) && tile < 32 && n <= |code| <= ROW_LIMIT && CodeApart(code, tn) && r < n && c < tn
    ensures ExecRows(code, n, tn, s).mem(code[r].addr + c) == s.tiles(tile, r, c)
  {
    StoreKeepsTiles(code, n - 1, tn, s);
    var before := ExecRows(code, n - 1, tn, s);
    RowStored(code[n - 1], tile, n - 1, tn, before, code[r].addr + c);
    if r < n - 1 {
      StoreRows(code, tile, n - 1, tn, s, r, c);
      assert Apart(code[r], code[n - 1], tn);
    }
  }

  lemma RowStored<V>(op: RowOp, tile: nat, r: nat, tn: nat, s: Machine<V>, a: int)
    requires tile < 32 && r < ROW_LIMIT && !op.load && op.tss == Tss(tile, r)
    ensures ExecRow(op, tn, s).mem(a) == if Missed(op, a, tn) then s.mem(a) else s.tiles(tile, r, a - op.addr)
  {
    TssDecodes(tile, r);
  }

  lemma LoweredApart(call: Call, code: seq<RowOp>, tn: nat)
    requires LoweredTo(call, code) && RowsApart(call, |code|, tn)
    ensures CodeApart(code, tn)
  {
    forall r, s | 0 <= r < s < |code| ensures Apart(code[r], code[s], tn) {
      assert code[r].addr == RowAddr(call, r) && code[s].addr == RowAddr(call, s);
    }
  }

  lemma {:induction false} StoreKeepsTiles<V>(code: seq<RowOp>, n: nat, tn: nat, s: Machine<V>)
    requires n <= |code| && forall i :: 0 <= i < n ==> !code[i].load
    ensures ExecRows(code, n, tn, s).tiles == s.tiles
  {
    if n > 0 { StoreKeepsTiles(code, n - 1, tn, s); }
  }

  ghost predicate InRows(call: Call, n: nat, tn: nat, a: int) {
    exists r: nat :: r < n && RowAddr(call, r) <= a < RowAddr(call, r) + tn
  }

  lemma {:induction false} StoreOutside<V>(call: Call, code: seq<RowOp>, n: nat, tn: nat, s: Machine<V>, a: int)
    requires !call.load && LoweredTo(call, code) && n <= |code| && !InRows(call, n, tn, a)
    ensures ExecRows(code, n, tn, s).mem(a) == s.mem(a)
  {
    if n > 0 {
      assert RowAddr(call, n - 1) == code[n - 1].addr;
      assert !InRows(call, n - 1, tn, a);
      StoreOutside(call, code, n - 1, tn, s, a);
    }
  }

  // ----- the reference -----

  /** Element (i, j) of C + A * B after `k` of the inner products, in the order of the loop. */
  ghost function Product<V>(fma: (V, V, V) -> V, c: V, a: (nat, nat) -> V, b: (nat, nat) -> V, i: nat, j: nat, k: nat): V {
    if k == 0 then c else fma(Product(fma, c, a, b, i, j, k - 1), a(i, k - 1), b(k - 1, j))
  }

  ghost function Dot(a: (nat, nat) -> int, b: (nat, nat) -> int, i: nat, j: nat, k: nat): int {
    if k == 0 then 0 else Dot(a, b, i, j, k - 1) + a(i, k - 1) * b(k - 1, j)
  }

  /** For integers the reference is the usual matrix product. */
  lemma {:induction false} ProductIsDot(c: int, a: (nat, nat) -> int, b: (nat, nat) -> int, i: nat, j: nat, k: nat)
    ensures Product((x: int, y: int, z: int) => x + y * z, c, a, b, i, j, k) == c + Dot(a, b, i, j, k)
  {
    if k > 0 { ProductIsDot(c, a, b, i, j, k - 1); }
  }

  lemma {:induction false} MacsCompute<V>(fma: (V, V, V) -> V, tile: nat, tm: nat, tn: nat, a: (nat, nat) -> V,
                                          b: (nat, nat) -> V, k: nat, s: Machine<V>, t: nat, r: nat, c: nat)
    ensures ExecMacs(fma, tile, tm, tn, a, b, k, s).mem == s.mem
    ensures ExecMacs(fma, tile, tm, tn, a, b, k, s).tiles(t, r, c) ==
            if t == tile && r < tm && c < tn then Product(fma, s.tiles(t, r, c), a, b, r, c, k) else s.tiles(t, r, c)
  {
    if k > 0 { MacsCompute(fma, tile, tm, tn, a, b, k - 1, s, t, r, c); }
  }

  // ----- load, accumulate, store -----

  /** The number of rows is the constant given, or else 4. */
  predicate HasRows(call: Call, m: nat) {
    call.rows == Some(m) || (call.rows == None && m == 4)
  }

  /** A block transfer of `m` rows and `n` columns with unit column stride. */
  ghost predicate BlockCall(call: Call, m: nat, n: nat) {
    HasRows(call, m) && m <= ROW_LIMIT && call.tile < 32 && (n <= 1 || call.stride1 == 1)
  }

  lemma ColumnAt(call: Call, m: nat, n: nat, i: nat, j: nat)
    requires BlockCall(call, m, n) && i < m && j < n
    ensures BlockAddr(call, i, j) == RowAddr(call, i) + j
  {
    ColumnsContiguous(call, m, n);
  }

  ghost function RunBlock<V>(fma: (V, V, V) -> V, load: seq<RowOp>, store: seq<RowOp>, tile: nat, m: nat, n: nat,
                             a: (nat, nat) -> V, b: (nat, nat) -> V, k: nat, s: Machine<V>): Machine<V> {
    ExecRows(store, |store|, n, ExecMacs(fma, tile, m, n, a, b, k, ExecRows(load, |load|, n, s)))
  }

  /** The written block holds C + A * B for every element, whatever the offsets, strides and the
      number `k` of updates. */
  lemma BlockAccumulates<V>(fma: (V, V, V) -> V, from: Call, to: Call, load: seq<RowOp>, store: seq<RowOp>, m: nat, n: nat,
                            a: (nat, nat) -> V, b: (nat, nat) -> V, k: nat, s: Machine<V>, i: nat, j: nat)
    requires BlockCall(from, m, n) && BlockCall(to, m, n) && from.load && !to.load && from.tile == to.tile
    requires LoweredTo(from, load) && LoweredTo(to, store) && (m <= 1 || Abs(to.stride0) >= n)
    requires i < m && j < n
    ensures RunBlock(fma, load, store, to.tile, m, n, a, b, k, s).mem(BlockAddr(to, i, j)) ==
            Product(fma, s.mem(BlockAddr(from, i, j)), a, b, i, j, k)
  {
    ColumnAt(from, m, n, i, j);
    BlockStores(fma, to, store, m, n, a, b, k, ExecRows(load, |load|, n, s), i, j);
    LoadRows(from, load, m, n, s, to.tile, i, j);
  }

  /** The same without the load: the tile's own elements are accumulated and stored. */
  lemma BlockStores<V>(fma: (V, V, V) -> V, to: Call, store: seq<RowOp>, m: nat, n: nat, a: (nat, nat) -> V, b: (nat, nat) -> V,
                       k: nat, s: Machine<V>, i: nat, j: nat)
    requires BlockCall(to, m, n) && !to.load && LoweredTo(to, store) && (m <= 1 || Abs(to.stride0) >= n) && i < m && j < n
    ensures ExecRows(store, |store|, n, ExecMacs(fma, to.tile, m, n, a, b, k, s)).mem(BlockAddr(to, i, j)) ==
            Product(fma, s.tiles(to.tile, i, j), a, b, i, j, k)
  {
    ColumnAt(to, m, n, i, j);
    RowsApartExact(to, m, n);
    LoweredApart(to, store, n);
    var s2 := ExecMacs(fma, to.tile, m, n, a, b, k, s);
    StoreRows(store, to.tile, m, n, s2, i, j);
    assert store[i].addr == RowAddr(to, i);
    MacsCompute(fma, to.tile, m, n, a, b, k, s, to.tile, i, j);
  }

  ghost predicate InBlock(call: Call, m: nat, n: nat, addr: int) {
    exists i: nat, j: nat :: i < m && j < n && BlockAddr(call, i, j) == addr
  }

  /** No other cell changes. */
  lemma BlockOnly<V>(fma: (V, V, V) -> V, from: Call, to: Call, load: seq<RowOp>, store: seq<RowOp>, m: nat, n: nat,
                     a: (nat, nat) -> V, b: (nat, nat) -> V, k: nat, s: Machine<V>, addr: int)
    requires BlockCall(from, m, n) && BlockCall(to, m, n) && from.load && !to.load && from.tile == to.tile
    requires LoweredTo(from, load) && LoweredTo(to, store) && !InBlock(to, m, n, addr)
    ensures RunBlock(fma, load, store, to.tile, m, n, a, b, k, s).mem(addr) == s.mem(addr)
  {
    RowsInBlock(to, m, n, addr);
    var s1 := ExecRows(load, |load|, n, s);
    StoreOutside(to, store, m, n, ExecMacs(fma, to.tile, m, n, a, b, k, s1), addr);
    MacsCompute(fma, to.tile, m, n, a, b, k, s1, 0, 0, 0);
    LoadRows(from, load, m, n, s, 0, 0, 0);
  }

  lemma RowsInBlock(call: Call, m: nat, n: nat, addr: int)
    requires BlockCall(call, m, n)
    ensures InRows(call, m, n, addr) ==> InBlock(call, m, n, addr)
  {
    ColumnsContiguous(call, m, n);
    if InRows(call, m, n, addr) {
      var r: nat :| r < m && RowAddr(call, r) <= addr < RowAddr(call, r) + n;
      assert BlockAddr(call, r, addr - RowAddr(call, r)) == addr;
    }
  }
}
