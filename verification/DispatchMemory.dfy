/** The bump allocators of simulator_inline.c and what the upload leaves in memory. */
module DispatchMemory {
  import opened Options
  import opened SimMemory

  // ----- allocation -----

  /** The two alignments in use. */
  predicate IsAlignment(a: nat) {
    a == 4 || a == 64
  }

  /** `(x + a - 1) & ~(a - 1)` for a power of two. */
  function AlignUp(x: nat, a: nat): nat
    requires IsAlignment(a)
  {
    (x + a - 1) - (x + a - 1) % a
  }

  /** The least multiple of the alignment that is not below. */
  lemma AlignUpExact(x: nat, a: nat, m: nat)
    requires IsAlignment(a)
    ensures AlignUp(x, a) % a == 0 && x <= AlignUp(x, a) < x + a
    ensures m >= x && m % a == 0 ==> m >= AlignUp(x, a)
  {
    if a == 4 { Align4(x, m); } else { Align64(x, m); }
  }

  lemma Align4(x: nat, m: nat)
    ensures var r := (x + 3) - (x + 3) % 4; r % 4 == 0 && x <= r < x + 4 && (m >= x && m % 4 == 0 ==> m >= r)
  {
  }

  lemma Align64(x: nat, m: nat)
    ensures var r := (x + 63) - (x + 63) % 64; r % 64 == 0 && x <= r < x + 64 && (m >= x && m % 64 == 0 ==> m >= r)
  {
  }

  datatype Block = Block(addr: u32, next: u32)

  /** `allocate_dtcm` and `allocate_ddr`, which differ in the limit only.  The 64-bit end may wrap;
      the allocation succeeds exactly when the aligned block ends at or below the limit. */
  function Allocate(cursor: u32, limit: u32, alignment: nat, size: nat): (r: Option<Block>)
    requires IsAlignment(alignment) && size < SIZE_64
    ensures r.Some? <==> AlignUp(cursor, alignment) + size <= limit
    ensures r.Some? ==> r.value.addr == AlignUp(cursor, alignment) && r.value.next == r.value.addr + size
  {
    var aligned := AlignUp(cursor, alignment);
    AlignUpExact(cursor, alignment, 0);
    var end := (aligned + size) % SIZE_64;
    EndExact(aligned, size);
    if end < aligned || end > limit then None else Some(Block(aligned, end))
  }

  lemma EndExact(aligned: nat, size: nat)
    requires aligned < SIZE_64 && size < SIZE_64
    ensures (aligned + size) % SIZE_64 < aligned <==> aligned + size >= SIZE_64
    ensures aligned + size < SIZE_64 ==> (aligned + size) % SIZE_64 == aligned + size
  {
  }

  // ----- the DDR layout -----

  const DDR_BASE: u32 := 0x8000_0000
  const DDR_LIMIT: u32 := 0xC000_0000

  /** The cursor after the first `n` bindings. */
  function DdrCursor(lengths: seq<nat>, n: nat): (r: nat)
    requires n <= |lengths|
    ensures r >= DDR_BASE
  {
    if n == 0 then DDR_BASE
    else
      AlignUpExact(DdrCursor(lengths, n - 1), 64, 0);
      AlignUp(DdrCursor(lengths, n - 1), 64) + lengths[n - 1]
  }

  function DdrAddr(lengths: seq<nat>, i: nat): nat
    requires i < |lengths|
  {
    AlignUp(DdrCursor(lengths, i), 64)
  }

  predicate DdrFits(lengths: seq<nat>) {
    DdrCursor(lengths, |lengths|) <= DDR_LIMIT
  }

  lemma {:induction false} CursorGrows(lengths: seq<nat>, i: nat, j: nat)
    requires i <= j <= |lengths|
    ensures DdrCursor(lengths, i) <= DdrCursor(lengths, j)
    decreases j
  {
    if i < j {
      CursorGrows(lengths, i, j - 1);
      AlignUpExact(DdrCursor(lengths, j - 1), 64, 0);
    }
  }

  /** Binding regions are aligned, in order without overlap, and inside the window. */
  lemma DdrRegions(lengths: seq<nat>, i: nat, j: nat)
    requires DdrFits(lengths) && i < |lengths|
    ensures DdrAddr(lengths, i) % 64 == 0 && DDR_BASE <= DdrAddr(lengths, i)
    ensures DdrAddr(lengths, i) + lengths[i] <= DDR_LIMIT
    ensures i < j < |lengths| ==> DdrAddr(lengths, i) + lengths[i] <= DdrAddr(lengths, j)
  {
    AlignUpExact(DdrCursor(lengths, i), 64, 0);
    CursorGrows(lengths, i + 1, |lengths|);
    if i < j < |lengths| {
      CursorGrows(lengths, i + 1, j);
      AlignUpExact(DdrCursor(lengths, j), 64, 0);
    }
  }

  // ----- what memory holds -----

  ghost predicate Holds(mem: Bytes, addr: nat, data: Bytes) {
    addr + |data| <= |mem| && forall k :: 0 <= k < |data| ==> mem[addr + k] == data[k]
  }

  lemma HoldsWritten(mem: Bytes, addr: nat, data: Bytes)
    requires addr + |data| <= |mem|
    ensures Holds(Overlay(mem, addr, data), addr, data)
  {
  }

  lemma HoldsKept(mem: Bytes, addr: nat, data: Bytes, at: nat, other: Bytes)
    requires Holds(mem, addr, data) && at + |other| <= |mem| && (addr + |data| <= at || at + |other| <= addr)
    ensures Holds(Overlay(mem, at, other), addr, data)
  {
  }

  lemma HoldsAppend(mem: Bytes, addr: nat, data: Bytes, more: Bytes)
    requires Holds(mem, addr, data) && addr + |data| + |more| <= |mem|
    ensures Holds(Overlay(mem, addr + |data|, more), addr, data + more)
  {
  }

  type Word4 = b: Bytes | |b| == 4 witness [0, 0, 0, 0]

  function Words(ws: seq<nat>): (r: seq<Word4>)
    ensures |r| == |ws|
  {
    seq(|ws|, i requires 0 <= i < |ws| => WordBytes(ws[i]))
  }

  /** The first `n` words one after the other. */
  function TableBytes(ws: seq<Word4>, n: nat): (r: Bytes)
    requires n <= |ws|
    ensures |r| == 4 * n
  {
    if n == 0 then [] else TableBytes(ws, n - 1) + ws[n - 1]
  }

  lemma {:induction false} TableByte(ws: seq<Word4>, n: nat, i: nat, k: nat)
    requires i < n <= |ws| && k < 4
    ensures TableBytes(ws, n)[4 * i + k] == ws[i][k]
  {
    if i < n - 1 { TableByte(ws, n - 1, i, k); }
  }

  function WordAt(mem: Bytes, addr: nat): u32
    requires addr + 4 <= |mem|
  {
    Word([mem[addr], mem[addr + 1], mem[addr + 2], mem[addr + 3]])
  }

  lemma {:induction false} TableByteAt(mem: Bytes, addr: nat, ws: seq<Word4>, i: nat, k: nat)
    requires Holds(mem, addr, TableBytes(ws, |ws|)) && i < |ws| && k < 4
    ensures mem[addr + 4 * i + k] == ws[i][k]
  {
    TableByte(ws, |ws|, i, k);
    HoldsAt(mem, addr, TableBytes(ws, |ws|), 4 * i + k);
  }

  lemma {:induction false} HoldsAt(mem: Bytes, addr: nat, data: Bytes, k: nat)
    requires Holds(mem, addr, data) && k < |data|
    ensures mem[addr + k] == data[k]
  {
  }

  lemma WordFrom(mem: Bytes, a: nat, w: Word4)
    requires a + 4 <= |mem| && mem[a] == w[0] && mem[a + 1] == w[1] && mem[a + 2] == w[2] && mem[a + 3] == w[3]
    ensures WordAt(mem, a) == Word(w)
  {
  }

  /** Word `i` of a table in memory. */
  lemma {:induction false} TableRead(mem: Bytes, addr: nat, vs: seq<nat>, i: nat)
    requires Holds(mem, addr, TableBytes(Words(vs), |vs|)) && i < |vs| && vs[i] < SPACE
    ensures addr + 4 * i + 4 <= |mem| && WordAt(mem, addr + 4 * i) == vs[i]
  {
    TableByteAt(mem, addr, Words(vs), i, 0);
    TableByteAt(mem, addr, Words(vs), i, 1);
    TableByteAt(mem, addr, Words(vs), i, 2);
    TableByteAt(mem, addr, Words(vs), i, 3);
    WordFrom(mem, addr + 4 * i, WordBytes(vs[i]));
    WordRoundTrip(vs[i]);
  }

  // ----- writing -----

  /** `write_mem_u32` in a loop: the push constants. */
  method WriteTable(sim: Simulator, addr: nat, ws: seq<Word4>)
    requires addr + 4 * |ws| <= SPACE
    modifies sim
    ensures sim.mem == Overlay(old(sim.mem), addr, TableBytes(ws, |ws|))
  {
    OverlayNothing(sim.mem, addr);
    for i := 0 to |ws|
      invariant sim.mem == Overlay(old(sim.mem), addr, TableBytes(ws, i))
    {
      sim.WriteMem(addr + 4 * i, ws[i]);
      OverlayAppend(old(sim.mem), addr, TableBytes(ws, i), ws[i]);
    }
  }

  method ZeroMem(sim: Simulator, address: nat, size: nat)
    requires address + size <= SPACE
    modifies sim
    ensures sim.mem == Overlay(old(sim.mem), address, Zeros(size))
  {
    var at: nat, left: nat := address, size;
    OverlayNothing(sim.mem, address);
    while left != 0
      invariant left <= size && at == address + (size - left)
      invariant sim.mem == Overlay(old(sim.mem), address, Zeros(size - left))
      decreases left
    {
      var chunk := if left < 256 then left else 256;
      ZerosAppend(old(sim.mem), address, size - left, chunk);
      sim.WriteMem(at, Zeros(chunk));
      at := at + chunk;
      left := left - chunk;
    }
  }
}
