/** simulator_inline.c: load the firmware, upload constants, tables and bindings, run, check the
    request and read the writeable bindings back. */
module HostDispatch {
  import opened Options
  import opened SimMemory
  import opened DispatchMemory
  import opened DispatchRequest

  // ----- arguments -----

  /** A binding without data is a null pointer. */
  datatype Binding = Binding(data: Option<Bytes>, length: nat)

  /** `constantsSet` and `bindingsSet` say that the arrays are not null. */
  datatype Args = Args(size: Grid, count: Grid, maxConcurrency: nat, constants: seq<u32>, constantsSet: bool,
                       bindings: seq<Binding>, bindingsSet: bool, localLength: nat)

  /** C object sizes: what the caller's memory can hold. */
  predicate ArgsFit(a: Args) {
    && a.maxConcurrency < 0x1_0000 && 4 * |a.constants| < SIZE_64 && 4 * |a.bindings| < SIZE_64 && a.localLength < SIZE_64
    && AllFit(a.bindings)
  }

  predicate BindingFits(b: Binding) {
    b.length < SIZE_64 && (b.data.Some? ==> |b.data.value| == b.length)
  }

  function Lengths(bindings: seq<Binding>): (r: seq<nat>)
    ensures |r| == |bindings|
  {
    seq(|bindings|, i requires 0 <= i < |bindings| => bindings[i].length)
  }

  function Addresses(lengths: seq<nat>): (r: seq<nat>)
    ensures |r| == |lengths|
  {
    seq(|lengths|, i requires 0 <= i < |lengths| => DdrAddr(lengths, i))
  }

  /** The bytes of a binding that is not null. */
  function Data(b: Binding): Bytes {
    if b.data.Some? then b.data.value else []
  }

  // ----- the heap -----

  datatype Heap = Heap(constants: u32, ptrs: u32, lengths: u32, local: u32)

  /** Every block that is needed is aligned and inside the heap, each after the one before; without
      local memory its address stays 0. */
  ghost predicate HeapOk(start: nat, end: nat, nc: nat, nb: nat, nl: nat, h: Heap) {
    && (nc != 0 ==> h.constants % 4 == 0 && start <= h.constants && h.constants + 4 * nc <= end)
    && (nb != 0 ==> h.ptrs % 4 == 0 && h.lengths % 4 == 0 && start <= h.ptrs && h.ptrs + 4 * nb <= h.lengths &&
                    h.lengths + 4 * nb <= end && (nc != 0 ==> h.constants + 4 * nc <= h.ptrs))
    && (nl != 0 ==> h.local % 64 == 0 && start <= h.local && h.local + nl <= end &&
                    (nc != 0 ==> h.constants + 4 * nc <= h.local) && (nb != 0 ==> h.lengths + 4 * nb <= h.local))
    && (nl == 0 ==> h.local == 0)
  }

  /** The cursor after one block; a block of size 0 is not allocated. */
  function Bump(cursor: nat, alignment: nat, size: nat): nat
    requires IsAlignment(alignment)
  {
    if size == 0 then cursor else AlignUp(cursor, alignment) + size
  }

  /** Where the four blocks end. */
  function HeapEnd(start: nat, nc: nat, nb: nat, nl: nat): nat {
    Bump(Bump(Bump(Bump(start, 4, 4 * nc), 4, 4 * nb), 4, 4 * nb), 64, nl)
  }

  lemma BumpGrows(cursor: nat, alignment: nat, size: nat)
    requires IsAlignment(alignment)
    ensures cursor + size <= Bump(cursor, alignment, size)
  {
    AlignUpExact(cursor, alignment, 0);
  }

  lemma HeapEndGrows(start: nat, nc: nat, nb: nat, nl: nat)
    ensures var c1 := Bump(start, 4, 4 * nc);
            var c2 := Bump(c1, 4, 4 * nb);
            var c3 := Bump(c2, 4, 4 * nb);
            start <= c1 <= c2 <= c3 <= HeapEnd(start, nc, nb, nl)
  {
    var c1 := Bump(start, 4, 4 * nc);
    var c2 := Bump(c1, 4, 4 * nb);
    var c3 := Bump(c2, 4, 4 * nb);
    BumpGrows(start, 4, 4 * nc);
    BumpGrows(c1, 4, 4 * nb);
    BumpGrows(c2, 4, 4 * nb);
    BumpGrows(c3, 64, nl);
  }

  /** The four bump allocations in DTCM: they succeed exactly when the last block ends inside. */
  method AllocateHeap(start: u32, end: u32, nc: nat, nb: nat, nl: nat) returns (status: Status, h: Heap)
    requires start <= end && 4 * nc < SIZE_64 && 4 * nb < SIZE_64 && nl < SIZE_64
    ensures status == if HeapEnd(start, nc, nb, nl) <= end then Ok else ResourceExhausted
    ensures status == Ok ==> HeapOk(start, end, nc, nb, nl, h)
  {
    HeapEndGrows(start, nc, nb, nl);
    h := Heap(0, 0, 0, 0);
    var constants, ptrs, lengths, local, c1, c2, c3, c4;
    status, constants, c1 := Reserve(start, end, 4, 4 * nc);
    if status != Ok {
      return;
    }
    status, ptrs, c2 := Reserve(c1, end, 4, 4 * nb);
    if status != Ok {
      return;
    }
    status, lengths, c3 := Reserve(c2, end, 4, 4 * nb);
    if status != Ok {
      return;
    }
    status, local, c4 := Reserve(c3, end, 64, nl);
    h := Heap(constants, ptrs, lengths, local);
  }

  /** One guarded allocation; the address stays 0 when nothing is needed. */
  method Reserve(cursor: u32, end: u32, alignment: nat, size: nat) returns (status: Status, addr: u32, next: u32)
    requires IsAlignment(alignment) && size < SIZE_64 && cursor <= end
    ensures status == if Bump(cursor, alignment, size) <= end then Ok else ResourceExhausted
    ensures status == Ok ==> next == Bump(cursor, alignment, size) && cursor <= next <= end
    ensures size == 0 ==> addr == 0
    ensures status == Ok && size != 0 ==> addr % alignment == 0 && cursor <= addr && addr + size == next
  {
    if size == 0 {
      return Ok, 0, cursor;
    }
    AlignUpExact(cursor, alignment, 0);
    var b := Allocate(cursor, end, alignment, size);
    if b.None? {
      return ResourceExhausted, 0, cursor;
    }
    return Ok, b.value.addr, b.value.next;
  }

  // ----- the bindings -----

  /** Why the binding loop would stop at binding `i`, if it does. */
  function BindingStatus(bindings: seq<Binding>, i: nat): Status
    requires i < |bindings|
  {
    var b := bindings[i];
    if b.length >= SPACE then ResourceExhausted
    else if b.length != 0 && b.data.None? then InvalidArgument
    else if DdrCursor(Lengths(bindings), i + 1) > DDR_LIMIT then ResourceExhausted
    else Ok
  }

  ghost predicate BindingsOk(bindings: seq<Binding>, n: nat)
    requires n <= |bindings|
  {
    forall i :: 0 <= i < n ==> BindingStatus(bindings, i) == Ok
  }

  /** The first `np` pointers, `nl` lengths and `nc` contents are in memory. */
  ghost predicate Placed(mem: Bytes, bindings: seq<Binding>, ptrs: nat, lens: nat, np: nat, nl: nat, nc: nat)
    requires np <= |bindings| && nl <= |bindings| && nc <= |bindings|
  {
    && Holds(mem, ptrs, PtrTable(bindings, np)) && Holds(mem, lens, LengthTable(bindings, nl))
    && forall i :: 0 <= i < nc ==> ContentPlaced(mem, bindings, i)
  }

  function PtrTable(bindings: seq<Binding>, n: nat): (r: Bytes)
    requires n <= |bindings|
    ensures |r| == 4 * n
  {
    TableBytes(Words(Addresses(Lengths(bindings))), n)
  }

  function LengthTable(bindings: seq<Binding>, n: nat): (r: Bytes)
    requires n <= |bindings|
    ensures |r| == 4 * n
  {
    TableBytes(Words(Lengths(bindings)), n)
  }

  ghost predicate ContentPlaced(mem: Bytes, bindings: seq<Binding>, i: nat)
    requires i < |bindings|
  {
    Holds(mem, DdrAddr(Lengths(bindings), i), Data(bindings[i]))
  }

  /** The write at `at` does not meet binding `i`. */
  ghost predicate Missed(bindings: seq<Binding>, i: nat, at: nat, data: Bytes)
    requires i < |bindings|
  {
    var addr := DdrAddr(Lengths(bindings), i);
    addr + |Data(bindings[i])| <= at || at + |data| <= addr
  }

  lemma {:induction false} ContentsKept(mem: Bytes, bindings: seq<Binding>, n: nat, at: nat, data: Bytes)
    requires n <= |bindings| && at + |data| <= |mem|
    requires forall i :: 0 <= i < n ==> ContentPlaced(mem, bindings, i)
    requires forall i :: 0 <= i < n ==> Missed(bindings, i, at, data)
    ensures forall i :: 0 <= i < n ==> ContentPlaced(Overlay(mem, at, data), bindings, i)
  {
    forall i | 0 <= i < n ensures ContentPlaced(Overlay(mem, at, data), bindings, i) {
      assert ContentPlaced(mem, bindings, i) && Missed(bindings, i, at, data);
      HoldsKept(mem, DdrAddr(Lengths(bindings), i), Data(bindings[i]), at, data);
    }
  }

  lemma {:induction false} AddressBelow(bindings: seq<Binding>, i: nat, n: nat)
    requires i < n <= |bindings| && BindingFits(bindings[i])
    ensures var lengths := Lengths(bindings);
            DDR_BASE <= DdrAddr(lengths, i) && DdrAddr(lengths, i) + |Data(bindings[i])| <= DdrCursor(lengths, n)
  {
    var lengths := Lengths(bindings);
    AlignUpExact(DdrCursor(lengths, i), 64, 0);
    CursorGrows(lengths, i + 1, n);
  }

  predicate AllFit(bindings: seq<Binding>) {
    forall i :: 0 <= i < |bindings| ==> BindingFits(bindings[i])
  }

  /** A write below the DDR window misses every binding; one at the cursor misses the earlier. */
  lemma {:induction false} MissesAll(bindings: seq<Binding>, n: nat, at: nat, data: Bytes)
    requires n <= |bindings| && AllFit(bindings)
    requires at + |data| <= DDR_BASE || DdrCursor(Lengths(bindings), n) <= at
    ensures forall i :: 0 <= i < n ==> Missed(bindings, i, at, data)
  {
    forall i | 0 <= i < n ensures Missed(bindings, i, at, data) {
      assert BindingFits(bindings[i]);
      AddressBelow(bindings, i, n);
    }
  }

  lemma {:induction false} PtrPlaced(mem: Bytes, bindings: seq<Binding>, ptrs: nat, lens: nat, i: nat)
    requires |mem| == SPACE && i < |bindings| && AllFit(bindings) && Placed(mem, bindings, ptrs, lens, i, i, i)
    requires ptrs + 4 * |bindings| <= lens && lens + 4 * |bindings| <= DDR_BASE
    ensures Placed(Overlay(mem, ptrs + 4 * i, WordBytes(DdrAddr(Lengths(bindings), i))), bindings, ptrs, lens, i + 1, i, i)
  {
    var w := WordBytes(DdrAddr(Lengths(bindings), i));
    HoldsAppend(mem, ptrs, PtrTable(bindings, i), w);
    HoldsKept(mem, lens, LengthTable(bindings, i), ptrs + 4 * i, w);
    MissesAll(bindings, i, ptrs + 4 * i, w);
    ContentsKept(mem, bindings, i, ptrs + 4 * i, w);
  }

  lemma {:induction false} LengthPlaced(mem: Bytes, bindings: seq<Binding>, ptrs: nat, lens: nat, i: nat)
    requires |mem| == SPACE && i < |bindings| && AllFit(bindings) && Placed(mem, bindings, ptrs, lens, i + 1, i, i)
    requires ptrs + 4 * |bindings| <= lens && lens + 4 * |bindings| <= DDR_BASE
    ensures Placed(Overlay(mem, lens + 4 * i, WordBytes(bindings[i].length)), bindings, ptrs, lens, i + 1, i + 1, i)
  {
    var w := WordBytes(bindings[i].length);
    HoldsAppend(mem, lens, LengthTable(bindings, i), w);
    HoldsKept(mem, ptrs, PtrTable(bindings, i + 1), lens + 4 * i, w);
    MissesAll(bindings, i, lens + 4 * i, w);
    ContentsKept(mem, bindings, i, lens + 4 * i, w);
  }

  lemma {:induction false} DataPlaced(mem: Bytes, bindings: seq<Binding>, ptrs: nat, lens: nat, i: nat)
    requires |mem| == SPACE && i < |bindings| && AllFit(bindings) && Placed(mem, bindings, ptrs, lens, i + 1, i + 1, i)
    requires ptrs + 4 * |bindings| <= lens && lens + 4 * |bindings| <= DDR_BASE
    requires DdrAddr(Lengths(bindings), i) + |Data(bindings[i])| <= SPACE
    ensures var at := DdrAddr(Lengths(bindings), i);
            Placed(Overlay(mem, at, Data(bindings[i])), bindings, ptrs, lens, i + 1, i + 1, i + 1)
  {
    var at, data := DdrAddr(Lengths(bindings), i), Data(bindings[i]);
    AlignUpExact(DdrCursor(Lengths(bindings), i), 64, 0);
    HoldsKept(mem, ptrs, PtrTable(bindings, i + 1), at, data);
    HoldsKept(mem, lens, LengthTable(bindings, i + 1), at, data);
    MissesAll(bindings, i, at, data);
    ContentsKept(mem, bindings, i, at, data);
    HoldsWritten(mem, at, data);
  }

  /** Nothing below the DDR window changed but the two tables. */
  ghost predicate OnlyTables(m0: Memory, m1: Memory, ptrs: nat, lens: nat, n: nat) {
    forall a :: 0 <= a < DDR_BASE && !(ptrs <= a < ptrs + 4 * n) && !(lens <= a < lens + 4 * n) ==> m1[a] == m0[a]
  }

  lemma OnlyTablesStep(m0: Memory, m: Memory, ptrs: nat, lens: nat, n: nat, at: nat, data: Bytes)
    requires OnlyTables(m0, m, ptrs, lens, n) && at + |data| <= SPACE
    requires || (ptrs <= at && at + |data| <= ptrs + 4 * n)
             || (lens <= at && at + |data| <= lens + 4 * n)
             || DDR_BASE <= at
    ensures OnlyTables(m0, Overlay(m, at, data), ptrs, lens, n)
  {
  }

  lemma OnlyTablesTrans(m0: Memory, m1: Memory, m2: Memory, ptrs: nat, lens: nat, n: nat)
    requires OnlyTables(m0, m1, ptrs, lens, n) && OnlyTables(m1, m2, ptrs, lens, n)
    ensures OnlyTables(m0, m2, ptrs, lens, n)
  {
  }

  predicate TablesFit(bindings: seq<Binding>, ptrs: nat, lens: nat) {
    AllFit(bindings) && ptrs + 4 * |bindings| <= lens && lens + 4 * |bindings| <= DDR_BASE
  }

  method PlacePtr(sim: Simulator, bindings: seq<Binding>, ptrs: nat, lens: nat, i: nat, addr: u32)
    requires i < |bindings| && TablesFit(bindings, ptrs, lens) && addr == DdrAddr(Lengths(bindings), i)
    requires Placed(sim.mem, bindings, ptrs, lens, i, i, i)
    modifies sim
    ensures Placed(sim.mem, bindings, ptrs, lens, i + 1, i, i)
    ensures OnlyTables(old(sim.mem), sim.mem, ptrs, lens, |bindings|)
  {
    PtrPlaced(sim.mem, bindings, ptrs, lens, i);
    OnlyTablesStep(sim.mem, sim.mem, ptrs, lens, |bindings|, ptrs + 4 * i, WordBytes(addr));
    sim.WriteMem(ptrs + 4 * i, WordBytes(addr));
  }

  method PlaceLength(sim: Simulator, bindings: seq<Binding>, ptrs: nat, lens: nat, i: nat)
    requires i < |bindings| && TablesFit(bindings, ptrs, lens) && Placed(sim.mem, bindings, ptrs, lens, i + 1, i, i)
    modifies sim
    ensures Placed(sim.mem, bindings, ptrs, lens, i + 1, i + 1, i)
    ensures OnlyTables(old(sim.mem), sim.mem, ptrs, lens, |bindings|)
  {
    LengthPlaced(sim.mem, bindings, ptrs, lens, i);
    OnlyTablesStep(sim.mem, sim.mem, ptrs, lens, |bindings|, lens + 4 * i, WordBytes(bindings[i].length));
    sim.WriteMem(lens + 4 * i, WordBytes(bindings[i].length));
  }

  method PlaceData(sim: Simulator, bindings: seq<Binding>, ptrs: nat, lens: nat, i: nat, addr: u32)
    requires i < |bindings| && TablesFit(bindings, ptrs, lens) && addr == DdrAddr(Lengths(bindings), i)
    requires addr + bindings[i].length <= SPACE && (bindings[i].length == 0 || bindings[i].data.Some?)
    requires Placed(sim.mem, bindings, ptrs, lens, i + 1, i + 1, i)
    modifies sim
    ensures Placed(sim.mem, bindings, ptrs, lens, i + 1, i + 1, i + 1)
    ensures OnlyTables(old(sim.mem), sim.mem, ptrs, lens, |bindings|)
  {
    var b := bindings[i];
    AlignUpExact(DdrCursor(Lengths(bindings), i), 64, 0);
    DataPlaced(sim.mem, bindings, ptrs, lens, i);
    OnlyTablesStep(sim.mem, sim.mem, ptrs, lens, |bindings|, addr, Data(b));
    if b.length != 0 {
      sim.WriteMem(addr, b.data.value);
    } else {
      OverlayNothing(sim.mem, addr);
    }
  }

  /** The writes of one round of the binding loop. */
  method PlaceOne(sim: Simulator, bindings: seq<Binding>, ptrs: nat, lens: nat, i: nat, addr: u32)
    requires i < |bindings| && TablesFit(bindings, ptrs, lens) && addr == DdrAddr(Lengths(bindings), i)
    requires addr + bindings[i].length <= SPACE && (bindings[i].length == 0 || bindings[i].data.Some?)
    requires Placed(sim.mem, bindings, ptrs, lens, i, i, i)
    modifies sim
    ensures Placed(sim.mem, bindings, ptrs, lens, i + 1, i + 1, i + 1)
    ensures OnlyTables(old(sim.mem), sim.mem, ptrs, lens, |bindings|)
  {
    PlacePtr(sim, bindings, ptrs, lens, i, addr);
    ghost var m1 := sim.mem;
    PlaceLength(sim, bindings, ptrs, lens, i);
    OnlyTablesTrans(old(sim.mem), m1, sim.mem, ptrs, lens, |bindings|);
    ghost var m2 := sim.mem;
    PlaceData(sim, bindings, ptrs, lens, i, addr);
    OnlyTablesTrans(old(sim.mem), m2, sim.mem, ptrs, lens, |bindings|);
  }

  /** One round of the binding loop. */
  method UploadOne(sim: Simulator, bindings: seq<Binding>, ptrs: nat, lens: nat, i: nat, cursor: u32)
      returns (status: Status, next: u32)
    requires i < |bindings| && TablesFit(bindings, ptrs, lens)
    requires Placed(sim.mem, bindings, ptrs, lens, i, i, i) && cursor == DdrCursor(Lengths(bindings), i)
    modifies sim
    ensures status == BindingStatus(bindings, i)
    ensures status == Ok ==> next == DdrCursor(Lengths(bindings), i + 1) && Placed(sim.mem, bindings, ptrs, lens, i + 1, i + 1, i + 1)
    ensures OnlyTables(old(sim.mem), sim.mem, ptrs, lens, |bindings|)
  {
    next := cursor;
    var b := bindings[i];
    if b.length >= SPACE {
      return ResourceExhausted, next;
    }
    if b.length != 0 && b.data.None? {
      return InvalidArgument, next;
    }
    var block := Allocate(cursor, DDR_LIMIT, 64, b.length);
    if block.None? {
      return ResourceExhausted, next;
    }
    next := block.value.next;
    PlaceOne(sim, bindings, ptrs, lens, i, block.value.addr);
    status := Ok;
  }

  /** The binding loop succeeds exactly when every binding fits and none is a null pointer; then
      both tables and all contents are in memory. */
  method UploadBindings(sim: Simulator, bindings: seq<Binding>, ptrs: nat, lens: nat) returns (status: Status)
    requires AllFit(bindings) && (bindings != [] ==> ptrs + 4 * |bindings| <= lens && lens + 4 * |bindings| <= DDR_BASE)
    requires ptrs <= SPACE && lens <= SPACE
    modifies sim
    ensures status in {Ok, ResourceExhausted, InvalidArgument}
    ensures status == Ok <==> BindingsOk(bindings, |bindings|)
    ensures status == Ok ==> Placed(sim.mem, bindings, ptrs, lens, |bindings|, |bindings|, |bindings|)
    ensures OnlyTables(old(sim.mem), sim.mem, ptrs, lens, |bindings|)
  {
    var cursor: u32 := DDR_BASE;
    for i := 0 to |bindings|
      invariant cursor == DdrCursor(Lengths(bindings), i) && BindingsOk(bindings, i)
      invariant Placed(sim.mem, bindings, ptrs, lens, i, i, i)
      invariant OnlyTables(old(sim.mem), sim.mem, ptrs, lens, |bindings|)
    {
      status, cursor := UploadOne(sim, bindings, ptrs, lens, i, cursor);
      if status != Ok {
        return;
      }
    }
    status := Ok;
  }

  lemma {:induction false} BindingsFit(bindings: seq<Binding>)
    requires BindingsOk(bindings, |bindings|)
    ensures DdrFits(Lengths(bindings))
  {
    if bindings != [] { assert BindingStatus(bindings, |bindings| - 1) == Ok; }
  }

  /** After the upload, word `i` of the pointer table is the address of the bytes of binding `i`,
      and word `i` of the length table their number. */
  lemma {:induction false} TablesDescribe(mem: Bytes, bindings: seq<Binding>, ptrs: nat, lens: nat, i: nat)
    requires BindingsOk(bindings, |bindings|) && AllFit(bindings) && i < |bindings|
    requires Placed(mem, bindings, ptrs, lens, |bindings|, |bindings|, |bindings|)
    ensures ptrs + 4 * i + 4 <= |mem| && lens + 4 * i + 4 <= |mem|
    ensures var addr := WordAt(mem, ptrs + 4 * i);
            && WordAt(mem, lens + 4 * i) == bindings[i].length && addr % 64 == 0
            && Holds(mem, addr, Data(bindings[i])) && |Data(bindings[i])| == bindings[i].length
  {
    var lengths := Lengths(bindings);
    BindingsFit(bindings);
    DdrRegions(lengths, i, i);
    assert BindingStatus(bindings, i) == Ok && BindingFits(bindings[i]) && ContentPlaced(mem, bindings, i);
    assert Addresses(lengths)[i] == DdrAddr(lengths, i);
    TableRead(mem, ptrs, Addresses(lengths), i);
    TableRead(mem, lens, lengths, i);
  }

  // ----- the whole upload -----

  function ConstantTable(a: Args): Bytes {
    TableBytes(Words(a.constants), |a.constants|)
  }

  /** Everything the kernel is to find in memory. */
  ghost predicate Uploaded(mem: Bytes, a: Args, h: Heap) {
    && (a.constants != [] ==> Holds(mem, h.constants, ConstantTable(a)))
    && (a.localLength != 0 ==> Holds(mem, h.local, Zeros(a.localLength)))
    && (a.bindings != [] ==> Placed(mem, a.bindings, h.ptrs, h.lengths, |a.bindings|, |a.bindings|, |a.bindings|))
  }

  lemma {:induction false} HoldsBesideTables(m0: Memory, m1: Memory, ptrs: nat, lens: nat, n: nat, addr: nat, data: Bytes)
    requires OnlyTables(m0, m1, ptrs, lens, n) && Holds(m0, addr, data) && addr + |data| <= DDR_BASE
    requires n == 0 || ((addr + |data| <= ptrs || ptrs + 4 * n <= addr) && (addr + |data| <= lens || lens + 4 * n <= addr))
    ensures Holds(m1, addr, data)
  {
  }

  method UploadHeap(sim: Simulator, a: Args, start: u32, end: u32) returns (status: Status, h: Heap)
    requires ArgsFit(a) && start <= end <= DDR_BASE
    modifies sim
    ensures status == if HeapEnd(start, |a.constants|, |a.bindings|, a.localLength) <= end then Ok else ResourceExhausted
    ensures status == Ok ==> HeapOk(start, end, |a.constants|, |a.bindings|, a.localLength, h)
    ensures status == Ok && a.constants != [] ==> Holds(sim.mem, h.constants, ConstantTable(a))
    ensures status == Ok && a.localLength != 0 ==> Holds(sim.mem, h.local, Zeros(a.localLength))
  {
    status, h := AllocateHeap(start, end, |a.constants|, |a.bindings|, a.localLength);
    if status != Ok {
      return;
    }
    if a.constants != [] {
      HoldsWritten(sim.mem, h.constants, ConstantTable(a));
      WriteTable(sim, h.constants, Words(a.constants));
    }
    if a.localLength != 0 {
      HoldsWritten(sim.mem, h.local, Zeros(a.localLength));
      if a.constants != [] { HoldsKept(sim.mem, h.constants, ConstantTable(a), h.local, Zeros(a.localLength)); }
      ZeroMem(sim, h.local, a.localLength);
    }
  }

  /** The arguments fit the heap and the DDR window. */
  ghost predicate CanUpload(a: Args, start: nat, end: nat) {
    HeapEnd(start, |a.constants|, |a.bindings|, a.localLength) <= end && BindingsOk(a.bindings, |a.bindings|)
  }

  /** The upload succeeds exactly when everything fits; then everything is in memory. */
  method Upload(sim: Simulator, a: Args, start: u32, end: u32) returns (status: Status, h: Heap)
    requires ArgsFit(a) && start <= end <= DDR_BASE
    modifies sim
    ensures status in {Ok, ResourceExhausted, InvalidArgument}
    ensures status == Ok <==> CanUpload(a, start, end)
    ensures status == Ok ==> HeapOk(start, end, |a.constants|, |a.bindings|, a.localLength, h)
    ensures status == Ok ==> BindingsOk(a.bindings, |a.bindings|) && Uploaded(sim.mem, a, h)
  {
    status, h := UploadHeap(sim, a, start, end);
    if status != Ok {
      return;
    }
    ghost var m0 := sim.mem;
    status := UploadBindings(sim, a.bindings, h.ptrs, h.lengths);
    if a.constants != [] {
      HoldsBesideTables(m0, sim.mem, h.ptrs, h.lengths, |a.bindings|, h.constants, ConstantTable(a));
    }
    if a.localLength != 0 {
      HoldsBesideTables(m0, sim.mem, h.ptrs, h.lengths, |a.bindings|, h.local, Zeros(a.localLength));
    }
  }
}
