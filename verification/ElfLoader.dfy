/** simulator_elf_loader.c: PT_LOAD segments of a little-endian ELF32 image are copied to the
    simulator, then the firmware's symbols are looked up. */
module ElfLoader {
  import opened SimMemory

  // ----- regions -----

  const ITCM_START: u32 := 0
  const ITCM_SIZE: u32 := 0x8000
  const DTCM_START: u32 := 0x1_0000
  const DTCM_SIZE: u32 := 0x8000
  const DDR_START: u32 := 0x8000_0000
  const DDR_SIZE: u32 := 0x8000_0000

  /** The 64-bit sum may wrap; then it is smaller than its first operand. */
  function RangeFits(base: u32, size: u32, address: u32, length: nat): bool
  {
    var begin: nat := address;
    var end := (begin + length) % SIZE_64;
    var regionBegin: nat := base;
    var regionEnd := regionBegin + size;
    begin >= regionBegin && end >= begin && end <= regionEnd
  }

  /** No wrap-around is mistaken for a fit. */
  lemma RangeFitsExact(base: u32, size: u32, address: u32, length: nat)
    requires length < SIZE_64
    ensures RangeFits(base, size, address, length) <==> base <= address && address + length <= base + size
  {
  }

  /** The whole range lies in ITCM, in DTCM or in DDR. */
  predicate InRegion(address: nat, length: nat) {
    || (ITCM_START <= address && address + length <= ITCM_START + ITCM_SIZE)
    || (DTCM_START <= address && address + length <= DTCM_START + DTCM_SIZE)
    || (DDR_START <= address && address + length <= DDR_START + DDR_SIZE)
  }

  function ValidateSegment(address: u32, size: nat): (r: Status)
    requires size < SIZE_64
    ensures r == if size == 0 || InRegion(address, size) then Ok else OutOfRange
  {
    RangeFitsExact(ITCM_START, ITCM_SIZE, address, size);
    RangeFitsExact(DTCM_START, DTCM_SIZE, address, size);
    RangeFitsExact(DDR_START, DDR_SIZE, address, size);
    if size == 0 then Ok
    else if RangeFits(ITCM_START, ITCM_SIZE, address, size) || RangeFits(DTCM_START, DTCM_SIZE, address, size) ||
            RangeFits(DDR_START, DDR_SIZE, address, size) then Ok
    else OutOfRange
  }

  /** A range in a region ends inside the address space, and every part of it is in the region. */
  lemma PartsFit(address: nat, size: nat, at: nat, length: nat)
    requires InRegion(address, size) && at + length <= size
    ensures address + size <= SPACE && InRegion(address + at, length)
  {
  }

  // ----- the file format -----

  const EHDR_SIZE: nat := 52
  const PHDR_SIZE: nat := 32
  const SHDR_SIZE: nat := 40
  const SYM_SIZE: nat := 16
  const PT_LOAD: nat := 1
  const FLAG_X: nat := 1
  const EM_RISCV: nat := 243
  const SHT_SYMTAB: nat := 2
  const SHN_UNDEF: nat := 0

  function U32At(image: Bytes, off: nat): u32
    requires off + 4 <= |image|
  {
    Word(image[off..off + 4])
  }

  function U16At(image: Bytes, off: nat): nat
    requires off + 2 <= |image|
  {
    Half(image[off..off + 2])
  }

  predicate IsElf32(image: Bytes) {
    |image| >= EHDR_SIZE && image[..6] == [0x7F, 0x45, 0x4C, 0x46, 1, 1]
  }

  function Entry(image: Bytes): u32
    requires IsElf32(image)
  {
    U32At(image, 24)
  }

  function PhOff(image: Bytes): u32
    requires IsElf32(image)
  {
    U32At(image, 28)
  }

  function PhNum(image: Bytes): nat
    requires IsElf32(image)
  {
    U16At(image, 44)
  }

  function ShOff(image: Bytes): u32
    requires IsElf32(image)
  {
    U32At(image, 32)
  }

  function ShNum(image: Bytes): nat
    requires IsElf32(image)
  {
    U16At(image, 48)
  }

  datatype Phdr = Phdr(ptype: u32, offset: u32, paddr: u32, filesz: u32, memsz: u32, flags: u32)

  /** Machine, entry size and bounds of the program header table. */
  predicate HeadersOk(image: Bytes) {
    && IsElf32(image) && U16At(image, 18) == EM_RISCV && U16At(image, 42) == PHDR_SIZE
    && PhOff(image) + PhNum(image) * PHDR_SIZE <= |image|
  }

  function HeaderAt(image: Bytes, i: nat): Phdr
    requires HeadersOk(image) && i < PhNum(image)
  {
    var at := PhOff(image) + i * PHDR_SIZE;
    Phdr(U32At(image, at), U32At(image, at + 4), U32At(image, at + 12), U32At(image, at + 16), U32At(image, at + 20),
         U32At(image, at + 24))
  }

  // ----- what loading means -----

  function SegmentStatus(image: Bytes, ph: Phdr): Status {
    if ph.memsz < ph.filesz then InvalidArgument
    else if ph.offset + ph.filesz > |image| then InvalidArgument
    else if ph.memsz == 0 || InRegion(ph.paddr, ph.memsz) then Ok
    else OutOfRange
  }

  /** The file bytes, then zeros up to the memory size. */
  function SegmentBytes(image: Bytes, ph: Phdr): (r: Bytes)
    requires SegmentStatus(image, ph) == Ok
    ensures |r| == ph.memsz
  {
    image[ph.offset..ph.offset + ph.filesz] + Zeros(ph.memsz - ph.filesz)
  }

  lemma SegmentEnds(image: Bytes, ph: Phdr)
    requires SegmentStatus(image, ph) == Ok
    ensures ph.paddr + ph.memsz <= SPACE
  {
  }

  predicate EntryIn(entry: u32, ph: Phdr) {
    ph.ptype == PT_LOAD && ph.flags % 2 == FLAG_X && ph.paddr <= entry < ph.paddr + ph.memsz
  }

  datatype Loaded = Loaded(status: Status, mem: Memory, entryOk: bool)

  /** The first `n` program headers in order; the first bad one stops, earlier ones stay loaded. */
  ghost function LoadHeaders(image: Bytes, entry: u32, phs: seq<Phdr>, n: nat, mem: Memory): (r: Loaded)
    requires n <= |phs|
  {
    if n == 0 then Loaded(Ok, mem, false)
    else
      var l := LoadHeaders(image, entry, phs, n - 1, mem);
      if l.status != Ok then l else LoadOne(image, entry, phs[n - 1], l)
  }

  ghost function LoadOne(image: Bytes, entry: u32, ph: Phdr, l: Loaded): (r: Loaded)
  {
    if ph.ptype != PT_LOAD then l
    else if SegmentStatus(image, ph) != Ok then Loaded(SegmentStatus(image, ph), l.mem, l.entryOk)
    else
      SegmentEnds(image, ph);
      Loaded(Ok, Overlay(l.mem, ph.paddr, SegmentBytes(image, ph)), l.entryOk || EntryIn(entry, ph))
  }

  predicate Covers(ph: Phdr, a: nat) {
    ph.ptype == PT_LOAD && ph.paddr <= a < ph.paddr + ph.memsz
  }

  /** Header `i` is the last of the first `n` whose segment lies over `a`. */
  ghost predicate IsLast(phs: seq<Phdr>, n: nat, i: nat, a: nat)
    requires n <= |phs|
  {
    i < n && Covers(phs[i], a) && forall j :: i < j < n ==> !Covers(phs[j], a)
  }

  ghost predicate NoneCovers(phs: seq<Phdr>, n: nat, a: nat)
    requires n <= |phs|
  {
    forall i :: 0 <= i < n ==> !Covers(phs[i], a)
  }

  function SegmentByte(image: Bytes, ph: Phdr, a: nat): byte {
    if ph.paddr <= a && a - ph.paddr < ph.filesz && ph.offset + (a - ph.paddr) < |image| then image[ph.offset + (a - ph.paddr)]
    else 0
  }

  /** One program header, seen from one byte. */
  lemma LoadOneByte(image: Bytes, entry: u32, ph: Phdr, l: Loaded, a: nat)
    requires a < SPACE && l.status == Ok && LoadOne(image, entry, ph, l).status == Ok
    ensures LoadOne(image, entry, ph, l).mem[a] == if Covers(ph, a) then SegmentByte(image, ph, a) else l.mem[a]
  {
  }

  /** Every byte after a successful load: the last segment over it decides, by its file byte or
      zero; where no segment lies, memory is as before. */
  lemma {:induction false} LoadedByte(image: Bytes, entry: u32, phs: seq<Phdr>, n: nat, mem: Memory, a: nat, i: nat)
    requires n <= |phs| && a < SPACE && LoadHeaders(image, entry, phs, n, mem).status == Ok
    ensures IsLast(phs, n, i, a) ==> LoadHeaders(image, entry, phs, n, mem).mem[a] == SegmentByte(image, phs[i], a)
    ensures NoneCovers(phs, n, a) ==> LoadHeaders(image, entry, phs, n, mem).mem[a] == mem[a]
  {
    if n > 0 {
      LoadedByte(image, entry, phs, n - 1, mem, a, i);
      LoadOneByte(image, entry, phs[n - 1], LoadHeaders(image, entry, phs, n - 1, mem), a);
      if IsLast(phs, n, i, a) && i < n - 1 { assert IsLast(phs, n - 1, i, a); }
      if NoneCovers(phs, n, a) { assert NoneCovers(phs, n - 1, a); }
    }
  }

  /** Every loaded segment lies inside one region, so no byte elsewhere changes, even when a bad
      header stops the load. */
  lemma {:induction false} OnlyRegionsChange(image: Bytes, entry: u32, phs: seq<Phdr>, n: nat, mem: Memory, a: u32)
    requires n <= |phs| && LoadHeaders(image, entry, phs, n, mem).mem[a] != mem[a]
    ensures InRegion(a, 1)
  {
    var l := LoadHeaders(image, entry, phs, n - 1, mem);
    if l.mem[a] != mem[a] {
      OnlyRegionsChange(image, entry, phs, n - 1, mem, a);
    } else {
      LoadOneByte(image, entry, phs[n - 1], l, a);
      PartsFit(phs[n - 1].paddr, phs[n - 1].memsz, a - phs[n - 1].paddr, 1);
    }
  }

  /** The entry flag is set exactly when the entry lies in an executable segment. */
  lemma {:induction false} EntryExact(image: Bytes, entry: u32, phs: seq<Phdr>, n: nat, mem: Memory)
    requires n <= |phs| && LoadHeaders(image, entry, phs, n, mem).status == Ok
    ensures LoadHeaders(image, entry, phs, n, mem).entryOk <==> exists i :: 0 <= i < n && EntryIn(entry, phs[i])
  {
    if n > 0 { EntryExact(image, entry, phs, n - 1, mem); }
  }

  // ----- loading -----

  method CopySegment(sim: Simulator, address: u32, source: Bytes) returns (status: Status)
    requires |source| < SIZE_64
    modifies sim
    ensures status == if source == [] || InRegion(address, |source|) then Ok else OutOfRange
    ensures status == Ok ==> address + |source| <= SPACE && sim.mem == Overlay(old(sim.mem), address, source)
    ensures status != Ok ==> sim.mem == old(sim.mem)
  {
    if |source| == 0 {
      OverlayNothing(sim.mem, address);
      return Ok;
    }
    RangeFitsExact(ITCM_START, ITCM_SIZE, address, |source|);
    RangeFitsExact(DTCM_START, DTCM_SIZE, address, |source|);
    RangeFitsExact(DDR_START, DDR_SIZE, address, |source|);
    if RangeFits(ITCM_START, ITCM_SIZE, address, |source|) {
      sim.WriteMem(address, source);
      return Ok;
    }
    if RangeFits(DTCM_START, DTCM_SIZE, address, |source|) {
      sim.WriteMem(address, source);
      return Ok;
    }
    if RangeFits(DDR_START, DDR_SIZE, address, |source|) {
      sim.WriteMem(address, source);
      return Ok;
    }
    return OutOfRange;
  }

  /** Zero-fill in chunks of at most 256 bytes.  No chunk is ever rejected; the 32-bit cursor may
      wrap to 0 only when nothing remains. */
  method ZeroFill(sim: Simulator, ph: Phdr) returns (status: Status)
    requires ph.filesz < ph.memsz && InRegion(ph.paddr, ph.memsz)
    modifies sim
    ensures status == Ok && ph.paddr + ph.memsz <= SPACE
    ensures sim.mem == Overlay(old(sim.mem), ph.paddr + ph.filesz, Zeros(ph.memsz - ph.filesz))
  {
    PartsFit(ph.paddr, ph.memsz, 0, ph.memsz);
    ghost var start := ph.paddr + ph.filesz;
    ghost var done := 0;
    var zeroAddress := Add32(ph.paddr, ph.filesz);
    var remaining := ph.memsz - ph.filesz;
    OverlayNothing(sim.mem, start);
    while remaining != 0
      invariant 0 <= remaining && start + done + remaining == ph.paddr + ph.memsz <= SPACE
      invariant remaining != 0 ==> zeroAddress == start + done
      invariant sim.mem == Overlay(old(sim.mem), start, Zeros(done))
      decreases remaining
    {
      var chunk := if remaining < 256 then remaining else 256;
      PartsFit(ph.paddr, ph.memsz, ph.filesz + done, chunk);
      status := CopySegment(sim, zeroAddress, Zeros(chunk));
      if status != Ok {
        return;
      }
      ZerosAppend(old(sim.mem), start, done, chunk);
      zeroAddress := Add32(zeroAddress, chunk);
      done, remaining := done + chunk, remaining - chunk;
    }
    status := Ok;
  }

  /** 32-bit addition. */
  function Add32(a: u32, b: u32): (r: u32)
    ensures a + b < SPACE ==> r == a + b
  {
    (a + b) % SPACE
  }

  /** One program header of the loop. */
  method LoadHeader(sim: Simulator, image: Bytes, entry: u32, ph: Phdr, entryOk: bool) returns (status: Status, entryOk': bool)
    modifies sim
    ensures status in {Ok, InvalidArgument, OutOfRange}
    ensures Loaded(status, sim.mem, entryOk') == LoadOne(image, entry, ph, Loaded(Ok, old(sim.mem), entryOk))
  {
    entryOk' := entryOk;
    if ph.ptype != PT_LOAD {
      return Ok, entryOk;
    }
    if ph.memsz < ph.filesz {
      return InvalidArgument, entryOk;
    }
    if ph.offset + ph.filesz > |image| {
      return InvalidArgument, entryOk;
    }
    status := ValidateSegment(ph.paddr, ph.memsz);
    if status != Ok {
      return;
    }
    if ph.flags % 2 == FLAG_X && entry >= ph.paddr && entry < ph.paddr + ph.memsz {
      entryOk' := true;
    }
    status := CopyAndFill(sim, image, ph);
  }

  /** The copy of the file bytes and the zero-fill: together the whole segment, never rejected. */
  method CopyAndFill(sim: Simulator, image: Bytes, ph: Phdr) returns (status: Status)
    requires SegmentStatus(image, ph) == Ok
    modifies sim
    ensures status == Ok && ph.paddr + ph.memsz <= SPACE
    ensures sim.mem == Overlay(old(sim.mem), ph.paddr, SegmentBytes(image, ph))
  {
    SegmentEnds(image, ph);
    var file := image[ph.offset..ph.offset + ph.filesz];
    if ph.filesz > 0 { PartsFit(ph.paddr, ph.memsz, 0, ph.filesz); }
    status := CopySegment(sim, ph.paddr, file);
    if status != Ok {
      return;
    }
    if ph.memsz > ph.filesz {
      status := ZeroFill(sim, ph);
      OverlayAppend(old(sim.mem), ph.paddr, file, Zeros(ph.memsz - ph.filesz));
    } else {
      assert SegmentBytes(image, ph) == file;
    }
  }

  function Headers(image: Bytes): seq<Phdr>
    requires HeadersOk(image)
  {
    seq(PhNum(image), i requires 0 <= i < PhNum(image) => HeaderAt(image, i))
  }

  /** The loop over all program headers: memory ends up as the headers say, and a rejected image
      is rejected for the reason of its first bad segment. */
  method LoadSegments(sim: Simulator, image: Bytes) returns (status: Status, entryOk: bool)
    requires HeadersOk(image)
    modifies sim
    ensures status in {Ok, InvalidArgument, OutOfRange}
    ensures Loaded(status, sim.mem, entryOk) ==
            LoadHeaders(image, Entry(image), Headers(image), PhNum(image), old(sim.mem))
  {
    status, entryOk := Ok, false;
    ghost var phs := Headers(image);
    for i := 0 to PhNum(image)
      invariant status == Ok
      invariant Loaded(Ok, sim.mem, entryOk) == LoadHeaders(image, Entry(image), phs, i, old(sim.mem))
    {
      status, entryOk := LoadHeader(sim, image, Entry(image), HeaderAt(image, i), entryOk);
      if status != Ok {
        LoadStays(image, Entry(image), phs, i + 1, PhNum(image), old(sim.mem));
        return;
      }
    }
  }

  lemma {:induction false} LoadStays(image: Bytes, entry: u32, phs: seq<Phdr>, i: nat, n: nat, mem: Memory)
    requires i <= n <= |phs| && LoadHeaders(image, entry, phs, i, mem).status != Ok
    ensures LoadHeaders(image, entry, phs, n, mem) == LoadHeaders(image, entry, phs, i, mem)
    decreases n
  {
    if i < n { LoadStays(image, entry, phs, i, n - 1, mem); }
  }
}
