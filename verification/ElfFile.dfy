/** The load of a file described record by record: every address and every byte that the loader
    produces, from the fields of the file's records. */
module ElfFile {
  import opened SimMemory
  import opened DispatchMemory
  import opened FieldEncoding
  import opened ElfLoader
  import opened ElfSymbols
  import opened ElfEncoding

  /** The records of a file; `symbols[i]` are the entries of section `i` if that is a symbol table. */
  datatype File = File(header: FileHeader, segments: seq<ProgramHeader>, sections: seq<SectionHeader>, symbols: seq<seq<Symbol>>)

  /** A little-endian 32-bit RISC-V file. */
  predicate HeaderOk(f: File) {
    var h := f.header;
    && |h.ident| == 16 && h.ident[..6] == [0x7F, 0x45, 0x4C, 0x46, 1, 1] && h.machine == 243
    && h.phentsize == 32 && h.shentsize == 40 && h.phnum == |f.segments| && h.shnum == |f.sections| == |f.symbols|
  }

  predicate IsTable(s: SectionHeader) {
    s.stype == 2
  }

  ghost predicate SegmentStands(image: Bytes, f: File, i: nat)
    requires i < |f.segments|
  {
    Holds(image, f.header.phoff + i * 32, Encode(ProgramHeaderFields(f.segments[i])))
  }

  ghost predicate SectionStands(image: Bytes, f: File, i: nat)
    requires i < |f.sections|
  {
    Holds(image, f.header.shoff + i * 40, Encode(SectionHeaderFields(f.sections[i])))
  }

  /** A symbol table with its string table. */
  ghost predicate TableStands(image: Bytes, f: File, i: nat)
    requires i < |f.sections| == |f.symbols|
  {
    var s := f.sections[i];
    && s.entsize == 16 && s.size == 16 * |f.symbols[i]| && s.offset + s.size <= |image| && s.link < |f.sections|
    && f.sections[s.link].offset + f.sections[s.link].size <= |image|
    && forall j :: 0 <= j < |f.symbols[i]| ==> SymbolStands(image, f, i, j)
  }

  ghost predicate SymbolStands(image: Bytes, f: File, i: nat, j: nat)
    requires i < |f.sections| == |f.symbols| && j < |f.symbols[i]|
  {
    Holds(image, f.sections[i].offset + j * 16, Encode(SymbolFields(f.symbols[i][j])))
  }

  /** All records of the file stand in the image, at the offsets that the headers give. */
  ghost predicate Encodes(image: Bytes, f: File) {
    && HeaderOk(f) && Holds(image, 0, FileHeaderBytes(f.header))
    && f.header.phoff + |f.segments| * 32 <= |image| && f.header.shoff + |f.sections| * 40 <= |image|
    && (forall i :: 0 <= i < |f.segments| ==> SegmentStands(image, f, i))
    && (forall i :: 0 <= i < |f.sections| ==> SectionStands(image, f, i))
    && (forall i :: 0 <= i < |f.sections| && IsTable(f.sections[i]) ==> TableStands(image, f, i))
  }

  // ----- the loader sees the records -----

  lemma {:induction false} HeaderSeen(image: Bytes, f: File)
    requires Encodes(image, f)
    ensures HeadersOk(image) && SectionsOk(image) && Entry(image) == f.header.entry
    ensures PhOff(image) == f.header.phoff && PhNum(image) == |f.segments|
    ensures ShOff(image) == f.header.shoff && ShNum(image) == |f.sections|
  {
    FileHeaderRead(image, f.header);
  }

  lemma {:induction false} SegmentsSeen(image: Bytes, f: File)
    requires Encodes(image, f)
    ensures HeadersOk(image) && |Headers(image)| == |f.segments|
    ensures forall i :: 0 <= i < |f.segments| ==> Headers(image)[i] == LoaderPhdr(f.segments[i])
  {
    HeaderSeen(image, f);
    forall i | 0 <= i < |f.segments| ensures Headers(image)[i] == LoaderPhdr(f.segments[i]) {
      assert SegmentStands(image, f, i);
      HeaderRead(image, i, f.segments[i]);
    }
  }

  lemma {:induction false} SectionsSeen(image: Bytes, f: File)
    requires Encodes(image, f)
    ensures HeadersOk(image) && SectionsOk(image) && |Sections(image)| == |f.sections|
    ensures forall i :: 0 <= i < |f.sections| ==> Sections(image)[i] == LoaderShdr(f.sections[i])
  {
    HeaderSeen(image, f);
    forall i | 0 <= i < |f.sections| ensures Sections(image)[i] == LoaderShdr(f.sections[i]) {
      assert SectionStands(image, f, i);
      SectionRead(image, i, f.sections[i]);
    }
  }

  lemma {:induction false} TableSeen(image: Bytes, f: File, i: nat)
    requires Encodes(image, f) && i < |f.sections| && IsTable(f.sections[i])
    ensures HeadersOk(image) && SectionsOk(image) && i < |Sections(image)|
    ensures var sh := Sections(image)[i];
            && IsSymtab(sh) && SymtabOk(image, Sections(image), sh) && SymCount(sh) == |f.symbols[i]|
            && forall j :: 0 <= j < |f.symbols[i]| ==> SymAt(image, sh, j) == LoaderSym(f.symbols[i][j])
  {
    SectionsSeen(image, f);
    assert TableStands(image, f, i);
    var sh := Sections(image)[i];
    assert sh == LoaderShdr(f.sections[i]);
    assert Sections(image)[sh.link] == LoaderShdr(f.sections[sh.link]);
    forall j | 0 <= j < |f.symbols[i]| ensures SymAt(image, sh, j) == LoaderSym(f.symbols[i][j]) {
      assert SymbolStands(image, f, i, j);
      SymbolRead(image, sh, j, f.symbols[i][j]);
    }
  }

  // ----- symbols by name -----

  /** Entry `j` of table `i` is defined, and its name with the closing NUL stands in the string table. */
  ghost predicate Named(image: Bytes, f: File, i: nat, j: nat, name: Bytes) {
    && i < |f.sections| == |f.symbols| && IsTable(f.sections[i]) && j < |f.symbols[i]| && f.symbols[i][j].shndx != 0
    && f.sections[i].link < |f.sections|
    && var str, at := f.sections[f.sections[i].link], f.symbols[i][j].name;
       at + |name| < str.size && str.offset + str.size <= |image| && Holds(image, str.offset + at, name + [0])
  }

  /** It is the first of that name, in section order and then in table order. */
  ghost predicate FirstNamed(image: Bytes, f: File, i: nat, j: nat, name: Bytes) {
    && Named(image, f, i, j, name)
    && forall p: nat, q: nat :: Named(image, f, p, q, name) ==> i < p || (i == p && j <= q)
  }

  predicate NoNul(name: Bytes) {
    forall k :: 0 <= k < |name| ==> name[k] != 0
  }

  lemma HoldsIsSlice(m: Bytes, at: nat, data: Bytes)
    requires at + |data| <= |m|
    ensures Holds(m, at, data) <==> m[at..at + |data|] == data
  {
    if m[at..at + |data|] == data {
      forall k | 0 <= k < |data| ensures m[at + k] == data[k] { assert m[at..at + |data|][k] == data[k]; }
    }
  }

  /** A name and its terminator. */
  lemma HoldsName(m: Bytes, at: nat, name: Bytes)
    requires at + |name| < |m|
    ensures Holds(m, at, name + [0]) <==> m[at..at + |name|] == name && m[at + |name|] == 0
  {
    HoldsIsSlice(m, at, name + [0]);
    var n := |name|;
    assert m[at..at + n + 1] == m[at..at + n] + [m[at + n]];
    if m[at..at + n + 1] == name + [0] {
      assert m[at..at + n] == m[at..at + n + 1][..n] == (name + [0])[..n] == name;
      assert m[at + n] == m[at..at + n + 1][n];
    }
  }

  lemma SliceOfSlice(m: Bytes, a: nat, b: nat, c: nat, d: nat)
    requires a <= b <= |m| && c <= d <= b - a
    ensures m[a..b][c..d] == m[a + c..a + d]
  {
    var x, y := m[a..b][c..d], m[a + c..a + d];
    forall k | 0 <= k < d - c ensures x[k] == y[k] {
      assert x[k] == m[a..b][c + k];
      assert y[k] == m[a + c + k];
    }
  }

  /** The loader's comparison inside a string table. */
  lemma {:induction false} NameInTable(image: Bytes, offset: nat, size: nat, at: nat, name: Bytes)
    requires offset + size <= |image| && NoNul(name)
    ensures StringEquals(image[offset..offset + size], at, name) <==> at + |name| < size && Holds(image, offset + at, name + [0])
  {
    var table := image[offset..offset + size];
    StringEqualsExact(table, at, name);
    if at + |name| < size {
      HoldsName(image, offset + at, name);
      SliceOfSlice(image, offset, offset + size, at, at + |name|);
      assert offset + (at + |name|) == offset + at + |name|;
      assert table[at + |name|] == image[offset + at + |name|];
    }
  }

  /** The loader's match, in terms of the symbol and the string table. */
  lemma {:induction false} MatchIs(image: Bytes, shs: seq<Shdr>, sh: Shdr, j: nat, str: Shdr, sym: Sym, name: Bytes)
    requires SymtabOk(image, shs, sh) && j < SymCount(sh) && shs[sh.link] == str && SymAt(image, sh, j) == sym && NoNul(name)
    ensures Matches(image, shs, sh, j, name) <==>
              sym.shndx != 0 && sym.name + |name| < str.size && Holds(image, str.offset + sym.name, name + [0])
  {
    NameInTable(image, str.offset, str.size, sym.name, name);
  }

  /** The loader's match is the name of the record. */
  lemma {:induction false} NamedSeen(image: Bytes, f: File, i: nat, j: nat, name: Bytes)
    requires Encodes(image, f) && i < |f.sections| && IsTable(f.sections[i]) && j < |f.symbols[i]| && NoNul(name)
    ensures HeadersOk(image) && SectionsOk(image) && i < |Sections(image)|
    ensures SymtabOk(image, Sections(image), Sections(image)[i]) && j < SymCount(Sections(image)[i])
    ensures Matches(image, Sections(image), Sections(image)[i], j, name) <==> Named(image, f, i, j, name)
  {
    TableSeen(image, f, i);
    SectionsSeen(image, f);
    assert TableStands(image, f, i);
    var shs, s := Sections(image), f.sections[i];
    var str := f.sections[s.link];
    MatchIs(image, shs, shs[i], j, LoaderShdr(str), LoaderSym(f.symbols[i][j]), name);
  }

  /** The lookup finds the first record of the name. */
  lemma {:induction false} FirstIsDefined(image: Bytes, f: File, i: nat, j: nat, name: Bytes)
    requires Encodes(image, f) && FirstNamed(image, f, i, j, name) && NoNul(name)
    ensures HeadersOk(image) && SectionsOk(image)
    ensures Defines(image, Sections(image), name, f.symbols[i][j].value, f.symbols[i][j].size)
  {
    SectionsSeen(image, f);
    TableSeen(image, f, i);
    NamedSeen(image, f, i, j, name);
    var shs := Sections(image);
    forall p | 0 <= p < i && IsSymtab(shs[p]) ensures SymtabOk(image, shs, shs[p]) && NoMatch(image, shs, shs[p], SymCount(shs[p]), name) {
      assert shs[p] == LoaderShdr(f.sections[p]);
      TableSeen(image, f, p);
      forall q | 0 <= q < SymCount(shs[p]) ensures !Matches(image, shs, shs[p], q, name) { NamedSeen(image, f, p, q, name); }
    }
    forall q | 0 <= q < j ensures !Matches(image, shs, shs[i], q, name) { NamedSeen(image, f, i, q, name); }
    assert IsFirst(image, shs, i, j, name);
  }

  // ----- the whole load -----

  /** The bytes of the names that the firmware defines. */
  const REQUEST_NAME: Bytes := Ascii("coralnpu_dispatch_request")
  const HEAP_START_NAME: Bytes := Ascii("__heap_start")
  const HEAP_END_NAME: Bytes := Ascii("__heap_end")

  /** The three symbols of the firmware, by their places. */
  datatype Places = Places(requestTable: nat, request: nat, startTable: nat, start: nat, endTable: nat, end: nat)

  ghost predicate Firmware(image: Bytes, f: File, p: Places) {
    && Encodes(image, f) && FirstNamed(image, f, p.requestTable, p.request, REQUEST_NAME)
    && FirstNamed(image, f, p.startTable, p.start, HEAP_START_NAME) && FirstNamed(image, f, p.endTable, p.end, HEAP_END_NAME)
  }

  function RequestSymbol(f: File, p: Places): Symbol
    requires p.requestTable < |f.symbols| && p.request < |f.symbols[p.requestTable]|
  {
    f.symbols[p.requestTable][p.request]
  }

  /** ITCM, DTCM and DDR. */
  predicate InMemory(address: nat, length: nat) {
    || address + length <= 0x8000
    || (0x1_0000 <= address && address + length <= 0x1_8000)
    || (0x8000_0000 <= address && address + length <= 0x1_0000_0000)
  }

  /** A PT_LOAD segment that can be loaded. */
  predicate SegmentFits(s: ProgramHeader, fileSize: nat) {
    s.ptype == 1 ==> s.filesz <= s.memsz && s.offset + s.filesz <= fileSize && (s.memsz == 0 || InMemory(s.paddr, s.memsz))
  }

  predicate HoldsEntry(s: ProgramHeader, entry: nat) {
    s.ptype == 1 && s.flags % 2 == 1 && s.paddr <= entry < s.paddr + s.memsz
  }

  ghost predicate SegmentsFit(f: File, fileSize: nat) {
    && (forall i :: 0 <= i < |f.segments| ==> SegmentFits(f.segments[i], fileSize))
    && (exists i :: 0 <= i < |f.segments| && HoldsEntry(f.segments[i], f.header.entry))
  }

  predicate InDtcmRange(address: nat, length: nat) {
    0x1_0000 <= address && address + length <= 0x1_8000
  }

  /** Request and heap lie in DTCM. */
  predicate LayoutFitsDtcm(l: Layout) {
    InDtcmRange(l.requestAddr, l.requestSize) && l.heapStart <= l.heapEnd && InDtcmRange(l.heapStart, l.heapEnd - l.heapStart)
  }

  /** The layout with the fields of the file's records. */
  function FileLayout(f: File, p: Places): Layout
    requires p.requestTable < |f.symbols| && p.request < |f.symbols[p.requestTable]|
    requires p.startTable < |f.symbols| && p.start < |f.symbols[p.startTable]|
    requires p.endTable < |f.symbols| && p.end < |f.symbols[p.endTable]|
  {
    var request := f.symbols[p.requestTable][p.request];
    Layout(f.header.entry, request.value, request.size, f.symbols[p.startTable][p.start].value, f.symbols[p.endTable][p.end].value)
  }

  lemma AsciiHasNoNul(s: string)
    requires forall k :: 0 <= k < |s| ==> 'A' <= s[k] <= 'z'
    ensures NoNul(Ascii(s))
  {
  }

  lemma NamesHaveNoNul()
    ensures NoNul(REQUEST_NAME) && NoNul(HEAP_START_NAME) && NoNul(HEAP_END_NAME)
    ensures FIRMWARE_NAMES == Names(REQUEST_NAME, HEAP_START_NAME, HEAP_END_NAME)
  {
    AsciiHasNoNul("coralnpu_dispatch_request");
    AsciiHasNoNul("__heap_start");
    AsciiHasNoNul("__heap_end");
  }

  /** The symbols that the loader finds are those of the records. */
  lemma {:induction false} SymbolsFound(image: Bytes, f: File, p: Places)
    requires Firmware(image, f, p)
    ensures HeadersOk(image) && SectionsOk(image) && SymbolsOk(image, Sections(image), FIRMWARE_NAMES, FileLayout(f, p))
  {
    NamesHaveNoNul();
    FirstIsDefined(image, f, p.requestTable, p.request, REQUEST_NAME);
    FirstIsDefined(image, f, p.startTable, p.start, HEAP_START_NAME);
    FirstIsDefined(image, f, p.endTable, p.end, HEAP_END_NAME);
  }

  /** A load succeeds exactly when every PT_LOAD is good. */
  lemma {:induction false} LoadedExact(image: Bytes, entry: u32, phs: seq<Phdr>, n: nat, mem: Memory)
    requires n <= |phs|
    ensures LoadHeaders(image, entry, phs, n, mem).status == Ok <==>
              forall i :: 0 <= i < n && phs[i].ptype == PT_LOAD ==> SegmentStatus(image, phs[i]) == Ok
  {
    if n > 0 { LoadedExact(image, entry, phs, n - 1, mem); }
  }

  lemma {:induction false} SegmentsLoad(image: Bytes, f: File, mem: Memory)
    requires Encodes(image, f)
    ensures HeadersOk(image)
    ensures var r := LoadHeaders(image, Entry(image), Headers(image), PhNum(image), mem);
            SegmentsFit(f, |image|) <==> r.status == Ok && r.entryOk
  {
    HeaderSeen(image, f);
    SegmentsSeen(image, f);
    var phs := Headers(image);
    LoadedExact(image, Entry(image), phs, |phs|, mem);
    forall i | 0 <= i < |phs|
      ensures SegmentFits(f.segments[i], |image|) <==> (phs[i].ptype == PT_LOAD ==> SegmentStatus(image, phs[i]) == Ok)
      ensures HoldsEntry(f.segments[i], f.header.entry) <==> EntryIn(Entry(image), phs[i])
    {
    }
    if LoadHeaders(image, Entry(image), phs, |phs|, mem).status == Ok { EntryExact(image, Entry(image), phs, |phs|, mem); }
  }

  /** Segment `i` is the last PT_LOAD over address `a`. */
  ghost predicate LastOver(f: File, i: nat, a: nat) {
    && i < |f.segments| && Over(f.segments[i], a)
    && forall j :: i < j < |f.segments| ==> !Over(f.segments[j], a)
  }

  ghost predicate NoneOver(f: File, a: nat) {
    forall j :: 0 <= j < |f.segments| ==> !Over(f.segments[j], a)
  }

  predicate Over(s: ProgramHeader, a: nat) {
    s.ptype == 1 && s.paddr <= a < s.paddr + s.memsz
  }

  /** The byte that a segment puts at `a`: from the file, then zero. */
  function SegmentByteAt(image: Bytes, s: ProgramHeader, a: nat): byte
    requires s.paddr <= a && s.offset + s.filesz <= |image|
  {
    if a - s.paddr < s.filesz then image[s.offset + (a - s.paddr)] else 0
  }

  lemma LastIs(f: File, phs: seq<Phdr>, i: nat, a: nat)
    requires |phs| == |f.segments| && forall j :: 0 <= j < |phs| ==> phs[j] == LoaderPhdr(f.segments[j])
    ensures LastOver(f, i, a) <==> IsLast(phs, |phs|, i, a)
    ensures NoneOver(f, a) <==> NoneCovers(phs, |phs|, a)
  {
    assert forall j :: 0 <= j < |phs| ==> (Covers(phs[j], a) <==> Over(f.segments[j], a));
  }

  /** What the loader leaves at one address. */
  lemma {:induction false} ByteLoaded(image: Bytes, f: File, phs: seq<Phdr>, entry: u32, mem: Memory, a: nat, i: nat)
    requires |phs| == |f.segments| && forall j :: 0 <= j < |phs| ==> phs[j] == LoaderPhdr(f.segments[j])
    requires LoadHeaders(image, entry, phs, |phs|, mem).status == Ok && a < SPACE
    requires forall j :: 0 <= j < |f.segments| ==> SegmentFits(f.segments[j], |image|)
    ensures var r := LoadHeaders(image, entry, phs, |phs|, mem);
            && (LastOver(f, i, a) ==> SegmentFits(f.segments[i], |image|) && r.mem[a] == SegmentByteAt(image, f.segments[i], a))
            && (NoneOver(f, a) ==> r.mem[a] == mem[a])
  {
    LoadedByte(image, entry, phs, |phs|, mem, a, i);
    LastIs(f, phs, i, a);
  }

  /** Memory after the load of the file. */
  ghost predicate FileLoaded(image: Bytes, f: File, before: Memory, after: Memory) {
    forall a :: 0 <= a < SPACE ==> ByteOf(image, f, before, after, a)
  }

  ghost predicate ByteOf(image: Bytes, f: File, before: Memory, after: Memory, a: nat)
    requires a < SPACE
  {
    && (forall i: nat :: LastOver(f, i, a) ==> SegmentGives(image, f.segments[i], after, a))
    && (NoneOver(f, a) ==> after[a] == before[a])
  }

  predicate SegmentGives(image: Bytes, s: ProgramHeader, after: Memory, a: nat)
    requires a < SPACE && s.paddr <= a
  {
    s.offset + s.filesz <= |image| && after[a] == SegmentByteAt(image, s, a)
  }

  lemma {:induction false} FileIsLoaded(image: Bytes, f: File, mem: Memory)
    requires Encodes(image, f) && SegmentsFit(f, |image|)
    ensures HeadersOk(image)
    ensures FileLoaded(image, f, mem, LoadHeaders(image, Entry(image), Headers(image), PhNum(image), mem).mem)
  {
    HeaderSeen(image, f);
    SegmentsSeen(image, f);
    SegmentsLoad(image, f, mem);
    var phs := Headers(image);
    var after := LoadHeaders(image, Entry(image), phs, |phs|, mem).mem;
    forall a | 0 <= a < SPACE ensures ByteOf(image, f, mem, after, a) {
      forall i: nat | LastOver(f, i, a) ensures SegmentGives(image, f.segments[i], after, a) {
        ByteLoaded(image, f, phs, Entry(image), mem, a, i);
      }
      ByteLoaded(image, f, phs, Entry(image), mem, a, 0);
    }
  }

  /** What the load comes to, from the records alone. */
  lemma {:induction false} LoadDecided(image: Bytes, f: File, p: Places, mem: Memory)
    requires Firmware(image, f, p)
    ensures Loadable(image, mem) <==> SegmentsFit(f, |image|) && LayoutFitsDtcm(FileLayout(f, p))
    ensures forall l :: LayoutOk(image, l) ==> l == FileLayout(f, p)
    ensures !SegmentsFit(f, |image|) ==> LoadStatus(image, mem) in {InvalidArgument, OutOfRange}
    ensures SegmentsFit(f, |image|) && !LayoutFitsDtcm(FileLayout(f, p)) ==> LoadStatus(image, mem) == OutOfRange
  {
    SegmentsLoad(image, f, mem);
    SymbolsFound(image, f, p);
    HeaderSeen(image, f);
    var layout := FileLayout(f, p);
    LayoutDecided(image, layout);
    assert LayoutFitsDtcm(layout) <==> InDtcmLayout(layout);
    forall l | LayoutOk(image, l) ensures l == layout {
      SymbolsUnique(image, Sections(image), FIRMWARE_NAMES, l, layout);
    }
    SymbolsAllFound(image, layout);
    HeadersStatus(image, Entry(image), Headers(image), PhNum(image), mem);
  }

  lemma {:induction false} HeadersStatus(image: Bytes, entry: u32, phs: seq<Phdr>, n: nat, mem: Memory)
    requires n <= |phs|
    ensures LoadHeaders(image, entry, phs, n, mem).status in {Ok, InvalidArgument, OutOfRange}
  {
    if n > 0 { HeadersStatus(image, entry, phs, n - 1, mem); }
  }

  lemma SymbolsAllFound(image: Bytes, layout: Layout)
    requires HeadersOk(image) && SectionsOk(image) && SymbolsOk(image, Sections(image), FIRMWARE_NAMES, layout)
    ensures SymbolsStatus(image, FIRMWARE_NAMES) == Ok
  {
  }

  /** An encoded firmware file: the load succeeds exactly when all PT_LOAD segments fit, one of them is
      executable and holds the entry, and request and heap lie in DTCM; the layout then has the
      values and the size of the three symbol records, and memory the bytes of the segments. */
  method LoadFile(sim: Simulator, image: Bytes, ghost f: File, ghost p: Places) returns (status: Status, layout: Layout)
    requires Firmware(image, f, p)
    modifies sim
    ensures status in {Ok, InvalidArgument, OutOfRange}
    ensures status == Ok <==> SegmentsFit(f, |image|) && LayoutFitsDtcm(FileLayout(f, p))
    ensures status == Ok ==> layout == FileLayout(f, p) && FileLoaded(image, f, old(sim.mem), sim.mem)
    ensures SegmentsFit(f, |image|) && status != Ok ==> status == OutOfRange
  {
    LoadDecided(image, f, p, sim.mem);
    if SegmentsFit(f, |image|) { FileIsLoaded(image, f, sim.mem); }
    status, layout := LoadElfWithLayout(sim, image);
  }
}
