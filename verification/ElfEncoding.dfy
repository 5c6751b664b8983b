/** The records of an ELF32 file as the System V ABI lays them out (chapters "ELF Header",
    "Sections", "Symbol Table" and "Program Header"): consecutive little-endian fields of given
    widths.  The loader reads each field where it stands. */
module ElfEncoding {
  import opened SimMemory
  import opened DispatchMemory
  import opened FieldEncoding
  import opened ElfLoader
  import opened ElfSymbols

  datatype FileHeader = FileHeader(ident: Bytes, etype: u16, machine: u16, version: u32, entry: u32, phoff: u32, shoff: u32,
                                   flags: u32, ehsize: u16, phentsize: u16, phnum: u16, shentsize: u16, shnum: u16,
                                   shstrndx: u16)

  datatype ProgramHeader = ProgramHeader(ptype: u32, offset: u32, vaddr: u32, paddr: u32, filesz: u32, memsz: u32, flags: u32,
                                         align: u32)

  datatype SectionHeader = SectionHeader(name: u32, stype: u32, flags: u32, addr: u32, offset: u32, size: u32, link: u32,
                                         info: u32, addralign: u32, entsize: u32)

  datatype Symbol = Symbol(name: u32, value: u32, size: u32, info: byte, other: byte, shndx: u16)

  // ----- the encoder -----

  function FileHeaderFields(h: FileHeader): seq<Field> {
    [Field(2, h.etype), Field(2, h.machine), Field(4, h.version), Field(4, h.entry), Field(4, h.phoff), Field(4, h.shoff),
     Field(4, h.flags), Field(2, h.ehsize), Field(2, h.phentsize), Field(2, h.phnum), Field(2, h.shentsize), Field(2, h.shnum),
     Field(2, h.shstrndx)]
  }

  /** Sixteen bytes of identification, then the fields. */
  function FileHeaderBytes(h: FileHeader): Bytes {
    h.ident + Encode(FileHeaderFields(h))
  }

  function ProgramHeaderFields(p: ProgramHeader): seq<Field> {
    [Field(4, p.ptype), Field(4, p.offset), Field(4, p.vaddr), Field(4, p.paddr), Field(4, p.filesz), Field(4, p.memsz),
     Field(4, p.flags), Field(4, p.align)]
  }

  function SectionHeaderFields(s: SectionHeader): seq<Field> {
    [Field(4, s.name), Field(4, s.stype), Field(4, s.flags), Field(4, s.addr), Field(4, s.offset), Field(4, s.size),
     Field(4, s.link), Field(4, s.info), Field(4, s.addralign), Field(4, s.entsize)]
  }

  function SymbolFields(s: Symbol): seq<Field> {
    [Field(4, s.name), Field(4, s.value), Field(4, s.size), Field(1, s.info), Field(1, s.other), Field(2, s.shndx)]
  }

  // ----- reading a field back -----

  lemma HoldsPart(m: Bytes, at: nat, data: Bytes, from: nat, to: nat)
    requires Holds(m, at, data) && from <= to <= |data|
    ensures at + to <= |m| && m[at + from..at + to] == data[from..to]
  {
  }

  lemma HoldsTail(m: Bytes, at: nat, front: Bytes, back: Bytes)
    requires Holds(m, at, front + back)
    ensures Holds(m, at + |front|, back)
  {
    forall k | 0 <= k < |back| ensures m[at + |front| + k] == back[k] {
      assert (front + back)[|front| + k] == back[k];
    }
  }

  /** The 32-bit field `k`, which begins at `offset`, of a record at `at`. */
  lemma {:induction false} ReadWord(m: Bytes, at: nat, fs: seq<Field>, k: nat, offset: nat)
    requires Holds(m, at, Encode(fs)) && k < |fs| && fs[k].width == 4 && fs[k].value < SPACE && Offset(fs, k) == offset
    ensures at + offset + 4 <= |m| && U32At(m, at + offset) == fs[k].value
  {
    FieldStands(fs, k);
    HoldsPart(m, at, Encode(fs), offset, offset + 4);
    WordOfBytes(fs[k].value);
  }

  lemma {:induction false} ReadHalf(m: Bytes, at: nat, fs: seq<Field>, k: nat, offset: nat)
    requires Holds(m, at, Encode(fs)) && k < |fs| && fs[k].width == 2 && fs[k].value < 0x1_0000 && Offset(fs, k) == offset
    ensures at + offset + 2 <= |m| && U16At(m, at + offset) == fs[k].value
  {
    FieldStands(fs, k);
    HoldsPart(m, at, Encode(fs), offset, offset + 2);
    HalfOfBytes(fs[k].value);
  }

  /** Fields of 4 bytes stand at multiples of 4. */
  lemma {:induction false} WordOffsets(fs: seq<Field>, k: nat)
    requires k <= |fs| && forall i :: 0 <= i < k ==> fs[i].width == 4
    ensures Offset(fs, k) == 4 * k
  {
    if k > 0 { WordOffsets(fs[1..], k - 1); }
  }

  // ----- the records -----

  /** What the loader needs of a program header. */
  function LoaderPhdr(p: ProgramHeader): Phdr {
    Phdr(p.ptype, p.offset, p.paddr, p.filesz, p.memsz, p.flags)
  }

  function LoaderShdr(s: SectionHeader): Shdr {
    Shdr(s.stype, s.offset, s.size, s.link, s.entsize)
  }

  function LoaderSym(s: Symbol): Sym {
    Sym(s.name, s.value, s.size, s.shndx)
  }

  /** Word `k` of a record that consists of words. */
  lemma {:induction false} ReadPlainWord(m: Bytes, at: nat, fs: seq<Field>, k: nat)
    requires Holds(m, at, Encode(fs)) && k < |fs| && fs[k].value < SPACE && forall i :: 0 <= i <= k ==> fs[i].width == 4
    ensures at + 4 * k + 4 <= |m| && U32At(m, at + 4 * k) == fs[k].value
  {
    WordOffsets(fs, k);
    ReadWord(m, at, fs, k, 4 * k);
  }

  /** Header `i` of the table is read as the program header that stands there. */
  lemma {:induction false} HeaderRead(image: Bytes, i: nat, p: ProgramHeader)
    requires HeadersOk(image) && i < PhNum(image)
    requires Holds(image, PhOff(image) + i * PHDR_SIZE, Encode(ProgramHeaderFields(p)))
    ensures HeaderAt(image, i) == LoaderPhdr(p)
  {
    var at, fs := PhOff(image) + i * PHDR_SIZE, ProgramHeaderFields(p);
    ReadPlainWord(image, at, fs, 0);
    ReadPlainWord(image, at, fs, 1);
    ReadPlainWord(image, at, fs, 3);
    ReadPlainWord(image, at, fs, 4);
    ReadPlainWord(image, at, fs, 5);
    ReadPlainWord(image, at, fs, 6);
  }

  lemma {:induction false} SectionRead(image: Bytes, i: nat, s: SectionHeader)
    requires IsElf32(image) && SectionsOk(image) && i < ShNum(image)
    requires Holds(image, ShOff(image) + i * SHDR_SIZE, Encode(SectionHeaderFields(s)))
    ensures SectionAt(image, i) == LoaderShdr(s)
  {
    var at, fs := ShOff(image) + i * SHDR_SIZE, SectionHeaderFields(s);
    ReadPlainWord(image, at, fs, 1);
    ReadPlainWord(image, at, fs, 4);
    ReadPlainWord(image, at, fs, 5);
    ReadPlainWord(image, at, fs, 6);
    ReadPlainWord(image, at, fs, 9);
  }

  lemma SymbolOffset(s: Symbol)
    ensures Offset(SymbolFields(s), 5) == 14
  {
    var fs := SymbolFields(s);
    assert fs[1..][1..][1..] == fs[3..] && fs[3..][1..] == fs[4..] && fs[4..][1..] == fs[5..];
    assert Offset(fs[5..], 0) == 0 && Offset(fs[4..], 1) == 1 && Offset(fs[3..], 2) == 2;
    assert Offset(fs[1..][1..], 3) == 6 && Offset(fs[1..], 4) == 10;
  }

  lemma {:induction false} SymbolRead(image: Bytes, sh: Shdr, j: nat, s: Symbol)
    requires sh.offset + sh.size <= |image| && j < SymCount(sh)
    requires Holds(image, sh.offset + j * SYM_SIZE, Encode(SymbolFields(s)))
    ensures SymAt(image, sh, j) == LoaderSym(s)
  {
    var at, fs := sh.offset + j * SYM_SIZE, SymbolFields(s);
    ReadPlainWord(image, at, fs, 0);
    ReadPlainWord(image, at, fs, 1);
    ReadPlainWord(image, at, fs, 2);
    SymbolOffset(s);
    ReadHalf(image, at, fs, 5, 14);
  }

  /** Where the fields of the file header stand, after the identification. */
  lemma FileHeaderOffsets(h: FileHeader)
    ensures var fs := FileHeaderFields(h);
            && Offset(fs, 1) == 2 && Offset(fs, 3) == 8 && Offset(fs, 4) == 12 && Offset(fs, 5) == 16
            && Offset(fs, 8) == 26 && Offset(fs, 9) == 28 && Offset(fs, 10) == 30 && Offset(fs, 11) == 32
  {
    var fs := FileHeaderFields(h);
    OffsetNext(fs, 0); OffsetNext(fs, 1); OffsetNext(fs, 2); OffsetNext(fs, 3); OffsetNext(fs, 4); OffsetNext(fs, 5);
    OffsetNext(fs, 6); OffsetNext(fs, 7); OffsetNext(fs, 8); OffsetNext(fs, 9); OffsetNext(fs, 10);
  }

  lemma {:induction false} OffsetNext(fs: seq<Field>, k: nat)
    requires k < |fs|
    ensures Offset(fs, k + 1) == Offset(fs, k) + fs[k].width
  {
    if k > 0 { OffsetNext(fs[1..], k - 1); }
  }

  lemma {:induction false} FileHeaderHalves(image: Bytes, h: FileHeader)
    requires Holds(image, 16, Encode(FileHeaderFields(h)))
    ensures |image| >= EHDR_SIZE && U16At(image, 18) == h.machine && U16At(image, 42) == h.phentsize
    ensures U16At(image, 46) == h.shentsize && U16At(image, 44) == h.phnum && U16At(image, 48) == h.shnum
  {
    var fs := FileHeaderFields(h);
    FileHeaderOffsets(h);
    OffsetNext(fs, 11);
    OffsetNext(fs, 12);
    FieldStands(fs, 12);
    HoldsPart(image, 16, Encode(fs), 34, 36);
    ReadHalf(image, 16, fs, 1, 2);
    ReadHalf(image, 16, fs, 8, 26);
    ReadHalf(image, 16, fs, 9, 28);
    ReadHalf(image, 16, fs, 10, 30);
    ReadHalf(image, 16, fs, 11, 32);
  }

  lemma {:induction false} FileHeaderWords(image: Bytes, h: FileHeader)
    requires Holds(image, 16, Encode(FileHeaderFields(h))) && |image| >= EHDR_SIZE
    ensures U32At(image, 24) == h.entry && U32At(image, 28) == h.phoff && U32At(image, 32) == h.shoff
  {
    var fs := FileHeaderFields(h);
    FileHeaderOffsets(h);
    ReadWord(image, 16, fs, 3, 8);
    ReadWord(image, 16, fs, 4, 12);
    ReadWord(image, 16, fs, 5, 16);
  }

  /** The file begins with the header; the reader finds every field. */
  lemma {:induction false} FileHeaderRead(image: Bytes, h: FileHeader)
    requires |h.ident| == 16 && Holds(image, 0, FileHeaderBytes(h))
    ensures |image| >= EHDR_SIZE && (IsElf32(image) <==> h.ident[..6] == [0x7F, 0x45, 0x4C, 0x46, 1, 1])
    ensures U16At(image, 18) == h.machine && U16At(image, 42) == h.phentsize && U16At(image, 46) == h.shentsize
    ensures U32At(image, 24) == h.entry && U32At(image, 28) == h.phoff && U32At(image, 32) == h.shoff
    ensures U16At(image, 44) == h.phnum && U16At(image, 48) == h.shnum
  {
    HoldsTail(image, 0, h.ident, Encode(FileHeaderFields(h)));
    FileHeaderHalves(image, h);
    FileHeaderWords(image, h);
    HoldsPart(image, 0, FileHeaderBytes(h), 0, 6);
    assert FileHeaderBytes(h)[0..6] == h.ident[..6];
  }
}
