/** `find_symbol` and the checks that follow loading in simulator_elf_loader.c. */
module ElfSymbols {
  import opened SimMemory
  import opened ElfLoader

  datatype Shdr = Shdr(stype: u32, offset: u32, size: u32, link: u32, entsize: u32)

  datatype Sym = Sym(name: u32, value: u32, size: u32, shndx: nat)

  predicate SectionsOk(image: Bytes)
    requires IsElf32(image)
  {
    U16At(image, 46) == SHDR_SIZE && ShOff(image) + ShNum(image) * SHDR_SIZE <= |image|
  }

  function SectionAt(image: Bytes, i: nat): Shdr
    requires IsElf32(image) && SectionsOk(image) && i < ShNum(image)
  {
    var at := ShOff(image) + i * SHDR_SIZE;
    Shdr(U32At(image, at + 4), U32At(image, at + 16), U32At(image, at + 20), U32At(image, at + 24), U32At(image, at + 36))
  }

  function Sections(image: Bytes): seq<Shdr>
    requires IsElf32(image) && SectionsOk(image)
  {
    seq(ShNum(image), i requires 0 <= i < ShNum(image) => SectionAt(image, i))
  }

  predicate IsSymtab(sh: Shdr) {
    sh.stype == SHT_SYMTAB
  }

  /** Entry size, string table link and both tables' bounds. */
  predicate SymtabOk(image: Bytes, shs: seq<Shdr>, sh: Shdr) {
    && sh.entsize == SYM_SIZE && sh.link < |shs|
    && sh.offset + sh.size <= |image| && shs[sh.link].offset + shs[sh.link].size <= |image|
  }

  function SymCount(sh: Shdr): nat {
    sh.size / SYM_SIZE
  }

  function SymAt(image: Bytes, sh: Shdr, j: nat): Sym
    requires sh.offset + sh.size <= |image| && j < SymCount(sh)
  {
    var at := sh.offset + j * SYM_SIZE;
    Sym(U32At(image, at), U32At(image, at + 4), U32At(image, at + 8), U16At(image, at + 14))
  }

  // ----- C strings -----

  /** Position of the first NUL at or after `i`, or the length. */
  function FirstNul(s: Bytes, i: nat): (r: nat)
    requires i <= |s|
    ensures i <= r <= |s| && (r < |s| ==> s[r] == 0)
    ensures forall k :: i <= k < r ==> s[k] != 0
    decreases |s| - i
  {
    if i == |s| || s[i] == 0 then i else FirstNul(s, i + 1)
  }

  /** `memchr` finds a terminator and `strcmp` finds no difference. */
  function StringEquals(table: Bytes, off: nat, expected: Bytes): bool {
    off < |table| && FirstNul(table, off) < |table| && table[off..FirstNul(table, off)] == expected
  }

  /** For a name without NUL: the name and its terminator stand at the offset, inside the table. */
  lemma StringEqualsExact(table: Bytes, off: nat, expected: Bytes)
    requires forall k :: 0 <= k < |expected| ==> expected[k] != 0
    ensures StringEquals(table, off, expected) <==>
            off + |expected| < |table| && table[off..off + |expected|] == expected && table[off + |expected|] == 0
  {
  }

  // ----- symbols -----

  /** Symbol `j` of table `sh` is defined and has the name. */
  predicate Matches(image: Bytes, shs: seq<Shdr>, sh: Shdr, j: nat, name: Bytes)
    requires SymtabOk(image, shs, sh) && j < SymCount(sh)
  {
    var str := shs[sh.link];
    var sym := SymAt(image, sh, j);
    sym.shndx != SHN_UNDEF && StringEquals(image[str.offset..str.offset + str.size], sym.name, name)
  }

  ghost predicate NoMatch(image: Bytes, shs: seq<Shdr>, sh: Shdr, n: nat, name: Bytes)
    requires SymtabOk(image, shs, sh) && n <= SymCount(sh)
  {
    forall j :: 0 <= j < n ==> !Matches(image, shs, sh, j, name)
  }

  /** The first `n` sections hold only good symbol tables, none with the name. */
  ghost predicate Passed(image: Bytes, shs: seq<Shdr>, n: nat, name: Bytes)
    requires n <= |shs|
  {
    forall i :: 0 <= i < n && IsSymtab(shs[i]) ==>
      SymtabOk(image, shs, shs[i]) && NoMatch(image, shs, shs[i], SymCount(shs[i]), name)
  }

  /** Symbol `j` of section `i` is the first with the name. */
  ghost predicate IsFirst(image: Bytes, shs: seq<Shdr>, i: nat, j: nat, name: Bytes) {
    && i < |shs| && Passed(image, shs, i, name) && IsSymtab(shs[i]) && SymtabOk(image, shs, shs[i])
    && j < SymCount(shs[i]) && NoMatch(image, shs, shs[i], j, name) && Matches(image, shs, shs[i], j, name)
  }

  ghost predicate FirstBad(image: Bytes, shs: seq<Shdr>, i: nat, name: Bytes) {
    i < |shs| && Passed(image, shs, i, name) && IsSymtab(shs[i]) && !SymtabOk(image, shs, shs[i])
  }

  /** The value and size of the first symbol with the name. */
  ghost predicate Defines(image: Bytes, shs: seq<Shdr>, name: Bytes, address: u32, size: u32) {
    exists i: nat, j: nat ::
      IsFirst(image, shs, i, j, name) && SymAt(image, shs[i], j).value == address && SymAt(image, shs[i], j).size == size
  }

  /** With no match anywhere, or a malformed table before any match, the name is not defined. */
  lemma NotDefined(image: Bytes, shs: seq<Shdr>, name: Bytes, address: u32, size: u32)
    requires Passed(image, shs, |shs|, name) || exists i: nat :: FirstBad(image, shs, i, name)
    ensures !Defines(image, shs, name, address, size)
  {
  }

  /** The status of a lookup: a bad section table, the first match, the first malformed table before
      any match, or nothing. */
  ghost function LookupStatus(image: Bytes, name: Bytes): Status
    requires IsElf32(image)
  {
    if !SectionsOk(image) then InvalidArgument
    else if exists a: u32, s: u32 :: Defines(image, Sections(image), name, a, s) then Ok
    else if exists i: nat :: FirstBad(image, Sections(image), i, name) then InvalidArgument
    else NotFound
  }

  lemma MatchesAt(image: Bytes, shs: seq<Shdr>, sh: Shdr, j: nat, name: Bytes, table: Bytes, sym: Sym)
    requires SymtabOk(image, shs, sh) && j < SymCount(sh) && sym == SymAt(image, sh, j)
    requires table == image[shs[sh.link].offset..shs[sh.link].offset + shs[sh.link].size]
    ensures Matches(image, shs, sh, j, name) <==> sym.shndx != SHN_UNDEF && StringEquals(table, sym.name, name)
  {
  }

  method FindInTable(image: Bytes, shs: seq<Shdr>, sh: Shdr, name: Bytes) returns (found: bool, at: nat)
    requires SymtabOk(image, shs, sh)
    ensures if found then at < SymCount(sh) && Matches(image, shs, sh, at, name) && NoMatch(image, shs, sh, at, name)
            else NoMatch(image, shs, sh, SymCount(sh), name)
  {
    var str := shs[sh.link];
    var table := image[str.offset..str.offset + str.size];
    for j := 0 to SymCount(sh)
      invariant NoMatch(image, shs, sh, j, name)
    {
      var sym := SymAt(image, sh, j);
      MatchesAt(image, shs, sh, j, name, table, sym);
      if sym.shndx == SHN_UNDEF {
        continue;
      }
      if !StringEquals(table, sym.name, name) {
        continue;
      }
      return true, j;
    }
    return false, 0;
  }

  /** The lookup never reads outside the image and returns the first symbol, in section order
      and then table order; a malformed table before it is an error. */
  method FindSymbol(image: Bytes, name: Bytes) returns (status: Status, address: u32, size: u32)
    requires IsElf32(image)
    ensures status in {Ok, InvalidArgument, NotFound}
    ensures !SectionsOk(image) ==> status == InvalidArgument
    ensures status == Ok ==> SectionsOk(image) && Defines(image, Sections(image), name, address, size)
    ensures status == NotFound ==> SectionsOk(image) && Passed(image, Sections(image), |Sections(image)|, name)
    ensures status == InvalidArgument && SectionsOk(image) ==> exists i: nat :: FirstBad(image, Sections(image), i, name)
    ensures status != Ok && SectionsOk(image) ==> forall a: u32, s: u32 :: !Defines(image, Sections(image), name, a, s)
    ensures status == LookupStatus(image, name)
  {
    if U16At(image, 46) != SHDR_SIZE {
      return InvalidArgument, 0, 0;
    }
    if ShOff(image) + ShNum(image) * SHDR_SIZE > |image| {
      return InvalidArgument, 0, 0;
    }
    status, address, size := FindInSections(image, Sections(image), name);
    if status != Ok {
      forall a: u32, s: u32 ensures !Defines(image, Sections(image), name, a, s) {
        NotDefined(image, Sections(image), name, a, s);
      }
      NotBoth(image, Sections(image), name);
    }
  }

  /** A malformed table cannot be reached and passed. */
  lemma NotBoth(image: Bytes, shs: seq<Shdr>, name: Bytes)
    ensures Passed(image, shs, |shs|, name) ==> forall i: nat :: !FirstBad(image, shs, i, name)
  {
  }

  method FindInSections(image: Bytes, shs: seq<Shdr>, name: Bytes) returns (status: Status, address: u32, size: u32)
    ensures status in {Ok, InvalidArgument, NotFound}
    ensures status == Ok ==> Defines(image, shs, name, address, size)
    ensures status == NotFound ==> Passed(image, shs, |shs|, name)
    ensures status == InvalidArgument ==> exists i: nat :: FirstBad(image, shs, i, name)
  {
    for i := 0 to |shs|
      invariant Passed(image, shs, i, name)
    {
      var sh := shs[i];
      if !IsSymtab(sh) {
        continue;
      }
      if !SymtabOk(image, shs, sh) {
        assert FirstBad(image, shs, i, name);
        return InvalidArgument, 0, 0;
      }
      var found, j := FindInTable(image, shs, sh, name);
      if found {
        assert IsFirst(image, shs, i, j, name);
        return Ok, SymAt(image, sh, j).value, SymAt(image, sh, j).size;
      }
    }
    return NotFound, 0, 0;
  }

  /** A name has at most one definition, so the result of a successful lookup is determined. */
  lemma DefinesUnique(image: Bytes, shs: seq<Shdr>, name: Bytes, a: u32, s: u32, a': u32, s': u32)
    requires Defines(image, shs, name, a, s) && Defines(image, shs, name, a', s')
    ensures a == a' && s == s'
  {
  }

  // ----- the whole load -----

  function Ascii(s: string): Bytes {
    seq(|s|, i requires 0 <= i < |s| => (s[i] as int) % 256)
  }

  datatype Names = Names(request: Bytes, heapStart: Bytes, heapEnd: Bytes)

  const FIRMWARE_NAMES := Names(Ascii("coralnpu_dispatch_request"), Ascii("__heap_start"), Ascii("__heap_end"))

  datatype Layout = Layout(startPc: u32, requestAddr: u32, requestSize: u32, heapStart: u32, heapEnd: u32)

  predicate InDtcm(address: nat, length: nat) {
    DTCM_START <= address && address + length <= DTCM_START + DTCM_SIZE
  }

  /** The layout takes its addresses from the three symbols. */
  ghost predicate SymbolsOk(image: Bytes, shs: seq<Shdr>, names: Names, l: Layout) {
    && Defines(image, shs, names.request, l.requestAddr, l.requestSize)
    && HasValue(image, shs, names.heapStart, l.heapStart) && HasValue(image, shs, names.heapEnd, l.heapEnd)
  }

  ghost predicate HasValue(image: Bytes, shs: seq<Shdr>, name: Bytes, address: u32) {
    exists size: u32 :: Defines(image, shs, name, address, size)
  }

  predicate InDtcmLayout(l: Layout) {
    InDtcm(l.requestAddr, l.requestSize) && l.heapStart <= l.heapEnd && InDtcm(l.heapStart, l.heapEnd - l.heapStart)
  }

  /** What a successful load establishes about the image and the layout. */
  ghost predicate LayoutOk(image: Bytes, l: Layout) {
    HeadersOk(image) && SectionsOk(image) && l.startPc == Entry(image) &&
    SymbolsOk(image, Sections(image), FIRMWARE_NAMES, l) && InDtcmLayout(l)
  }

  /** The symbols determine the layout. */
  lemma SymbolsUnique(image: Bytes, shs: seq<Shdr>, names: Names, l: Layout, l': Layout)
    requires SymbolsOk(image, shs, names, l) && SymbolsOk(image, shs, names, l')
    ensures l.(startPc := l'.startPc) == l'
  {
    DefinesUnique(image, shs, names.request, l.requestAddr, l.requestSize, l'.requestAddr, l'.requestSize);
    ValueUnique(image, shs, names.heapStart, l.heapStart, l'.heapStart);
    ValueUnique(image, shs, names.heapEnd, l.heapEnd, l'.heapEnd);
  }

  lemma ValueUnique(image: Bytes, shs: seq<Shdr>, name: Bytes, a: u32, a': u32)
    requires HasValue(image, shs, name, a) && HasValue(image, shs, name, a')
    ensures a == a'
  {
    var s: u32 :| Defines(image, shs, name, a, s);
    var s': u32 :| Defines(image, shs, name, a', s');
    DefinesUnique(image, shs, name, a, s, a', s');
  }

  /** The first lookup that fails decides. */
  ghost function SymbolsStatus(image: Bytes, names: Names): Status
    requires IsElf32(image)
  {
    if LookupStatus(image, names.request) != Ok then LookupStatus(image, names.request)
    else if LookupStatus(image, names.heapStart) != Ok then LookupStatus(image, names.heapStart)
    else LookupStatus(image, names.heapEnd)
  }

  method FindSymbols(image: Bytes, names: Names) returns (status: Status, layout: Layout)
    requires IsElf32(image)
    ensures status in {Ok, InvalidArgument, NotFound} && layout.startPc == Entry(image)
    ensures status == SymbolsStatus(image, names)
    ensures status == Ok ==> SectionsOk(image) && SymbolsOk(image, Sections(image), names, layout)
    ensures status != Ok && SectionsOk(image) ==> forall l :: !SymbolsOk(image, Sections(image), names, l)
  {
    layout := Layout(Entry(image), 0, 0, 0, 0);
    var requestAddr, requestSize, heapStart, heapEnd, size;
    status, requestAddr, requestSize := FindSymbol(image, names.request);
    if status != Ok {
      return;
    }
    status, heapStart, size := FindSymbol(image, names.heapStart);
    if status != Ok {
      return;
    }
    assert HasValue(image, Sections(image), names.heapStart, heapStart);
    status, heapEnd, size := FindSymbol(image, names.heapEnd);
    if status != Ok {
      return;
    }
    layout := Layout(Entry(image), requestAddr, requestSize, heapStart, heapEnd);
  }

  /** A failing lookup, or a layout outside DTCM. */
  ghost function LayoutStatus(image: Bytes): Status
    requires HeadersOk(image)
  {
    if SymbolsStatus(image, FIRMWARE_NAMES) != Ok then SymbolsStatus(image, FIRMWARE_NAMES)
    else if exists l :: LayoutOk(image, l) then Ok
    else OutOfRange
  }

  /** Why an image is refused: bad headers, the first bad segment, an entry that is not executable,
      a symbol, or a range. */
  ghost function LoadStatus(image: Bytes, mem: Memory): Status {
    if !HeadersOk(image) then InvalidArgument
    else
      var r := LoadHeaders(image, Entry(image), Headers(image), PhNum(image), mem);
      if r.status != Ok then r.status else if !r.entryOk then InvalidArgument else LayoutStatus(image)
  }

  /** The lookup and the range checks succeed exactly when the image has a good layout. */
  method FindLayout(image: Bytes) returns (status: Status, layout: Layout)
    requires HeadersOk(image)
    ensures status == LayoutStatus(image)
    ensures status == Ok ==> LayoutOk(image, layout)
    ensures status != Ok ==> forall l :: !LayoutOk(image, l)
  {
    status, layout := FindSymbols(image, FIRMWARE_NAMES);
    if status != Ok {
      NoLayout(image);
      return;
    }
    status := CheckLayout(layout);
    LayoutDecided(image, layout);
  }

  lemma NoLayout(image: Bytes)
    requires HeadersOk(image) && (SectionsOk(image) ==> forall l :: !SymbolsOk(image, Sections(image), FIRMWARE_NAMES, l))
    ensures forall l :: !LayoutOk(image, l)
  {
  }

  lemma {:induction false} SameRange(image: Bytes, shs: seq<Shdr>, names: Names, layout: Layout, l: Layout)
    requires SymbolsOk(image, shs, names, layout) && SymbolsOk(image, shs, names, l)
    ensures InDtcmLayout(l) <==> InDtcmLayout(layout)
  {
    SymbolsUnique(image, shs, names, layout, l);
  }

  /** With the symbols found, the image has a good layout exactly when theirs lies in DTCM. */
  lemma {:induction false} LayoutDecided(image: Bytes, layout: Layout)
    requires HeadersOk(image) && SectionsOk(image) && layout.startPc == Entry(image)
    requires SymbolsOk(image, Sections(image), FIRMWARE_NAMES, layout)
    ensures InDtcmLayout(layout) ==> LayoutOk(image, layout)
    ensures !InDtcmLayout(layout) ==> forall l :: !LayoutOk(image, l)
  {
    if !InDtcmLayout(layout) {
      forall l | SymbolsOk(image, Sections(image), FIRMWARE_NAMES, l) ensures !InDtcmLayout(l) {
        SameRange(image, Sections(image), FIRMWARE_NAMES, layout, l);
      }
    }
  }

  method CheckLayout(l: Layout) returns (status: Status)
    ensures status == if InDtcmLayout(l) then Ok else OutOfRange
  {
    RangeFitsExact(DTCM_START, DTCM_SIZE, l.requestAddr, l.requestSize);
    if !RangeFits(DTCM_START, DTCM_SIZE, l.requestAddr, l.requestSize) {
      return OutOfRange;
    }
    if l.heapEnd < l.heapStart {
      return OutOfRange;
    }
    RangeFitsExact(DTCM_START, DTCM_SIZE, l.heapStart, l.heapEnd - l.heapStart);
    if !RangeFits(DTCM_START, DTCM_SIZE, l.heapStart, l.heapEnd - l.heapStart) {
      return OutOfRange;
    }
    return Ok;
  }

  /** Exactly the images that load. */
  ghost predicate Loadable(image: Bytes, mem: Memory) {
    && HeadersOk(image)
    && var r := LoadHeaders(image, Entry(image), Headers(image), PhNum(image), mem);
       r.status == Ok && r.entryOk && exists l :: LayoutOk(image, l)
  }

  /** The load: on success memory is the old memory overlaid by every PT_LOAD in header order, the
      entry lies in an executable segment, and request and heap lie in DTCM. */
  method LoadElfWithLayout(sim: Simulator, image: Bytes) returns (status: Status, layout: Layout)
    modifies sim
    ensures status in {Ok, InvalidArgument, OutOfRange, NotFound}
    ensures status == LoadStatus(image, old(sim.mem))
    ensures status == Ok <==> Loadable(image, old(sim.mem))
    ensures status == Ok ==> LayoutOk(image, layout)
    ensures status == Ok ==>
              Loaded(Ok, sim.mem, true) == LoadHeaders(image, Entry(image), Headers(image), PhNum(image), old(sim.mem))
    ensures !HeadersOk(image) ==> status == InvalidArgument && sim.mem == old(sim.mem)
  {
    layout := Layout(0, 0, 0, 0, 0);
    if !IsElf32(image) {
      return InvalidArgument, layout;
    }
    if U16At(image, 18) != EM_RISCV {
      return InvalidArgument, layout;
    }
    if U16At(image, 42) != PHDR_SIZE {
      return InvalidArgument, layout;
    }
    if PhOff(image) + PhNum(image) * PHDR_SIZE > |image| {
      return InvalidArgument, layout;
    }
    var entryOk;
    status, entryOk := LoadSegments(sim, image);
    if status != Ok {
      return;
    }
    if !entryOk {
      return InvalidArgument, layout;
    }
    status, layout := FindLayout(image);
  }
}
