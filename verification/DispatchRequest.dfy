/** The dispatch request of crt/coralnpu_dispatch.h: its sixty bytes, and reading and writing its
    fields in memory. */
module DispatchRequest {
  import opened SimMemory
  import opened DispatchMemory

  const MAGIC: u32 := 0x434E_5055
  const VERSION: nat := 1
  const STATUS_READY: nat := 1
  const STATUS_RUNNING: nat := 2
  const STATUS_COMPLETE: nat := 3
  const STATUS_ERROR: nat := 4

  type i32 = x: int | -0x8000_0000 <= x < 0x8000_0000

  datatype Grid = Grid(x: u32, y: u32, z: u32)

  datatype Request = Request(magic: u32, version: nat, status: nat, returnCode: int, size: Grid, count: Grid,
                             maxConcurrency: nat, constantCount: nat, bindingCount: nat, ordinal: u32,
                             constantsAddr: u32, ptrsAddr: u32, lengthsAddr: u32, localAddr: u32)

  /** The fields fit their C types. */
  predicate FieldsFit(r: Request) {
    && r.version < 0x1_0000 && r.status < 0x1_0000 && -0x8000_0000 <= r.returnCode < 0x8000_0000
    && r.maxConcurrency < 0x1_0000 && r.constantCount < 0x100 && r.bindingCount < 0x100
  }

  /** Two's complement. */
  function ToU32(v: int): u32
    requires -0x8000_0000 <= v < 0x8000_0000
  {
    if v < 0 then v + 0x1_0000_0000 else v
  }

  function FromU32(w: u32): (r: int)
    ensures -0x8000_0000 <= r < 0x8000_0000
  {
    var v: int := w;
    if v < 0x8000_0000 then v else v - 0x1_0000_0000
  }

  const REQUEST_WORDS: nat := 15

  /** The struct as fifteen little-endian words. */
  function ToWords(r: Request): (ws: seq<u32>)
    requires FieldsFit(r)
    ensures |ws| == REQUEST_WORDS
  {
    [r.magic, r.version + 0x1_0000 * r.status, ToU32(r.returnCode), r.size.x, r.size.y, r.size.z,
     r.count.x, r.count.y, r.count.z, r.maxConcurrency + 0x1_0000 * r.constantCount + 0x100_0000 * r.bindingCount,
     r.ordinal, r.constantsAddr, r.ptrsAddr, r.lengthsAddr, r.localAddr]
  }

  function FromWords(ws: seq<u32>): Request
    requires |ws| == REQUEST_WORDS
  {
    Request(ws[0], ws[1] % 0x1_0000, ws[1] / 0x1_0000, FromU32(ws[2]), Grid(ws[3], ws[4], ws[5]), Grid(ws[6], ws[7], ws[8]),
            ws[9] % 0x1_0000, (ws[9] / 0x1_0000) % 0x100, ws[9] / 0x100_0000, ws[10], ws[11], ws[12], ws[13], ws[14])
  }

  lemma RequestRoundTrip(r: Request)
    requires FieldsFit(r)
    ensures FromWords(ToWords(r)) == r
  {
    var w1 := r.version + 0x1_0000 * r.status;
    var w9 := r.maxConcurrency + 0x1_0000 * r.constantCount + 0x100_0000 * r.bindingCount;
    assert w9 / 0x1_0000 == r.constantCount + 0x100 * r.bindingCount;
    assert w1 / 0x1_0000 == r.status;
  }

  // ----- in memory -----

  const REQUEST_SIZE: nat := 60

  function RequestBytes(r: Request): (b: Bytes)
    requires FieldsFit(r)
    ensures |b| == REQUEST_SIZE
  {
    TableBytes(Words(ToWords(r)), REQUEST_WORDS)
  }

  function RequestAt(mem: Bytes, addr: nat): Request
    requires addr + REQUEST_SIZE <= |mem|
  {
    FromWords(WordsAt(mem, addr, REQUEST_WORDS))
  }

  /** The first `n` words from `addr` on. */
  function WordsAt(mem: Bytes, addr: nat, n: nat): (ws: seq<u32>)
    requires addr + 4 * n <= |mem|
    ensures |ws| == n
  {
    if n == 0 then [] else WordsAt(mem, addr, n - 1) + [WordAt(mem, addr + 4 * (n - 1))]
  }

  lemma {:induction false} WordsIndex(mem: Bytes, addr: nat, n: nat, i: nat)
    requires addr + 4 * n <= |mem| && i < n
    ensures WordsAt(mem, addr, n)[i] == WordAt(mem, addr + 4 * i)
  {
    if i < n - 1 { WordsIndex(mem, addr, n - 1, i); }
  }

  /** Reading back the bytes of a request gives the request. */
  lemma {:induction false} RequestReadBack(mem: Bytes, addr: nat, r: Request)
    requires FieldsFit(r) && Holds(mem, addr, RequestBytes(r)) && addr + REQUEST_SIZE <= |mem|
    ensures RequestAt(mem, addr) == r
  {
    var ws := ToWords(r);
    forall i | 0 <= i < REQUEST_WORDS ensures WordsAt(mem, addr, REQUEST_WORDS)[i] == ws[i] {
      WordsIndex(mem, addr, REQUEST_WORDS, i);
      TableRead(mem, addr, ws, i);
    }
    assert WordsAt(mem, addr, REQUEST_WORDS) == ws;
    RequestRoundTrip(r);
  }

  /** `request->status = status`: two bytes. */
  function WriteStatus(mem: Memory, addr: nat, status: nat): Memory
    requires addr + REQUEST_SIZE <= SPACE && status < 0x1_0000
  {
    Overlay(mem, addr + 6, [status % 0x100, status / 0x100])
  }

  /** `request->return_code = code`: four bytes. */
  function WriteReturnCode(mem: Memory, addr: nat, code: i32): Memory
    requires addr + REQUEST_SIZE <= SPACE
  {
    Overlay(mem, addr + 8, WordBytes(ToU32(code)))
  }

  /** Equal bytes give an equal word. */
  lemma WordSame(m: Bytes, m': Bytes, a: nat)
    requires a + 4 <= |m| == |m'| && m[a] == m'[a] && m[a + 1] == m'[a + 1] && m[a + 2] == m'[a + 2] && m[a + 3] == m'[a + 3]
    ensures WordAt(m, a) == WordAt(m', a)
  {
  }

  lemma {:induction false} OtherWords(m: Memory, addr: nat, at: nat, data: Bytes, i: nat, k: nat)
    requires addr + REQUEST_SIZE <= SPACE && i < REQUEST_WORDS && k < REQUEST_WORDS && i != k
    requires addr + 4 * k <= at && at + |data| <= addr + 4 * k + 4
    ensures WordAt(Overlay(m, at, data), addr + 4 * i) == WordAt(m, addr + 4 * i)
  {
    WordSame(Overlay(m, at, data), m, addr + 4 * i);
  }

  lemma {:induction false} StatusWord(m: Memory, addr: nat, status: nat)
    requires addr + REQUEST_SIZE <= SPACE && status < 0x1_0000
    ensures var w, w' := WordAt(m, addr + 4), WordAt(WriteStatus(m, addr, status), addr + 4);
            w' % 0x1_0000 == w % 0x1_0000 && w' / 0x1_0000 == status
  {
    var m', a := WriteStatus(m, addr, status), addr + 4;
    var data := [status % 0x100, status / 0x100];
    assert m'[a] == m[a] && m'[a + 1] == m[a + 1] && m'[a + 2] == data[0] && m'[a + 3] == data[1];
    PackedHalves(m[a], m[a + 1], data[0], data[1]);
    PackedHalves(m[a], m[a + 1], m[a + 2], m[a + 3]);
  }

  lemma PackedHalves(b0: byte, b1: byte, b2: byte, b3: byte)
    ensures var w := Word([b0, b1, b2, b3]);
            var lo: nat, hi: nat := b0 as nat + 0x100 * (b1 as nat), b2 as nat + 0x100 * (b3 as nat);
            w % 0x1_0000 == lo && w / 0x1_0000 == hi
  {
    var lo: nat, hi: nat := b0 as nat + 0x100 * (b1 as nat), b2 as nat + 0x100 * (b3 as nat);
    assert Word([b0, b1, b2, b3]) == lo + 0x1_0000 * hi;
  }

  /** Writing the status changes the status field and no other. */
  lemma {:induction false} StatusWritten(m: Memory, addr: nat, status: nat)
    requires addr + REQUEST_SIZE <= SPACE && status < 0x1_0000
    ensures RequestAt(WriteStatus(m, addr, status), addr) == RequestAt(m, addr).(status := status)
  {
    var m' := WriteStatus(m, addr, status);
    var ws, ws' := WordsAt(m, addr, REQUEST_WORDS), WordsAt(m', addr, REQUEST_WORDS);
    WordsIndex(m, addr, REQUEST_WORDS, 1);
    WordsIndex(m', addr, REQUEST_WORDS, 1);
    forall i: nat | i < REQUEST_WORDS && i != 1 ensures ws'[i] == ws[i] {
      WordsIndex(m, addr, REQUEST_WORDS, i);
      WordsIndex(m', addr, REQUEST_WORDS, i);
      OtherWords(m, addr, addr + 6, [status % 0x100, status / 0x100], i, 1);
    }
    StatusWord(m, addr, status);
  }

  /** Writing the return code changes the return code field and no other. */
  lemma {:induction false} ReturnCodeWritten(m: Memory, addr: nat, code: i32)
    requires addr + REQUEST_SIZE <= SPACE
    ensures RequestAt(WriteReturnCode(m, addr, code), addr) == RequestAt(m, addr).(returnCode := code)
  {
    var m', data := WriteReturnCode(m, addr, code), WordBytes(ToU32(code));
    var ws, ws' := WordsAt(m, addr, REQUEST_WORDS), WordsAt(m', addr, REQUEST_WORDS);
    WordsIndex(m', addr, REQUEST_WORDS, 2);
    forall i: nat | i < REQUEST_WORDS && i != 2 ensures ws'[i] == ws[i] {
      WordsIndex(m, addr, REQUEST_WORDS, i);
      WordsIndex(m', addr, REQUEST_WORDS, i);
      OtherWords(m, addr, addr + 8, data, i, 2);
    }
    WordFrom(m', addr + 8, data);
    WordRoundTrip(ToU32(code));
  }
}
