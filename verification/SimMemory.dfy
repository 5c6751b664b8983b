/** The simulator's byte-addressed memory and little-endian words. */
module SimMemory {

  type byte = x: nat | x < 256
  type Bytes = seq<byte>

  const SPACE: nat := 0x1_0000_0000
  const SIZE_64: nat := 0x1_0000_0000_0000_0000

  /** A byte for every 32-bit address. */
  type Memory = m: Bytes | |m| == SPACE witness Zeros(SPACE)

  type u32 = x: nat | x < 0x1_0000_0000

  datatype Status = Ok | InvalidArgument | OutOfRange | NotFound | ResourceExhausted | FailedPrecondition | DataLoss | Internal

  /** The memory with `data` written at `addr`. */
  function Overlay(mem: Bytes, addr: nat, data: Bytes): (r: Bytes)
    requires addr + |data| <= |mem|
    ensures |r| == |mem|
  {
    seq(|mem|, a requires 0 <= a < |mem| => if addr <= a < addr + |data| then data[a - addr] else mem[a])
  }

  lemma OverlayNothing(mem: Bytes, addr: nat)
    requires addr <= |mem|
    ensures Overlay(mem, addr, []) == mem
  {
  }

  /** Writing piece after piece is writing the whole. */
  lemma OverlayAppend(mem: Bytes, addr: nat, x: Bytes, y: Bytes)
    requires addr + |x| + |y| <= |mem|
    ensures Overlay(Overlay(mem, addr, x), addr + |x|, y) == Overlay(mem, addr, x + y)
  {
  }

  /** A write leaves a range that it does not meet. */
  lemma OverlayElsewhere(mem: Bytes, addr: nat, data: Bytes, lo: nat, hi: nat)
    requires addr + |data| <= |mem| && lo <= hi <= |mem| && (hi <= addr || addr + |data| <= lo)
    ensures Overlay(mem, addr, data)[lo..hi] == mem[lo..hi]
  {
  }

  function Zeros(n: nat): (r: Bytes)
    ensures |r| == n
  {
    seq(n, i => 0)
  }

  lemma ZerosAppend(mem: Bytes, addr: nat, a: nat, b: nat)
    requires addr + a + b <= |mem|
    ensures Overlay(Overlay(mem, addr, Zeros(a)), addr + a, Zeros(b)) == Overlay(mem, addr, Zeros(a + b))
  {
  }

  // ----- little-endian words -----

  function Word(b: Bytes): (r: u32)
    requires |b| == 4
  {
    var b0: nat, b1: nat, b2: nat, b3: nat := b[0], b[1], b[2], b[3];
    b0 + 0x100 * b1 + 0x1_0000 * b2 + 0x100_0000 * b3
  }

  function Half(b: Bytes): (r: nat)
    requires |b| == 2
    ensures r < 0x1_0000
  {
    var b0: nat, b1: nat := b[0], b[1];
    b0 + 0x100 * b1
  }

  /** The low 32 bits. */
  function WordBytes(v: nat): (r: Bytes)
    ensures |r| == 4
  {
    [v % 0x100, v / 0x100 % 0x100, v / 0x100 / 0x100 % 0x100, v / 0x100 / 0x100 / 0x100 % 0x100]
  }

  lemma WordRoundTrip(v: u32)
    ensures Word(WordBytes(v)) == v
  {
    var a := v / 0x100;
    var b := a / 0x100;
    var c := b / 0x100;
    assert WordBytes(v) == [v % 0x100, a % 0x100, b % 0x100, c % 0x100];
    TopByte(v, a, b, c);
  }

  lemma TopByte(v: u32, a: nat, b: nat, c: nat)
    requires a == v / 0x100 && b == a / 0x100 && c == b / 0x100
    ensures c < 0x100 && v == 0x100 * a + v % 0x100 && a == 0x100 * b + a % 0x100 && b == 0x100 * c + b % 0x100
  {
  }

  // ----- the simulator -----

  class Simulator {
    var mem: Memory

    /** `simulator_write_mem`; a write never wraps around the address space. */
    method WriteMem(addr: nat, data: Bytes)
      requires addr + |data| <= SPACE
      modifies this
      ensures mem == Overlay(old(mem), addr, data)
    {
      mem := Overlay(mem, addr, data);
    }

    method ReadMem(addr: nat, size: nat) returns (data: Bytes)
      requires addr + size <= SPACE
      ensures data == mem[addr..addr + size]
    {
      data := mem[addr..addr + size];
    }
  }
}
