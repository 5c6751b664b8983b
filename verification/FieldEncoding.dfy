/** Records in memory: consecutive little-endian fields of given widths. */
module FieldEncoding {
  import opened SimMemory
  import opened DispatchMemory

  type u16 = x: nat | x < 0x1_0000

  datatype Field = Field(width: nat, value: nat)

  function LittleEndian(width: nat, value: nat): (r: Bytes)
    ensures |r| == width
  {
    if width == 0 then [] else [value % 0x100] + LittleEndian(width - 1, value / 0x100)
  }

  function Encode(fs: seq<Field>): Bytes {
    if fs == [] then [] else LittleEndian(fs[0].width, fs[0].value) + Encode(fs[1..])
  }

  /** Where field `k` begins. */
  function Offset(fs: seq<Field>, k: nat): nat
    requires k <= |fs|
  {
    if k == 0 then 0 else fs[0].width + Offset(fs[1..], k - 1)
  }

  lemma LittleWord(value: nat)
    ensures LittleEndian(4, value) == WordBytes(value)
  {
    var a, b, c := value / 0x100, value / 0x100 / 0x100, value / 0x100 / 0x100 / 0x100;
    assert LittleEndian(1, c) == [c % 0x100];
    assert LittleEndian(2, b) == [b % 0x100, c % 0x100];
    assert LittleEndian(3, a) == [a % 0x100, b % 0x100, c % 0x100];
  }

  lemma WordOfBytes(value: u32)
    ensures Word(LittleEndian(4, value)) == value
  {
    LittleWord(value);
    WordRoundTrip(value);
  }

  lemma HalfOfBytes(value: u16)
    ensures Half(LittleEndian(2, value)) == value
  {
    assert LittleEndian(1, value / 0x100) == [value / 0x100 % 0x100];
    assert LittleEndian(2, value) == [value % 0x100, value / 0x100 % 0x100];
  }

  lemma SliceAfter(front: Bytes, back: Bytes, from: nat, to: nat)
    requires from <= to <= |back|
    ensures (front + back)[|front| + from..|front| + to] == back[from..to]
  {
  }

  /** A field stands at its offset. */
  lemma {:induction false} FieldStands(fs: seq<Field>, k: nat)
    requires k < |fs|
    ensures Offset(fs, k) + fs[k].width <= |Encode(fs)|
    ensures Encode(fs)[Offset(fs, k)..Offset(fs, k) + fs[k].width] == LittleEndian(fs[k].width, fs[k].value)
  {
    var first, rest := LittleEndian(fs[0].width, fs[0].value), Encode(fs[1..]);
    if k == 0 {
      assert (first + rest)[..|first|] == first;
    } else {
      FieldStands(fs[1..], k - 1);
      var o := Offset(fs[1..], k - 1);
      SliceAfter(first, rest, o, o + fs[k].width);
    }
  }

  lemma {:induction false} EncodeAppend(a: seq<Field>, b: seq<Field>)
    ensures Encode(a + b) == Encode(a) + Encode(b)
  {
    if a == [] {
      assert a + b == b;
    } else {
      assert (a + b)[0] == a[0] && (a + b)[1..] == a[1..] + b;
      EncodeAppend(a[1..], b);
    }
  }
}
