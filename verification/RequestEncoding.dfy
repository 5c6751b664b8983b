/** The dispatch request as the C struct of crt/coralnpu_dispatch.h lays it out, field after field in
    the order of the declaration. */
module RequestEncoding {
  import opened SimMemory
  import opened DispatchMemory
  import opened DispatchRequest
  import opened FieldEncoding

  function Uint32s(values: seq<nat>): seq<Field> {
    seq(|values|, i requires 0 <= i < |values| => Field(4, values[i]))
  }

  function Halves(version: nat, status: nat): seq<Field> {
    [Field(2, version), Field(2, status)]
  }

  function Counts(maxConcurrency: nat, constantCount: nat, bindingCount: nat): seq<Field> {
    [Field(2, maxConcurrency), Field(1, constantCount), Field(1, bindingCount)]
  }

  /** `return_code`, the three sizes and the three counts. */
  function Middle(r: Request): seq<nat>
    requires FieldsFit(r)
  {
    [if r.returnCode < 0 then r.returnCode + 0x1_0000_0000 else r.returnCode,
     r.size.x, r.size.y, r.size.z, r.count.x, r.count.y, r.count.z]
  }

  function Addresses(r: Request): seq<nat> {
    [r.ordinal, r.constantsAddr, r.ptrsAddr, r.lengthsAddr, r.localAddr]
  }

  function RequestFields(r: Request): seq<Field>
    requires FieldsFit(r)
  {
    Uint32s([r.magic]) + Halves(r.version, r.status) + Uint32s(Middle(r)) +
    Counts(r.maxConcurrency, r.constantCount, r.bindingCount) + Uint32s(Addresses(r))
  }

  function Table(ws: seq<nat>): Bytes {
    TableBytes(Words(ws), |ws|)
  }

  lemma {:induction false} TableAppend(a: seq<nat>, b: seq<nat>)
    ensures Table(a + b) == Table(a) + Table(b)
    decreases |b|
  {
    if b == [] {
      assert a + b == a;
    } else {
      var n := |b| - 1;
      TableAppend(a, b[..n]);
      TableLast(a + b[..n], b[n]);
      TableLast(b[..n], b[n]);
      assert a + b == a + b[..n] + [b[n]] && b == b[..n] + [b[n]];
    }
  }

  lemma {:induction false} TableLast(a: seq<nat>, w: nat)
    ensures Table(a + [w]) == Table(a) + WordBytes(w)
  {
    TablePrefix(Words(a + [w]), Words(a), |a|);
    assert Words(a + [w])[|a|] == WordBytes(w);
  }

  lemma {:induction false} TablePrefix(xs: seq<Word4>, ys: seq<Word4>, n: nat)
    requires n <= |xs| && n <= |ys| && xs[..n] == ys[..n]
    ensures TableBytes(xs, n) == TableBytes(ys, n)
  {
    if n > 0 {
      assert xs[n - 1] == xs[..n][n - 1] && ys[n - 1] == ys[..n][n - 1];
      assert xs[..n - 1] == xs[..n][..n - 1] && ys[..n - 1] == ys[..n][..n - 1];
      TablePrefix(xs, ys, n - 1);
    }
  }

  lemma FourBytes(v: nat)
    ensures Encode([Field(4, v)]) == WordBytes(v)
  {
    LittleWord(v);
    assert [Field(4, v)][1..] == [] && Encode([]) == [];
  }

  lemma {:induction false} WordsEncode(ws: seq<nat>)
    ensures Encode(Uint32s(ws)) == Table(ws)
    decreases |ws|
  {
    if ws != [] {
      var n := |ws| - 1;
      WordsEncode(ws[..n]);
      EncodeAppend(Uint32s(ws[..n]), [Field(4, ws[n])]);
      FourBytes(ws[n]);
      TableLast(ws[..n], ws[n]);
      assert ws == ws[..n] + [ws[n]] && Uint32s(ws) == Uint32s(ws[..n]) + [Field(4, ws[n])];
    }
  }

  lemma OneWord(w: nat)
    ensures Table([w]) == WordBytes(w)
  {
    TableLast([], w);
    assert [] + [w] == [w];
  }

  lemma HalvesEncode(lo: nat, hi: nat)
    requires lo < 0x1_0000 && hi < 0x1_0000
    ensures Encode(Halves(lo, hi)) == Table([lo + 0x1_0000 * hi])
  {
    var w := lo + 0x1_0000 * hi;
    OneWord(w);
    assert LittleEndian(1, lo / 0x100) == [lo / 0x100] && LittleEndian(1, hi / 0x100) == [hi / 0x100];
    assert LittleEndian(2, lo) == [lo % 0x100, lo / 0x100] && LittleEndian(2, hi) == [hi % 0x100, hi / 0x100];
    assert Halves(lo, hi)[1..] == [Field(2, hi)] && Encode([Field(2, hi)]) == LittleEndian(2, hi) + Encode([]);
    assert w / 0x100 == lo / 0x100 + 0x100 * hi && w / 0x100 / 0x100 == hi;
  }

  lemma CountsEncode(c: nat, k: nat, b: nat)
    requires c < 0x1_0000 && k < 0x100 && b < 0x100
    ensures Encode(Counts(c, k, b)) == Table([c + 0x1_0000 * k + 0x100_0000 * b])
  {
    OneWord(c + 0x1_0000 * k + 0x100_0000 * b);
    PackedCounts(c, k, b);
    assert LittleEndian(1, c / 0x100) == [c / 0x100] && LittleEndian(2, c) == [c % 0x100, c / 0x100];
    assert LittleEndian(1, k) == [k] && LittleEndian(1, b) == [b];
    assert Counts(c, k, b)[1..] == [Field(1, k), Field(1, b)] && [Field(1, k), Field(1, b)][1..] == [Field(1, b)];
    assert Encode([Field(1, b)]) == [b] + Encode([]);
  }

  lemma PackedCounts(c: nat, k: nat, b: nat)
    requires c < 0x1_0000 && k < 0x100 && b < 0x100
    ensures WordBytes(c + 0x1_0000 * k + 0x100_0000 * b) == [c % 0x100, c / 0x100, k, b]
  {
    var w := c + 0x1_0000 * k + 0x100_0000 * b;
    assert w / 0x100 == c / 0x100 + 0x100 * (k + 0x100 * b) && w / 0x100 / 0x100 == k + 0x100 * b;
  }

  lemma FiveEncodings(a: seq<Field>, b: seq<Field>, c: seq<Field>, d: seq<Field>, e: seq<Field>)
    ensures Encode(a + b + c + d + e) == Encode(a) + Encode(b) + Encode(c) + Encode(d) + Encode(e)
  {
    EncodeAppend(a + b + c + d, e);
    EncodeAppend(a + b + c, d);
    EncodeAppend(a + b, c);
    EncodeAppend(a, b);
  }

  lemma WordsAreParts(r: Request)
    requires FieldsFit(r)
    ensures ToWords(r) == [r.magic] + [r.version + 0x1_0000 * r.status] + Middle(r) +
                          [r.maxConcurrency + 0x1_0000 * r.constantCount + 0x100_0000 * r.bindingCount] + Addresses(r)
  {
  }

  /** The host's sixty bytes, and the fields that the firmware reads back, are those of the struct. */
  lemma {:induction false} RequestEncoded(r: Request)
    requires FieldsFit(r)
    ensures RequestBytes(r) == Encode(RequestFields(r))
  {
    FiveEncodings(Uint32s([r.magic]), Halves(r.version, r.status), Uint32s(Middle(r)),
                  Counts(r.maxConcurrency, r.constantCount, r.bindingCount), Uint32s(Addresses(r)));
    WordsEncode([r.magic]);
    HalvesEncode(r.version, r.status);
    WordsEncode(Middle(r));
    CountsEncode(r.maxConcurrency, r.constantCount, r.bindingCount);
    WordsEncode(Addresses(r));
    FiveTables([r.magic], [r.version + 0x1_0000 * r.status], Middle(r),
               [r.maxConcurrency + 0x1_0000 * r.constantCount + 0x100_0000 * r.bindingCount], Addresses(r));
    WordsAreParts(r);
  }

  lemma FiveTables(a: seq<nat>, b: seq<nat>, c: seq<nat>, d: seq<nat>, e: seq<nat>)
    ensures Table(a + b + c + d + e) == Table(a) + Table(b) + Table(c) + Table(d) + Table(e)
  {
    TableAppend(a + b + c + d, e);
    TableAppend(a + b + c, d);
    TableAppend(a + b, c);
    TableAppend(a, b);
  }
}
