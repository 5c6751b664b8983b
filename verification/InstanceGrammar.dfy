/** The texts that the instance parser accepts, written down as a grammar, and what the Bazel rule
    computes from any text, written down without searching or splitting. */
module InstanceGrammar {
  import opened Options
  import opened InstanceText
  import opened InstanceRoundTrip

  // ----- the grammar -----

  predicate White(c: char) {
    c in {' ', '\t', '\n', '\U{000B}', '\U{000C}', '\r'}
  }

  predicate Blank(s: string) {
    forall k :: 0 <= k < |s| ==> White(s[k])
  }

  /** A text whose first and last characters are not white. */
  predicate Core(s: string) {
    s != [] && !White(s[0]) && !White(s[|s| - 1])
  }

  function Pow10(n: nat): nat {
    if n == 0 then 1 else 10 * Pow10(n - 1)
  }

  predicate Digits(d: string) {
    d != [] && forall k :: 0 <= k < |d| ==> d[k] in "0123456789"
  }

  function Digit(c: char): nat {
    if c == '1' then 1 else if c == '2' then 2 else if c == '3' then 3
    else if c == '4' then 4 else if c == '5' then 5 else if c == '6' then 6
    else if c == '7' then 7 else if c == '8' then 8 else if c == '9' then 9 else 0
  }

  /** The number that the digits stand for, by their places. */
  function Number(d: string): nat {
    if d == [] then 0 else Digit(d[0]) * Pow10(|d| - 1) + Number(d[1..])
  }

  /** Digits, or a minus sign and digits. */
  ghost predicate Numeral(s: string, v: int) {
    (Digits(s) && v == Number(s)) || (s != [] && s[0] == '-' && Digits(s[1..]) && v + Number(s[1..]) == 0)
  }

  /** A 64-bit numeral between white space. */
  ghost predicate Token(t: string, v: int) {
    exists a, n, b :: TokenParts(t, v, a, n, b)
  }

  ghost predicate TokenParts(t: string, v: int, a: string, n: string, b: string) {
    t == a + n + b && Blank(a) && Blank(b) && Numeral(n, v) && -0x8000_0000_0000_0000 <= v <= 0x7FFF_FFFF_FFFF_FFFF
  }

  ghost predicate TokensAre(tokens: seq<string>, values: seq<int>) {
    |tokens| == |values| && forall k :: 0 <= k < |tokens| ==> Token(tokens[k], values[k])
  }

  /** Nothing, or tokens separated by commas. */
  ghost predicate Group(g: string, values: seq<int>) {
    if values == [] then g == "" else exists tokens :: TokensAre(tokens, values) && g == Join(tokens, ",")
  }

  ghost predicate GroupsAre(texts: seq<string>, inst: Instance) {
    |texts| == |inst| && forall k :: 0 <= k < |texts| ==> Group(texts[k], inst[k])
  }

  /** Groups in parentheses. */
  ghost predicate Writes(raw: string, inst: Instance) {
    exists texts :: GroupsAre(texts, inst) && raw == Wrapped(texts)
  }

  // ----- white space -----

  lemma {:induction false} TrimCore(a: string, n: string, b: string)
    requires Blank(a) && Blank(b) && Core(n)
    ensures Trim(a + n + b) == n
    decreases |a| + |b|
  {
    var s := a + n + b;
    if a != [] {
      assert s[0] == a[0] && s[1..] == a[1..] + n + b;
      TrimCore(a[1..], n, b);
    } else if b != [] {
      assert s[0] == n[0] && s[|s| - 1] == b[|b| - 1] && s[..|s| - 1] == a + n + b[..|b| - 1];
      TrimCore(a, n, b[..|b| - 1]);
    } else {
      assert s == n;
    }
  }

  lemma {:induction false} TrimBlank(s: string)
    requires Blank(s)
    ensures Trim(s) == []
  {
    if s != [] { TrimBlank(s[1..]); }
  }

  lemma PadLeft(t: string, a: string, n: string, b: string)
    requires t != [] && t[1..] == a + n + b && White(t[0]) && Blank(a)
    ensures t == ([t[0]] + a) + n + b && Blank([t[0]] + a)
  {
    assert t == [t[0]] + t[1..];
  }

  lemma PadRight(t: string, a: string, n: string, b: string)
    requires t != [] && t[..|t| - 1] == a + n + b && White(t[|t| - 1]) && Blank(b)
    ensures t == a + n + (b + [t[|t| - 1]]) && Blank(b + [t[|t| - 1]])
  {
    assert t == t[..|t| - 1] + [t[|t| - 1]];
  }

  /** Every text is a core between white space, or white space alone. */
  lemma {:induction false} TrimSplits(t: string) returns (a: string, b: string)
    ensures t == a + Trim(t) + b && Blank(a) && Blank(b) && (Trim(t) != [] ==> Core(Trim(t)))
    decreases |t|
  {
    if t == [] {
      a, b := [], [];
    } else if IsSpace(t[0]) {
      var a';
      a', b := TrimSplits(t[1..]);
      a := [t[0]] + a';
      PadLeft(t, a', Trim(t[1..]), b);
    } else if IsSpace(t[|t| - 1]) {
      var b';
      a, b' := TrimSplits(t[..|t| - 1]);
      b := b' + [t[|t| - 1]];
      PadRight(t, a, Trim(t[..|t| - 1]), b');
    } else {
      a, b := [], [];
    }
  }

  // ----- numerals -----

  lemma DigitsAre(d: string)
    ensures Digits(d) <==> d != [] && IsDigits(d)
  {
    assert forall c: char :: c in "0123456789" <==> '0' <= c <= '9';
  }

  lemma ValueAppend(d: string, c: char)
    requires IsDigits(d) && '0' <= c <= '9'
    ensures IsDigits(d + [c]) && Value(d + [c]) == Value(d) * 10 + (c as int - '0' as int)
  {
    assert (d + [c])[..|d|] == d;
  }

  lemma Tenfold(x: nat, p: nat, v: nat, y: nat)
    ensures (x * p + v) * 10 + y == x * (10 * p) + (v * 10 + y)
  {
  }

  lemma {:induction false} ValueStep(c: char, d: string, x: nat, last: char)
    requires IsDigits([c] + d) && IsDigits(d) && '0' <= last <= '9' && Value([c] + d) == x * Pow10(|d|) + Value(d)
    ensures Value([c] + d + [last]) == x * Pow10(|d| + 1) + Value(d + [last])
  {
    ValueAppend([c] + d, last);
    ValueAppend(d, last);
    Tenfold(x, Pow10(|d|), Value(d), last as int - '0' as int);
  }

  lemma SplitLast(c: char, d: string)
    requires d != [] && IsDigits(d)
    ensures var e, last := d[..|d| - 1], d[|d| - 1];
            d == e + [last] && [c] + d == [c] + e + [last] && IsDigits(e) && '0' <= last <= '9'
  {
  }

  lemma OneDigit(c: char)
    requires '0' <= c <= '9'
    ensures [c] + [] == [c] && Value([c]) == (c as int - '0' as int)
  {
    assert [c][..0] == [];
  }

  lemma {:induction false} ValueShift(c: char, d: string, x: nat)
    requires '0' <= c <= '9' && IsDigits(d) && x == c as int - '0' as int
    ensures IsDigits([c] + d) && Value([c] + d) == x * Pow10(|d|) + Value(d)
    decreases |d|
  {
    if d == [] {
      OneDigit(c);
      assert d == [];
    } else {
      var e := d[..|d| - 1];
      SplitLast(c, d);
      ValueShift(c, e, x);
      ValueStep(c, e, x, d[|d| - 1]);
    }
  }

  lemma DigitIs(c: char)
    requires '0' <= c <= '9'
    ensures Digit(c) == c as int - '0' as int
  {
  }

  /** Reading digits from the left is counting them by their places. */
  lemma {:induction false} ValueIsNumber(d: string)
    requires IsDigits(d)
    ensures Value(d) == Number(d)
  {
    if d != [] {
      var c, rest := d[0], d[1..];
      ValueIsNumber(rest);
      assert d == [c] + rest;
      ValueShift(c, rest, c as int - '0' as int);
      DigitIs(c);
    }
  }

  /** `getAsInteger` accepts exactly the 64-bit numerals. */
  lemma {:induction false} IntegerExact(s: string, v: int)
    ensures GetAsInteger(s) == Some(v) <==> Numeral(s, v) && -0x8000_0000_0000_0000 <= v <= 0x7FFF_FFFF_FFFF_FFFF
  {
    DigitsAre(s);
    if IsDigits(s) { ValueIsNumber(s); }
    if s != [] {
      DigitsAre(s[1..]);
      if IsDigits(s[1..]) { ValueIsNumber(s[1..]); }
    }
  }

  lemma {:induction false} NumeralChars(n: string, v: int)
    requires Numeral(n, v)
    ensures Core(n) && forall k :: 0 <= k < |n| ==> IsNumeral(n[k])
  {
    DigitsAre(n);
    DigitsAre(n[1..]);
    forall k | 0 <= k < |n| ensures IsNumeral(n[k]) {
      if n[0] == '-' && k > 0 { assert n[k] == n[1..][k - 1]; }
    }
  }

  // ----- tokens and groups -----

  lemma {:induction false} TokenExact(t: string, v: int)
    ensures ParseToken(t) == Some(v) <==> Token(t, v)
  {
    if ParseToken(t) == Some(v) {
      var a, b := TrimSplits(t);
      IntegerExact(Trim(t), v);
      assert TokenParts(t, v, a, Trim(t), b);
    }
    if Token(t, v) {
      var a, n, b :| TokenParts(t, v, a, n, b);
      NumeralChars(n, v);
      TrimCore(a, n, b);
      IntegerExact(n, v);
    }
  }

  lemma {:induction false} TokenHas(t: string, v: int, c: char)
    requires Token(t, v) && !White(c) && !IsNumeral(c)
    ensures c !in t
  {
    var a, n, b :| TokenParts(t, v, a, n, b);
    NumeralChars(n, v);
    assert forall k :: 0 <= k < |t| ==> t[k] == if k < |a| then a[k] else if k < |a| + |n| then n[k - |a|] else b[k - |a| - |n|];
  }

  lemma JoinCons(p: string, parts: seq<string>, sep: string)
    requires parts != []
    ensures Join([p] + parts, sep) == p + sep + Join(parts, sep)
  {
    assert ([p] + parts)[1..] == parts;
  }

  lemma CutAt(s: string, e: nat, m: nat)
    requires e + m <= |s|
    ensures s == s[..e] + s[e..e + m] + s[e + m..]
  {
  }

  /** Joining undoes splitting. */
  lemma {:induction false} JoinSplit(s: string, c: char)
    ensures Join(Split(s, c), [c]) == s
    decreases |s|
  {
    FindFinds(s, c, 0);
    var e := Find(s, c, 0);
    if e < |s| {
      JoinSplit(s[e + 1..], c);
      JoinCons(s[..e], Split(s[e + 1..], c), [c]);
      CutAt(s, e, 1);
      assert s[e..e + 1] == [c];
    }
  }

  lemma {:induction false} SplitFree(s: string, c: char, k: nat)
    requires k < |Split(s, c)|
    ensures c !in Split(s, c)[k]
    decreases |s|
  {
    FindFinds(s, c, 0);
    if k > 0 { SplitFree(s[Find(s, c, 0) + 1..], c, k - 1); }
  }

  lemma {:induction false} GroupExact(g: string, values: seq<int>)
    ensures ParseGroup(g) == Some(values) <==> Group(g, values)
  {
    if ParseGroup(g) == Some(values) && g != [] {
      var tokens := Split(g, ',');
      JoinSplit(g, ',');
      forall k | 0 <= k < |tokens| ensures |tokens| == |values| && Token(tokens[k], values[k]) {
        MapOptionAt(ParseToken, tokens, k);
        TokenExact(tokens[k], values[k]);
      }
      assert TokensAre(tokens, values);
    }
    if Group(g, values) && values != [] {
      var tokens :| TokensAre(tokens, values) && g == Join(tokens, ",");
      TokensParse(tokens, values);
    }
  }

  lemma {:induction false} TokensParse(tokens: seq<string>, values: seq<int>)
    requires TokensAre(tokens, values) && values != []
    ensures ParseGroup(Join(tokens, ",")) == Some(values)
  {
    forall k | 0 <= k < |tokens| ensures ParseToken(tokens[k]) == Some(values[k]) && ',' !in tokens[k] {
      TokenExact(tokens[k], values[k]);
      TokenHas(tokens[k], values[k], ',');
    }
    SplitJoin(tokens, ',');
    MapOptionValues(ParseToken, tokens, values);
    var a, n, b :| TokenParts(tokens[0], values[0], a, n, b);
    JoinNotEmpty(tokens, ",");
  }

  lemma {:induction false} GroupClosed(g: string, values: seq<int>)
    requires Group(g, values)
    ensures ')' !in g
  {
    if values != [] && ')' in g {
      var tokens :| TokensAre(tokens, values) && g == Join(tokens, ",");
      JoinMembers(tokens, ",", ')');
      var k :| 0 <= k < |tokens| && ')' in tokens[k];
      TokenHas(tokens[k], values[k], ')');
    }
  }

  // ----- the parser -----

  lemma {:induction false} WritesParse(raw: string, inst: Instance, texts: seq<string>)
    requires GroupsAre(texts, inst) && raw == Wrapped(texts)
    ensures ParseGroups(RawGroups(raw, 0)) == Some(inst)
  {
    forall k | 0 <= k < |texts| ensures ParseGroup(texts[k]) == Some(inst[k]) && ')' !in texts[k] {
      GroupExact(texts[k], inst[k]);
      GroupClosed(texts[k], inst[k]);
    }
    RawGroupsOfWrapped("", texts);
    assert "" + Wrapped(texts) == Wrapped(texts);
    MapOptionValues(ParseGroup, texts, inst);
  }

  /** The parser accepts a text without error exactly when it is one of the grammar, and then returns
      the instance it stands for. */
  lemma {:induction false} ParseExact(raw: string, inst: Instance)
    ensures ParseGroups(RawGroups(raw, 0)) == Some(inst) <==> Writes(raw, inst)
  {
    if ParseGroups(RawGroups(raw, 0)) == Some(inst) {
      var texts := RawGroups(raw, 0).value;
      WrappedOfRawGroups(raw, 0);
      assert raw[0..] == raw;
      forall k | 0 <= k < |texts| ensures |texts| == |inst| && Group(texts[k], inst[k]) {
        MapOptionAt(ParseGroup, texts, k);
        GroupExact(texts[k], inst[k]);
      }
      assert GroupsAre(texts, inst);
    }
    if Writes(raw, inst) {
      var texts :| GroupsAre(texts, inst) && raw == Wrapped(texts);
      WritesParse(raw, inst, texts);
    }
  }

  /** So every text stands for at most one instance; that instance is what `parseInstance` returns,
      and a text of no instance gives the empty list. */
  lemma {:induction false} ParsedExact(raw: string, inst: Instance)
    ensures Parsed(raw) == inst <==> Writes(raw, inst) || (inst == [] && forall other :: !Writes(raw, other))
  {
    ParseExact(raw, inst);
    ParseExact(raw, Parsed(raw));
    forall other ensures Writes(raw, other) <==> ParseGroups(RawGroups(raw, 0)) == Some(other) { ParseExact(raw, other); }
  }

  // ----- the Bazel rule on any text -----

  predicate NoSeam(p: string) {
    forall i :: 0 <= i < |p| - 1 ==> !(p[i] == ')' && p[i + 1] == '(')
  }

  lemma {:induction false} FindSeamFinds(s: string, i: nat)
    requires i <= |s|
    ensures var e := FindSeam(s, i);
            && (forall j :: i <= j < e && j + 1 < |s| ==> !(s[j] == ')' && s[j + 1] == '('))
            && (e < |s| ==> e + 1 < |s| && s[e] == ')' && s[e + 1] == '(')
    decreases |s| - i
  {
    if i < |s| && !(s[i] == ')' && i + 1 < |s| && s[i + 1] == '(') { FindSeamFinds(s, i + 1); }
  }

  lemma {:induction false} SeamAt(s: string, i: nat, e: nat)
    requires i <= e <= |s| && forall j :: i <= j < e && j + 1 < |s| ==> !(s[j] == ')' && s[j + 1] == '(')
    requires e < |s| ==> e + 1 < |s| && s[e] == ')' && s[e + 1] == '('
    ensures FindSeam(s, i) == e
    decreases e - i
  {
    if i < e { SeamAt(s, i + 1, e); }
  }

  lemma {:induction false} JoinSeams(s: string)
    ensures Join(SplitSeams(s), ")(") == s
    ensures forall k :: 0 <= k < |SplitSeams(s)| ==> NoSeam(SplitSeams(s)[k])
    decreases |s|
  {
    FindSeamFinds(s, 0);
    var e := FindSeam(s, 0);
    if e < |s| {
      JoinSeams(s[e + 2..]);
      assert SplitSeams(s)[1..] == SplitSeams(s[e + 2..]);
      assert s == s[..e] + ")(" + s[e + 2..];
      assert NoSeam(s[..e]);
    }
  }

  lemma {:induction false} SeamHead(p: string, rest: string)
    requires NoSeam(p)
    ensures SplitSeams(p + ")(" + rest) == [p] + SplitSeams(rest)
  {
    var s := p + ")(" + rest;
    assert s[|p|] == ')' && s[|p| + 1] == '(';
    forall j | 0 <= j < |p| ensures !(s[j] == ')' && s[j + 1] == '(') { assert s[j] == p[j]; }
    SeamAt(s, 0, |p|);
    assert s[..|p|] == p && s[|p| + 2..] == rest;
  }

  lemma {:induction false} SeamsJoin(parts: seq<string>)
    requires parts != [] && forall k :: 0 <= k < |parts| ==> NoSeam(parts[k])
    ensures SplitSeams(Join(parts, ")(")) == parts
  {
    if |parts| == 1 {
      SeamAt(parts[0], 0, |parts[0]|);
    } else {
      SeamHead(parts[0], Join(parts[1..], ")("));
      SeamsJoin(parts[1..]);
    }
  }

  /** `split(")(")`: the one way to cut the text into parts without a seam. */
  lemma {:induction false} SeamsExact(s: string, parts: seq<string>)
    ensures parts == SplitSeams(s) <==> parts != [] && Join(parts, ")(") == s && forall k :: 0 <= k < |parts| ==> NoSeam(parts[k])
  {
    JoinSeams(s);
    if parts != [] && Join(parts, ")(") == s && forall k :: 0 <= k < |parts| ==> NoSeam(parts[k]) { SeamsJoin(parts); }
  }

  /** One parenthesis less at each end that has one. */
  ghost predicate Bare(g: string, h: string) {
    exists o, c :: BareParts(g, h, o, c)
  }

  ghost predicate BareParts(g: string, h: string, o: string, c: string) {
    && g == o + h + c && (o == "" || o == "(") && (c == "" || c == ")")
    && (o == "" ==> g == [] || g[0] != '(') && (c == "" ==> h == [] || h[|h| - 1] != ')')
  }

  function StripLeft(g: string): string {
    if g != [] && g[0] == '(' then g[1..] else g
  }

  lemma LeftOf(g: string) returns (o: string)
    ensures g == o + StripLeft(g) && (o == "" || o == "(") && (o == "" ==> g == [] || g[0] != '(')
  {
    o := if g != [] && g[0] == '(' then [g[0]] else "";
  }

  lemma RightOf(g: string) returns (c: string)
    ensures StripLeft(g) == StripParens(g) + c && (c == "" || c == ")")
    ensures c == "" ==> StripParens(g) == [] || StripParens(g)[|StripParens(g)| - 1] != ')'
  {
    var h := StripLeft(g);
    c := if h != [] && h[|h| - 1] == ')' then [h[|h| - 1]] else "";
  }

  lemma {:induction false} StripBare(g: string)
    ensures Bare(g, StripParens(g))
  {
    var o := LeftOf(g);
    var c := RightOf(g);
    assert BareParts(g, StripParens(g), o, c) by { Concat3(o, StripParens(g), c); }
  }

  /** `r` is the cores of those `dims` that have one, in order. */
  ghost predicate Cores(dims: seq<string>, r: seq<string>) {
    if dims == [] then r == []
    else if Blank(dims[0]) then Cores(dims[1..], r)
    else r != [] && CoreOf(dims[0], r[0]) && Cores(dims[1..], r[1..])
  }

  ghost predicate CoreOf(t: string, n: string) {
    Core(n) && exists a, b :: Blank(a) && Blank(b) && t == a + n + b
  }

  lemma {:induction false} TrimCoreOf(t: string)
    ensures if Blank(t) then Trim(t) == [] else CoreOf(t, Trim(t))
  {
    if Blank(t) {
      TrimBlank(t);
    } else {
      var a, b := TrimSplits(t);
    }
  }

  lemma {:induction false} StripTokensCores(dims: seq<string>)
    ensures Cores(dims, StripTokens(dims))
  {
    if dims != [] {
      TrimCoreOf(dims[0]);
      StripTokensCores(dims[1..]);
      var r := StripTokens(dims[1..]);
      assert ([Trim(dims[0])] + r)[1..] == r && [] + r == r;
    }
  }

  ghost predicate BazelPart(g: string, out: string) {
    exists h, dims, r :: BazelParts(g, out, h, dims, r)
  }

  ghost predicate BazelParts(g: string, out: string, h: string, dims: seq<string>, r: seq<string>) {
    && Bare(g, h) && dims != [] && Join(dims, ",") == h && (forall k :: 0 <= k < |dims| ==> ',' !in dims[k])
    && Cores(dims, r) && out == Join(r, "_")
  }

  lemma {:induction false} BazelGroupIs(g: string)
    ensures BazelPart(g, BazelGroup(g))
  {
    var h := StripParens(g);
    StripBare(g);
    JoinSplit(h, ',');
    forall k | 0 <= k < |Split(h, ',')| ensures ',' !in Split(h, ',')[k] { SplitFree(h, ',', k); }
    StripTokensCores(Split(h, ','));
    assert BazelParts(g, BazelGroup(g), h, Split(h, ','), StripTokens(Split(h, ',')));
  }

  ghost predicate BazelWrites(text: string, suffix: string, groups: seq<string>, outs: seq<string>) {
    && groups != [] && text == Join(groups, ")(") && (forall k :: 0 <= k < |groups| ==> NoSeam(groups[k]))
    && |outs| == |groups| && (forall k :: 0 <= k < |groups| ==> BazelPart(groups[k], outs[k]))
    && suffix == Join(outs, "-")
  }

  /** The suffix of any text, accepted by the parser or not: the text is cut at its seams, each part
      loses a parenthesis at either end, and its comma-separated pieces that are not blank are joined
      with underscores, without their white space. */
  lemma {:induction false} BazelExact(text: string)
    ensures BazelWrites(text, BazelSuffix(text), SplitSeams(text), BazelGroups(SplitSeams(text)))
  {
    JoinSeams(text);
    var groups := SplitSeams(text);
    forall k | 0 <= k < |groups| ensures BazelPart(groups[k], BazelGroups(groups)[k]) { BazelGroupIs(groups[k]); }
  }
}
