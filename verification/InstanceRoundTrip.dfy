/** The instance parser and its two suffixes agree: round trip, exact agreement condition
    and injectivity. */
module InstanceRoundTrip {
  import opened Options
  import opened InstanceText

  // ----- the Bazel side -----

  /** Position of the first ")(" from `i` on, or the length. */
  function FindSeam(s: string, i: nat): (k: nat)
    requires i <= |s|
    ensures i <= k <= |s| && (k < |s| ==> k + 1 < |s|)
    decreases |s| - i
  {
    if i == |s| then i
    else if s[i] == ')' && i + 1 < |s| && s[i + 1] == '(' then i
    else FindSeam(s, i + 1)
  }

  /** `split(")(")`. */
  function SplitSeams(s: string): (parts: seq<string>)
    ensures |parts| > 0
    decreases |s|
  {
    var k := FindSeam(s, 0);
    if k == |s| then [s] else [s[..k]] + SplitSeams(s[k + 2..])
  }

  function StripParens(g: string): string {
    var h := if |g| > 0 && g[0] == '(' then g[1..] else g;
    if |h| > 0 && h[|h| - 1] == ')' then h[..|h| - 1] else h
  }

  /** The comprehension `[d.strip() for d in dims if d.strip()]`. */
  function StripTokens(dims: seq<string>): seq<string> {
    if dims == [] then []
    else
      var d := Trim(dims[0]);
      (if d == [] then [] else [d]) + StripTokens(dims[1..])
  }

  function BazelGroup(g: string): string {
    Join(StripTokens(Split(StripParens(g), ',')), "_")
  }

  function BazelGroups(parts: seq<string>): seq<string> {
    seq(|parts|, k requires 0 <= k < |parts| => BazelGroup(parts[k]))
  }

  function BazelSuffix(text: string): string {
    Join(BazelGroups(SplitSeams(text)), "-")
  }

  method DropParens(group: string) returns (g: string)
    ensures g == StripParens(group)
  {
    g := group;
    if |g| > 0 && g[0] == '(' {
      g := g[1..];
    }
    if |g| > 0 && g[|g| - 1] == ')' {
      g := g[..|g| - 1];
    }
  }

  /** `parse_instance_to_suffix`. */
  method ParseInstanceToSuffix(text: string) returns (suffix: string)
    ensures suffix == BazelSuffix(text)
  {
    var groups := SplitSeams(text);
    var parsed: seq<string> := [];
    for k := 0 to |groups|
      invariant parsed == BazelGroups(groups)[..k]
    {
      var g := DropParens(groups[k]);
      parsed := parsed + [Join(StripTokens(Split(g, ',')), "_")];
      assert BazelGroups(groups)[k] == BazelGroup(groups[k]);
    }
    assert BazelGroups(groups)[..|groups|] == BazelGroups(groups);
    suffix := Join(parsed, "-");
  }

  // ----- searching and splitting -----

  lemma {:induction false} FindIs(s: string, c: char, i: nat, e: nat)
    requires i <= e <= |s| && (forall j :: i <= j < e ==> s[j] != c) && (e < |s| ==> s[e] == c)
    ensures Find(s, c, i) == e
    decreases e - i
  {
    if i < e { FindIs(s, c, i + 1, e); }
  }

  lemma {:induction false} FindFinds(s: string, c: char, i: nat)
    requires i <= |s|
    ensures var e := Find(s, c, i); (forall j :: i <= j < e ==> s[j] != c) && (e < |s| ==> s[e] == c)
    decreases |s| - i
  {
    if i < |s| && s[i] != c { FindFinds(s, c, i + 1); }
  }

  lemma SplitCons(p: string, c: char, rest: string)
    requires c !in p
    ensures Split(p + [c] + rest, c) == [p] + Split(rest, c)
  {
    var s := p + [c] + rest;
    assert forall j :: 0 <= j < |p| ==> s[j] == p[j] && p[j] in p;
    FindIs(s, c, 0, |p|);
    assert s[..|p|] == p && s[|p| + 1..] == rest;
  }

  lemma SplitWhole(p: string, c: char)
    requires c !in p
    ensures Split(p, c) == [p]
  {
    assert forall j :: 0 <= j < |p| ==> p[j] in p;
    FindIs(p, c, 0, |p|);
  }

  /** Splitting undoes joining when no part holds the separator. */
  lemma {:induction false} SplitJoin(parts: seq<string>, c: char)
    requires |parts| > 0 && forall k :: 0 <= k < |parts| ==> c !in parts[k]
    ensures Split(Join(parts, [c]), c) == parts
  {
    if |parts| == 1 {
      SplitWhole(parts[0], c);
    } else {
      SplitJoin(parts[1..], c);
      SplitCons(parts[0], c, Join(parts[1..], [c]));
    }
  }

  lemma {:induction false} SplitMembers(s: string, c: char, x: char)
    requires x in s && x != c
    ensures exists k :: 0 <= k < |Split(s, c)| && x in Split(s, c)[k]
    decreases |s|
  {
    var e := Find(s, c, 0);
    if e == |s| || x in s[..e] {
      assert x in Split(s, c)[0];
    } else {
      FindFinds(s, c, 0);
      assert s == s[..e] + [s[e]] + s[e + 1..];
      SplitMembers(s[e + 1..], c, x);
      var k :| 0 <= k < |Split(s[e + 1..], c)| && x in Split(s[e + 1..], c)[k];
      assert Split(s, c)[k + 1] == Split(s[e + 1..], c)[k];
    }
  }

  lemma {:induction false} TrimMembers(s: string, x: char)
    requires x in s && !IsSpace(x)
    ensures x in Trim(s)
    decreases |s|
  {
    if IsSpace(s[0]) {
      assert s == [s[0]] + s[1..];
      TrimMembers(s[1..], x);
    } else if IsSpace(s[|s| - 1]) {
      assert s == s[..|s| - 1] + [s[|s| - 1]];
      TrimMembers(s[..|s| - 1], x);
    }
  }

  // ----- decimal numerals -----

  predicate IsNumeral(c: char) {
    '0' <= c <= '9' || c == '-'
  }

  predicate AllNumeral(s: string) {
    forall k :: 0 <= k < |s| ==> IsNumeral(s[k])
  }

  lemma {:induction false} DecimalReads(n: nat)
    ensures |Decimal(n)| > 0 && IsDigits(Decimal(n)) && Value(Decimal(n)) == n
  {
    if n >= 10 {
      DecimalReads(n / 10);
      assert Decimal(n)[..|Decimal(n)| - 1] == Decimal(n / 10);
    } else {
      assert Decimal(n)[..0] == [];
    }
  }

  predicate Int64(v: int) {
    -INT64_LIMIT <= v < INT64_LIMIT
  }

  lemma DigitsRead(d: string, n: nat)
    requires d != [] && IsDigits(d) && Value(d) == n && Int64(n)
    ensures GetAsInteger(d) == Some(n) && AllNumeral(d)
  {
    assert d[0] != '-';
  }

  lemma SignedRead(d: string, v: int)
    requires d != [] && IsDigits(d) && Value(d) == -v && v < 0 && Int64(v)
    ensures GetAsInteger("-" + d) == Some(v) && AllNumeral("-" + d)
  {
    assert ("-" + d)[1..] == d && ("-" + d)[0] == '-';
  }

  lemma ToStringReads(v: int)
    requires Int64(v)
    ensures GetAsInteger(ToString(v)) == Some(v) && ToString(v) != [] && AllNumeral(ToString(v))
  {
    if v < 0 {
      DecimalReads(-v);
      SignedRead(Decimal(-v), v);
    } else {
      DecimalReads(v);
      DigitsRead(Decimal(v), v);
    }
  }

  lemma NumeralTrims(s: string)
    requires s != [] && AllNumeral(s)
    ensures Trim(s) == s
  {
  }

  /** A numeral is never shorter than the canonical one for the same value, and a numeral of
      the same length is the canonical one. */
  lemma {:induction false} CanonicalIsShortest(s: string)
    requires s != [] && IsDigits(s)
    ensures |Decimal(Value(s))| <= |s|
    ensures |Decimal(Value(s))| == |s| ==> Decimal(Value(s)) == s
  {
    var n := |s| - 1;
    if n == 0 {
      assert s[..0] == [] && Value(s) < 10;
    } else {
      var head := s[..n];
      CanonicalIsShortest(head);
      var digit := s[n] as int - '0' as int;
      assert Value(s) == Value(head) * 10 + digit;
      if Value(head) > 0 {
        assert Decimal(Value(s)) == Decimal(Value(head)) + [s[n]];
        assert s == head + [s[n]];
      }
    }
  }

  lemma IntegerIsShortest(s: string)
    requires GetAsInteger(s).Some?
    ensures |ToString(GetAsInteger(s).value)| <= |s|
    ensures |ToString(GetAsInteger(s).value)| == |s| ==> ToString(GetAsInteger(s).value) == s
    ensures s != [] && AllNumeral(s)
  {
    if s[0] == '-' {
      assert s == ['-'] + s[1..];
      CanonicalIsShortest(s[1..]);
    } else {
      CanonicalIsShortest(s);
    }
  }

  // ----- the shape of an accepted text -----

  function Wrapped(groups: seq<string>): string {
    if groups == [] then "" else Wrap(groups[0]) + Wrapped(groups[1..])
  }

  function Wrap(g: string): string {
    "(" + g + ")"
  }

  lemma RawGroupsStep(raw: string, i: nat, g: string)
    requires i + |g| + 2 <= |raw| && raw[i] == '(' && raw[i + 1..i + 1 + |g|] == g && raw[i + 1 + |g|] == ')'
    requires ')' !in g
    ensures RawGroups(raw, i) == Prepend([g], RawGroups(raw, i + |g| + 2))
  {
    forall j | i + 1 <= j < i + 1 + |g| ensures raw[j] != ')' {
      assert raw[j] == g[j - i - 1];
    }
    FindIs(raw, ')', i + 1, i + 1 + |g|);
  }

  lemma Concat3(a: string, b: string, c: string)
    ensures a + (b + c) == a + b + c
  {
  }

  lemma RawGroupsHead(pre: string, g: string, rest: string)
    requires ')' !in g
    ensures RawGroups(pre + Wrap(g) + rest, |pre|) == Prepend([g], RawGroups(pre + Wrap(g) + rest, |pre + Wrap(g)|))
  {
    var raw := pre + Wrap(g) + rest;
    assert raw[|pre| + 1..|pre| + 1 + |g|] == g;
    RawGroupsStep(raw, |pre|, g);
  }

  /** Reading parenthesised groups back gives the groups. */
  lemma {:induction false} RawGroupsOfWrapped(pre: string, groups: seq<string>)
    requires forall k :: 0 <= k < |groups| ==> ')' !in groups[k]
    ensures RawGroups(pre + Wrapped(groups), |pre|) == Some(groups)
    decreases |groups|
  {
    if groups != [] {
      var g, rest := groups[0], groups[1..];
      Concat3(pre, Wrap(g), Wrapped(rest));
      RawGroupsHead(pre, g, Wrapped(rest));
      RawGroupsOfWrapped(pre + Wrap(g), rest);
      assert [g] + rest == groups;
    }
  }

  lemma RawGroupsCut(raw: string, i: nat)
    requires i < |raw| && RawGroups(raw, i).Some?
    ensures var end := Find(raw, ')', i + 1);
            && end < |raw| && RawGroups(raw, end + 1).Some?
            && RawGroups(raw, i).value == [raw[i + 1..end]] + RawGroups(raw, end + 1).value
            && ')' !in raw[i + 1..end] && raw[i..] == Wrap(raw[i + 1..end]) + raw[end + 1..]
  {
    FindFinds(raw, ')', i + 1);
  }

  lemma WrappedCons(g: string, rest: seq<string>)
    ensures Wrapped([g] + rest) == Wrap(g) + Wrapped(rest)
  {
    assert ([g] + rest)[1..] == rest;
  }

  lemma {:induction false} RawGroupsText(raw: string, i: nat)
    requires i <= |raw| && RawGroups(raw, i).Some?
    ensures raw[i..] == Wrapped(RawGroups(raw, i).value)
    decreases |raw| - i
  {
    if i < |raw| {
      var end := Find(raw, ')', i + 1);
      RawGroupsCut(raw, i);
      RawGroupsText(raw, end + 1);
      WrappedCons(raw[i + 1..end], RawGroups(raw, end + 1).value);
    }
  }

  lemma {:induction false} RawGroupsClosed(raw: string, i: nat, k: nat)
    requires i <= |raw| && RawGroups(raw, i).Some? && k < |RawGroups(raw, i).value|
    ensures ')' !in RawGroups(raw, i).value[k]
    decreases |raw| - i
  {
    if i < |raw| {
      RawGroupsCut(raw, i);
      if k > 0 { RawGroupsClosed(raw, Find(raw, ')', i + 1) + 1, k - 1); }
    }
  }

  /** A text with matching parentheses is the sequence of its groups in parentheses. */
  lemma {:induction false} WrappedOfRawGroups(raw: string, i: nat)
    requires i <= |raw| && RawGroups(raw, i).Some?
    ensures raw[i..] == Wrapped(RawGroups(raw, i).value)
    ensures forall k :: 0 <= k < |RawGroups(raw, i).value| ==> ')' !in RawGroups(raw, i).value[k]
  {
    RawGroupsText(raw, i);
    forall k | 0 <= k < |RawGroups(raw, i).value| ensures ')' !in RawGroups(raw, i).value[k] { RawGroupsClosed(raw, i, k); }
  }

  predicate Plain(g: string) {
    '(' !in g && ')' !in g
  }

  /** A token that parses holds no parenthesis. */
  lemma TokenPlain(t: string)
    requires ParseToken(t).Some?
    ensures '(' !in t
  {
    IntegerIsShortest(Trim(t));
    if '(' in t {
      TrimMembers(t, '(');
    }
  }

  lemma GroupPlain(g: string)
    requires ParseGroup(g).Some?
    ensures '(' !in g
  {
    if '(' in g {
      var tokens := Split(g, ',');
      SplitMembers(g, ',', '(');
      var k :| 0 <= k < |tokens| && '(' in tokens[k];
      MapOptionAt(ParseToken, tokens, k);
      TokenPlain(tokens[k]);
    }
  }

  // ----- the Bazel rule sees the same groups -----

  lemma {:induction false} FindSeamIs(s: string, i: nat, e: nat)
    requires i <= e <= |s| && (forall j :: i <= j < e ==> s[j] != ')' || j + 1 == |s|)
    requires e < |s| ==> e + 1 < |s| && s[e] == ')' && s[e + 1] == '('
    ensures FindSeam(s, i) == e
    decreases e - i
  {
    if i < e { FindSeamIs(s, i + 1, e); }
  }

  lemma SplitSeamsCons(p: string, rest: string)
    requires ')' !in p
    ensures SplitSeams(p + ")(" + rest) == [p] + SplitSeams(rest)
  {
    var s := p + ")(" + rest;
    assert forall j :: 0 <= j < |p| ==> s[j] == p[j] && p[j] in p;
    FindSeamIs(s, 0, |p|);
    assert s[..|p|] == p && s[|p| + 2..] == rest;
  }

  lemma SplitSeamsLast(p: string)
    requires ')' !in p
    ensures SplitSeams(p + ")") == [p + ")"]
  {
    var s := p + ")";
    assert forall j :: 0 <= j < |p| ==> s[j] == p[j] && p[j] in p;
    FindSeamIs(s, 0, |s|);
  }

  /** The groups after the prefix `p`, as the seams cut them. */
  function Pieces(p: string, groups: seq<string>): seq<string>
    requires |groups| > 0
    decreases |groups|
  {
    if |groups| == 1 then [p + groups[0] + ")"] else [p + groups[0]] + Pieces("", groups[1..])
  }

  /** A group up to its closing parenthesis, then whatever follows. */
  function Closed(g: string, rest: string): string {
    g + ")" + rest
  }

  lemma ClosedThenOpen(p: string, g: string, tail: string)
    ensures p + Closed(g, "(" + tail) == p + g + ")(" + tail
    ensures p + Closed(g, "") == p + g + ")"
    ensures Wrap(g) + tail == "(" + Closed(g, tail)
  {
  }

  lemma {:induction false} SplitSeamsPieces(p: string, groups: seq<string>)
    requires |groups| > 0 && ')' !in p && forall k :: 0 <= k < |groups| ==> Plain(groups[k])
    ensures SplitSeams(p + Closed(groups[0], Wrapped(groups[1..]))) == Pieces(p, groups)
    decreases |groups|
  {
    var g := groups[0];
    if |groups| == 1 {
      ClosedThenOpen(p, g, "");
      SplitSeamsLast(p + g);
    } else {
      var rest := groups[1..];
      var tail := Closed(rest[0], Wrapped(rest[1..]));
      ClosedThenOpen("", rest[0], Wrapped(rest[1..]));
      ClosedThenOpen(p, g, tail);
      SplitSeamsCons(p + g, tail);
      SplitSeamsPieces("", rest);
      assert "" + tail == tail;
    }
  }

  lemma StripOpen(p: string, g: string)
    requires (p == "" || p == "(") && Plain(g)
    ensures StripParens(p + g) == g
  {
  }

  lemma StripBoth(p: string, g: string)
    requires (p == "" || p == "(") && Plain(g)
    ensures StripParens(p + g + ")") == g
  {
  }

  lemma {:induction false} PieceAt(p: string, groups: seq<string>, k: nat)
    requires k < |groups| && (p == "" || p == "(") && forall j :: 0 <= j < |groups| ==> Plain(groups[j])
    ensures |Pieces(p, groups)| == |groups| && StripParens(Pieces(p, groups)[k]) == groups[k]
    decreases |groups|
  {
    if k == 0 && |groups| == 1 { StripBoth(p, groups[0]); }
    if k == 0 && |groups| > 1 { StripOpen(p, groups[0]); }
    if |groups| > 1 { PieceAt("", groups[1..], if k == 0 then 0 else k - 1); }
  }

  function StripGroup(g: string): string {
    Join(StripTokens(Split(g, ',')), "_")
  }

  function StripGroups(groups: seq<string>): seq<string> {
    seq(|groups|, k requires 0 <= k < |groups| => StripGroup(groups[k]))
  }

  lemma PiecesStripped(groups: seq<string>)
    requires |groups| > 0 && forall k :: 0 <= k < |groups| ==> Plain(groups[k])
    ensures BazelGroups(Pieces("(", groups)) == StripGroups(groups)
  {
    PieceAt("(", groups, 0);
    forall k | 0 <= k < |groups| ensures BazelGroup(Pieces("(", groups)[k]) == StripGroup(groups[k]) {
      PieceAt("(", groups, k);
    }
  }

  lemma WrappedSeams(groups: seq<string>)
    requires |groups| > 0 && forall k :: 0 <= k < |groups| ==> Plain(groups[k])
    ensures SplitSeams(Wrapped(groups)) == Pieces("(", groups)
  {
    SplitSeamsPieces("(", groups);
    ClosedThenOpen("", groups[0], Wrapped(groups[1..]));
  }

  lemma BazelSeesGroups(groups: seq<string>)
    requires |groups| > 0 && forall k :: 0 <= k < |groups| ==> Plain(groups[k])
    ensures BazelSuffix(Wrapped(groups)) == Join(StripGroups(groups), "-")
  {
    WrappedSeams(groups);
    PiecesStripped(groups);
  }

  // ----- when the two suffixes agree -----

  /** The stripped tokens of a group, none for an empty one. */
  function Tokens(g: string): seq<string> {
    if g == [] then [] else seq(|Split(g, ',')|, k requires 0 <= k < |Split(g, ',')| => Trim(Split(g, ',')[k]))
  }

  lemma {:induction false} StripKeepsAll(dims: seq<string>)
    requires forall k :: 0 <= k < |dims| ==> Trim(dims[k]) != []
    ensures |StripTokens(dims)| == |dims|
    ensures forall k :: 0 <= k < |dims| ==> StripTokens(dims)[k] == Trim(dims[k])
  {
    if dims != [] { StripKeepsAll(dims[1..]); }
  }

  lemma TokenAt(g: string, k: nat)
    requires ParseGroup(g).Some? && k < |Tokens(g)|
    ensures |Tokens(g)| == |ParseGroup(g).value|
    ensures ParseToken(Split(g, ',')[k]) == Some(ParseGroup(g).value[k])
  {
    MapOptionAt(ParseToken, Split(g, ','), k);
  }

  lemma TokenKept(t: string)
    requires ParseToken(t).Some?
    ensures Trim(t) != []
  {
  }

  /** On a group that parses, the Bazel comprehension keeps every token. */
  lemma GroupTokens(g: string)
    requires ParseGroup(g).Some?
    ensures StripGroup(g) == Join(Tokens(g), "_")
  {
    var tokens := Split(g, ',');
    if g == [] {
      assert tokens == [g] && tokens[1..] == [];
    } else {
      forall k | 0 <= k < |tokens| ensures Trim(tokens[k]) != [] {
        TokenAt(g, k);
        TokenKept(tokens[k]);
      }
      StripKeepsAll(tokens);
      assert StripTokens(tokens) == Tokens(g);
    }
  }

  /** Part by part no longer, and equal where equally long. */
  ghost predicate Shortens(xs: seq<string>, ys: seq<string>) {
    |xs| == |ys| && forall k :: 0 <= k < |xs| ==> |xs[k]| <= |ys[k]| && (|xs[k]| == |ys[k]| ==> xs[k] == ys[k])
  }

  lemma {:induction false} JoinShortens(xs: seq<string>, ys: seq<string>, sep: string)
    requires Shortens(xs, ys)
    ensures |Join(xs, sep)| <= |Join(ys, sep)|
    ensures |Join(xs, sep)| == |Join(ys, sep)| ==> xs == ys
  {
    if |xs| > 1 {
      JoinShortens(xs[1..], ys[1..], sep);
      assert xs == [xs[0]] + xs[1..] && ys == [ys[0]] + ys[1..];
    }
  }

  lemma TokenShortens(t: string, v: int)
    requires ParseToken(t) == Some(v)
    ensures |ToString(v)| <= |Trim(t)| && (|ToString(v)| == |Trim(t)| ==> ToString(v) == Trim(t))
  {
    IntegerIsShortest(Trim(t));
  }

  lemma GroupShortens(g: string)
    requires ParseGroup(g).Some?
    ensures Shortens(Strings(ParseGroup(g).value), Tokens(g))
  {
    var values := ParseGroup(g).value;
    if g != [] {
      TokenAt(g, 0);
      forall k | 0 <= k < |values|
        ensures |Strings(values)[k]| <= |Tokens(g)[k]| &&
                (|Strings(values)[k]| == |Tokens(g)[k]| ==> Strings(values)[k] == Tokens(g)[k])
      {
        TokenAt(g, k);
        TokenShortens(Split(g, ',')[k], values[k]);
      }
    }
  }

  /** For every text that parses to a non-empty instance, the C++ suffix of the instance and
      the Bazel suffix of the text agree exactly when every token is written canonically. */
  lemma SuffixesAgree(raw: string, texts: seq<string>, inst: Instance)
    requires RawGroups(raw, 0) == Some(texts) && MapOption(ParseGroup, texts) == Some(inst) && inst != []
    ensures Suffix(inst) == "_" + BazelSuffix(raw) <==>
              |texts| == |inst| && forall k :: 0 <= k < |inst| ==> Strings(inst[k]) == Tokens(texts[k])
  {
    assert texts != [];
    MapOptionAt(ParseGroup, texts, 0);
    WrappedOfRawGroups(raw, 0);
    assert raw[0..] == raw;
    forall k | 0 <= k < |texts| ensures ParseGroup(texts[k]) == Some(inst[k]) && Plain(texts[k]) {
      MapOptionAt(ParseGroup, texts, k);
      GroupPlain(texts[k]);
    }
    BazelSeesGroups(texts);
    SuffixPartsAgree(texts, inst);
  }

  lemma SuffixPartsAgree(texts: seq<string>, inst: Instance)
    requires |texts| == |inst| && forall k :: 0 <= k < |inst| ==> ParseGroup(texts[k]) == Some(inst[k])
    ensures Suffix(inst) == "_" + Join(StripGroups(texts), "-") <==>
              forall k :: 0 <= k < |inst| ==> Strings(inst[k]) == Tokens(texts[k])
  {
    var xs, ys := GroupTexts(inst, "_"), StripGroups(texts);
    forall k | 0 <= k < |inst|
      ensures |xs[k]| <= |ys[k]| && (|xs[k]| == |ys[k]| ==> xs[k] == ys[k])
      ensures xs[k] == ys[k] <==> Strings(inst[k]) == Tokens(texts[k])
    {
      GroupTokens(texts[k]);
      GroupShortens(texts[k]);
      JoinShortens(Strings(inst[k]), Tokens(texts[k]), "_");
    }
    JoinShortens(xs, ys, "-");
    assert Join(xs, "-") == Join(ys, "-") <==> xs == ys;
    assert ("_" + Join(xs, "-"))[1..] == Join(xs, "-") && ("_" + Join(ys, "-"))[1..] == Join(ys, "-");
  }

  // ----- canonical texts -----

  predicate AllInt64(g: seq<int>) {
    forall k :: 0 <= k < |g| ==> Int64(g[k])
  }

  predicate ValidInstance(inst: Instance) {
    forall k :: 0 <= k < |inst| ==> AllInt64(inst[k])
  }

  /** The canonical text of an instance. */
  function Text(inst: Instance): string {
    Wrapped(GroupTexts(inst, ","))
  }

  lemma {:induction false} JoinMembers(parts: seq<string>, sep: string, x: char)
    requires x in Join(parts, sep) && x !in sep
    ensures exists k :: 0 <= k < |parts| && x in parts[k]
  {
    if |parts| == 1 || x in parts[0] {
      assert x in parts[0];
    } else {
      assert x in Join(parts[1..], sep);
      JoinMembers(parts[1..], sep, x);
      var k :| 0 <= k < |parts[1..]| && x in parts[1..][k];
      assert x in parts[k + 1];
    }
  }

  lemma StringsNumeral(g: seq<int>, k: nat)
    requires AllInt64(g) && k < |g|
    ensures AllNumeral(Strings(g)[k]) && Strings(g)[k] != [] && ParseToken(Strings(g)[k]) == Some(g[k])
    ensures Trim(Strings(g)[k]) == Strings(g)[k]
  {
    ToStringReads(g[k]);
    NumeralTrims(ToString(g[k]));
  }

  lemma NumeralExcludes(s: string, c: char)
    requires AllNumeral(s) && !IsNumeral(c)
    ensures c !in s
  {
  }

  /** A joined group splits back into its numerals, for any separator that is not one. */
  lemma StringsSplit(g: seq<int>, c: char)
    requires AllInt64(g) && g != [] && !IsNumeral(c)
    ensures Split(Join(Strings(g), [c]), c) == Strings(g)
  {
    forall k | 0 <= k < |g| ensures c !in Strings(g)[k] {
      StringsNumeral(g, k);
      NumeralExcludes(Strings(g)[k], c);
    }
    SplitJoin(Strings(g), c);
  }

  lemma StringsParse(g: seq<int>)
    requires AllInt64(g)
    ensures MapOption(ParseToken, Strings(g)) == Some(g)
  {
    forall k | 0 <= k < |g| ensures ParseToken(Strings(g)[k]) == Some(g[k]) {
      StringsNumeral(g, k);
    }
    MapOptionValues(ParseToken, Strings(g), g);
  }

  lemma JoinNotEmpty(parts: seq<string>, sep: string)
    requires |parts| > 0 && parts[0] != []
    ensures Join(parts, sep) != []
  {
  }

  lemma CanonicalGroup(g: seq<int>)
    requires AllInt64(g)
    ensures var t := Join(Strings(g), ",");
            ParseGroup(t) == Some(g) && ')' !in t && Tokens(t) == Strings(g)
  {
    var t := Join(Strings(g), ",");
    if g != [] {
      StringsNumeral(g, 0);
      JoinNotEmpty(Strings(g), ",");
      StringsSplit(g, ',');
      StringsParse(g);
      forall k | 0 <= k < |g| ensures Tokens(t)[k] == Strings(g)[k] { StringsNumeral(g, k); }
      if ')' in t {
        JoinMembers(Strings(g), ",", ')');
        var k :| 0 <= k < |g| && ')' in Strings(g)[k];
        StringsNumeral(g, k);
      }
    }
  }

  lemma CanonicalGroups(inst: Instance)
    requires ValidInstance(inst)
    ensures RawGroups(Text(inst), 0) == Some(GroupTexts(inst, ","))
    ensures MapOption(ParseGroup, GroupTexts(inst, ",")) == Some(inst)
  {
    var texts := GroupTexts(inst, ",");
    forall k | 0 <= k < |inst| ensures ParseGroup(texts[k]) == Some(inst[k]) && ')' !in texts[k] {
      CanonicalGroup(inst[k]);
    }
    RawGroupsOfWrapped("", texts);
    assert "" + Wrapped(texts) == Wrapped(texts);
    MapOptionValues(ParseGroup, texts, inst);
  }

  /** Parsing the canonical text of an instance gives the instance back. */
  lemma ParseOfText(inst: Instance)
    requires ValidInstance(inst)
    ensures Parsed(Text(inst)) == inst
  {
    CanonicalGroups(inst);
  }

  /** On canonical texts the two suffixes are the same name. */
  lemma CanonicalSuffixesAgree(inst: Instance)
    requires ValidInstance(inst) && inst != []
    ensures Suffix(inst) == "_" + BazelSuffix(Text(inst))
  {
    CanonicalGroups(inst);
    forall k | 0 <= k < |inst| ensures Strings(inst[k]) == Tokens(GroupTexts(inst, ",")[k]) {
      CanonicalGroup(inst[k]);
    }
    SuffixesAgree(Text(inst), GroupTexts(inst, ","), inst);
  }

  lemma {:induction false} LeadingZeroValue(s: string)
    requires IsDigits(s)
    ensures IsDigits("0" + s) && Value("0" + s) == Value(s)
  {
    var z := "0" + s;
    if s == [] {
      assert z[..0] == [];
    } else {
      LeadingZeroValue(s[..|s| - 1]);
      assert z[..|z| - 1] == "0" + s[..|s| - 1];
    }
  }

  /** A leading zero parses, but survives only in the Bazel suffix. */
  lemma LeadingZeroDisagrees(n: nat)
    requires Int64(n)
    ensures Parsed(Wrapped(["0" + Decimal(n)])) == [[n]]
    ensures Suffix([[n]]) != "_" + BazelSuffix(Wrapped(["0" + Decimal(n)]))
  {
    var t := "0" + Decimal(n);
    DecimalReads(n);
    LeadingZeroValue(Decimal(n));
    NumeralTrims(t);
    assert ParseToken(t) == Some(n);
    NumeralExcludes(t, ',');
    NumeralExcludes(t, ')');
    SplitWhole(t, ',');
    MapOptionValues(ParseToken, [t], [n]);
    MapOptionValues(ParseGroup, [t], [[n]]);
    RawGroupsOfWrapped("", [t]);
    assert "" + Wrapped([t]) == Wrapped([t]);
    SuffixesAgree(Wrapped([t]), [t], [[n]]);
    assert |Strings([n])[0]| < |Tokens(t)[0]|;
    assert [[n]][0] == [n] && [t][0] == t;
  }
}
