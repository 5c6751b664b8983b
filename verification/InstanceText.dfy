/** Instance shapes of the check generator, such as "(4,8)(8,4)": the parser, the suffix that
    the C++ tool prints from the parsed shape, and the suffix that the Bazel rule computes
    from the text without parsing it. */
module InstanceText {
  import opened Options

  type Instance = seq<seq<int>>

  const INT64_LIMIT := 0x8000_0000_0000_0000

  // ----- string library calls -----

  /** Position of the first `c` from `i` on, or the length. */
  function Find(s: string, c: char, i: nat): (k: nat)
    requires i <= |s|
    ensures i <= k <= |s|
    decreases |s| - i
  {
    if i == |s| || s[i] == c then i else Find(s, c, i + 1)
  }

  /** `split` at a character; empty pieces are kept. */
  function Split(s: string, c: char): (parts: seq<string>)
    ensures |parts| > 0
    decreases |s|
  {
    var k := Find(s, c, 0);
    if k == |s| then [s] else [s[..k]] + Split(s[k + 1..], c)
  }

  function Join(parts: seq<string>, sep: string): string {
    if |parts| == 0 then "" else if |parts| == 1 then parts[0] else parts[0] + sep + Join(parts[1..], sep)
  }

  predicate IsSpace(c: char) {
    c == ' ' || c == '\t' || c == '\n' || c == '\r' || c == '\U{000B}' || c == '\U{000C}'
  }

  function Trim(s: string): string {
    if s == [] then []
    else if IsSpace(s[0]) then Trim(s[1..])
    else if IsSpace(s[|s| - 1]) then Trim(s[..|s| - 1])
    else s
  }

  predicate IsDigits(s: string) {
    forall k :: 0 <= k < |s| ==> '0' <= s[k] <= '9'
  }

  function Value(s: string): nat
    requires IsDigits(s)
  {
    if s == [] then 0 else Value(s[..|s| - 1]) * 10 + (s[|s| - 1] as int - '0' as int)
  }

  /** `getAsInteger(10, int64_t)`: an optional minus sign, then only digits, in range. */
  function GetAsInteger(s: string): Option<int> {
    var negative := |s| > 0 && s[0] == '-';
    var digits := if negative then s[1..] else s;
    if digits == [] || !IsDigits(digits) then None
    else
      var n: int := Value(digits);
      var v := if negative then -n else n;
      if -INT64_LIMIT <= v < INT64_LIMIT then Some(v) else None
  }

  function Decimal(n: nat): string {
    if n < 10 then ['0' + n as char] else Decimal(n / 10) + ['0' + (n % 10) as char]
  }

  /** `std::to_string`. */
  function ToString(v: int): string {
    if v < 0 then "-" + Decimal(-v) else Decimal(v)
  }

  // ----- the parser -----

  /** `f` of every element, or nothing when it fails on one. */
  function MapOption<A, B>(f: A -> Option<B>, xs: seq<A>): Option<seq<B>> {
    if xs == [] then Some([])
    else
      var n := |xs| - 1;
      match (MapOption(f, xs[..n]), f(xs[n]))
      case (Some(ys), Some(y)) => Some(ys + [y])
      case _ => None
  }

  lemma {:induction false} MapOptionValues<A, B>(f: A -> Option<B>, xs: seq<A>, ys: seq<B>)
    requires |xs| == |ys| && forall k :: 0 <= k < |xs| ==> f(xs[k]) == Some(ys[k])
    ensures MapOption(f, xs) == Some(ys)
  {
    if xs != [] {
      var n := |xs| - 1;
      MapOptionValues(f, xs[..n], ys[..n]);
      assert ys == ys[..n] + [ys[n]];
    }
  }

  lemma {:induction false} MapOptionAt<A, B>(f: A -> Option<B>, xs: seq<A>, k: nat)
    requires MapOption(f, xs).Some? && k < |xs|
    ensures |MapOption(f, xs).value| == |xs| && f(xs[k]) == Some(MapOption(f, xs).value[k])
  {
    var n := |xs| - 1;
    if n > 0 {
      MapOptionAt(f, xs[..n], if k < n then k else 0);
    }
  }

  function ParseToken(t: string): Option<int> {
    GetAsInteger(Trim(t))
  }

  function ParseGroup(s: string): Option<seq<int>> {
    if s == [] then Some([]) else MapOption(ParseToken, Split(s, ','))
  }

  function Prepend(init: seq<string>, rest: Option<seq<string>>): Option<seq<string>> {
    match rest
    case Some(groups) => Some(init + groups)
    case None => None
  }

  /** The texts between the parentheses from position `i` on, or nothing when a parenthesis
      is missing. */
  function RawGroups(raw: string, i: nat): Option<seq<string>>
    requires i <= |raw|
    decreases |raw| - i
  {
    if i == |raw| then Some([])
    else
      var end := Find(raw, ')', i + 1);
      if raw[i] != '(' || end == |raw| then None
      else Prepend([raw[i + 1..end]], RawGroups(raw, end + 1))
  }

  function ParseGroups(groups: Option<seq<string>>): Option<Instance> {
    match groups
    case Some(texts) => MapOption(ParseGroup, texts)
    case None => None
  }

  /** An error and an empty text both give the empty list. */
  function Parsed(raw: string): Instance {
    match ParseGroups(RawGroups(raw, 0))
    case Some(groups) => groups
    case None => []
  }

  /** The token loop of `parseInstance`. */
  method ParseGroupText(groupRaw: string) returns (group: Option<seq<int>>)
    ensures group == ParseGroup(groupRaw)
  {
    var values: seq<int> := [];
    if groupRaw != [] {
      var tokens := Split(groupRaw, ',');
      for k := 0 to |tokens|
        invariant |values| == k && forall j :: 0 <= j < k ==> ParseToken(tokens[j]) == Some(values[j])
      {
        var v := ParseToken(tokens[k]);
        if v.None? {
          if MapOption(ParseToken, tokens).Some? { MapOptionAt(ParseToken, tokens, k); }
          return None;
        }
        values := values + [v.value];
      }
      MapOptionValues(ParseToken, tokens, values);
    }
    return Some(values);
  }

  lemma PrependStep(init: seq<string>, g: string, rest: Option<seq<string>>)
    ensures Prepend(init, Prepend([g], rest)) == Prepend(init + [g], rest)
    ensures Prepend([], rest) == rest
  {
    assert rest.Some? ==> init + ([g] + rest.value) == init + [g] + rest.value;
    assert rest.Some? ==> [] + rest.value == rest.value;
  }

  lemma BadGroupFails(texts: seq<string>, g: string, rest: Option<seq<string>>)
    requires ParseGroup(g) == None
    ensures ParseGroups(Prepend(texts + [g], rest)) == None
  {
    if ParseGroups(Prepend(texts + [g], rest)).Some? {
      MapOptionAt(ParseGroup, texts + [g] + rest.value, |texts|);
    }
  }

  /** One group further. */
  lemma NextGroup(raw: string, texts: seq<string>, i: nat, end: nat)
    requires i < |raw| && raw[i] == '(' && end == Find(raw, ')', i + 1) && end < |raw|
    ensures Prepend(texts, RawGroups(raw, i)) == Prepend(texts + [raw[i + 1..end]], RawGroups(raw, end + 1))
  {
    PrependStep(texts, raw[i + 1..end], RawGroups(raw, end + 1));
  }

  lemma AllParsed(texts: seq<string>, res: Instance)
    requires |res| == |texts| && forall k :: 0 <= k < |res| ==> ParseGroup(texts[k]) == Some(res[k])
    ensures ParseGroups(Prepend(texts, Some([]))) == Some(res)
  {
    assert texts + [] == texts;
    MapOptionValues(ParseGroup, texts, res);
  }

  /** `parseInstance`. */
  method ParseInstance(raw: string) returns (res: Instance)
    ensures res == Parsed(raw)
  {
    res := [];
    var i := 0;
    ghost var texts: seq<string> := [];
    PrependStep([], "", RawGroups(raw, 0));
    while i < |raw|
      invariant i <= |raw| && |res| == |texts|
      invariant RawGroups(raw, 0) == Prepend(texts, RawGroups(raw, i))
      invariant forall k :: 0 <= k < |res| ==> ParseGroup(texts[k]) == Some(res[k])
    {
      if raw[i] != '(' {
        return [];
      }
      var start := i + 1;
      var end := Find(raw, ')', start);
      if end == |raw| {
        return [];
      }
      var g := raw[start..end];
      var group := ParseGroupText(g);
      NextGroup(raw, texts, i, end);
      if group.None? {
        BadGroupFails(texts, g, RawGroups(raw, end + 1));
        return [];
      }
      res := res + [group.value];
      texts := texts + [g];
      i := end + 1;
    }
    AllParsed(texts, res);
  }

  // ----- the two suffixes -----

  function Strings(group: seq<int>): seq<string> {
    seq(|group|, k requires 0 <= k < |group| => ToString(group[k]))
  }

  function GroupTexts(inst: Instance, sep: string): seq<string> {
    seq(|inst|, k requires 0 <= k < |inst| => Join(Strings(inst[k]), sep))
  }

  /** The suffix of a parsed instance. */
  function Suffix(inst: Instance): string {
    "_" + Join(GroupTexts(inst, "_"), "-")
  }

  lemma {:induction false} JoinAppend(parts: seq<string>, p: string, sep: string)
    ensures Join(parts + [p], sep) == if parts == [] then p else Join(parts, sep) + sep + p
  {
    if |parts| > 1 {
      JoinAppend(parts[1..], p, sep);
      assert (parts + [p])[1..] == parts[1..] + [p];
    } else if |parts| == 1 {
      assert (parts + [p])[1..] == [p];
    }
  }

  /** The inner loop of the suffix printer. */
  method AppendGroup(prefix: string, group: seq<int>) returns (suffix: string)
    ensures suffix == prefix + Join(Strings(group), "_")
  {
    suffix := prefix;
    ghost var strings := Strings(group);
    for j := 0 to |group|
      invariant suffix == prefix + Join(strings[..j], "_")
    {
      assert strings[..j + 1] == strings[..j] + [strings[j]];
      JoinAppend(strings[..j], strings[j], "_");
      if j > 0 {
        suffix := suffix + "_";
      }
      suffix := suffix + ToString(group[j]);
    }
    assert strings[..|strings|] == strings;
  }

  function SuffixOf(texts: seq<string>): string {
    if texts == [] then "" else "_" + Join(texts, "-")
  }

  lemma SuffixGrows(texts: seq<string>, i: nat)
    requires i < |texts|
    ensures SuffixOf(texts[..i + 1]) == SuffixOf(texts[..i]) + (if i > 0 then "-" else "_") + texts[i]
  {
    assert texts[..i + 1] == texts[..i] + [texts[i]];
    JoinAppend(texts[..i], texts[i], "-");
    if i > 0 {
      assert "_" + (Join(texts[..i], "-") + "-" + texts[i]) == "_" + Join(texts[..i], "-") + "-" + texts[i];
    }
  }

  /** The suffix printer of `generateCheckTest`. */
  method PrintSuffix(inst: Instance) returns (suffix: string)
    ensures suffix == if inst == [] then "" else Suffix(inst)
  {
    suffix := "";
    ghost var texts := GroupTexts(inst, "_");
    for i := 0 to |inst|
      invariant suffix == SuffixOf(texts[..i])
    {
      SuffixGrows(texts, i);
      suffix := AppendGroup(suffix + (if i > 0 then "-" else "_"), inst[i]);
    }
    assert texts[..|texts|] == texts;
  }
}
