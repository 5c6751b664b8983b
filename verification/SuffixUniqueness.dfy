/** Which instances share a suffix: a minus sign at the start of a group reads as a group
    separator, and nothing else is ambiguous. */
module SuffixUniqueness {
  import opened InstanceText
  import opened InstanceRoundTrip

  // ----- numerals and group texts -----

  function GroupText(g: seq<int>): string {
    Join(Strings(g), "_")
  }

  /** A minus sign stands first in a numeral, and then only if the number is negative. */
  lemma NumeralShape(v: int)
    ensures var t := ToString(v);
            && t != [] && AllNumeral(t) && t[|t| - 1] != '-'
            && (t[0] == '-' <==> v < 0) && (forall i :: 0 < i < |t| ==> t[i] != '-')
  {
    if v < 0 { DecimalReads(-v); } else { DecimalReads(v); }
  }

  lemma DecimalInjective(v: nat, w: nat)
    requires Decimal(v) == Decimal(w)
    ensures v == w
  {
    DecimalReads(v);
    DecimalReads(w);
  }

  lemma NumeralInjective(v: int, w: int)
    requires ToString(v) == ToString(w)
    ensures v == w
  {
    NumeralShape(v);
    NumeralShape(w);
    if v < 0 {
      assert ToString(v)[1..] == Decimal(-v) && ToString(w)[1..] == Decimal(-w);
      DecimalInjective(-v, -w);
    } else {
      DecimalInjective(v, w);
    }
  }

  /** In the text of a group every minus sign but a leading one follows an underscore. */
  ghost predicate Signs(t: string) {
    && (forall i :: 0 <= i < |t| ==> IsNumeral(t[i]) || t[i] == '_')
    && (forall i :: 0 < i < |t| && t[i] == '-' ==> t[i - 1] == '_')
    && (t != [] ==> t[|t| - 1] != '_')
  }

  lemma {:induction false} TextShape(g: seq<int>)
    ensures var t := GroupText(g);
            Signs(t) && (t == [] <==> g == []) && (g != [] ==> (t[0] == '-' <==> g[0] < 0))
    decreases |g|
  {
    if g != [] {
      NumeralShape(g[0]);
      assert Strings(g)[1..] == Strings(g[1..]);
      if |g| > 1 {
        TextShape(g[1..]);
        SignsAppend(ToString(g[0]), GroupText(g[1..]));
      }
    }
  }

  lemma SignsAppend(x: string, y: string)
    requires x != [] && AllNumeral(x) && (forall i :: 0 < i < |x| ==> x[i] != '-') && Signs(y) && y != []
    ensures Signs(x + "_" + y)
  {
    var t := x + "_" + y;
    forall i | 0 <= i < |t| ensures IsNumeral(t[i]) || t[i] == '_' {
      if i > |x| { assert t[i] == y[i - |x| - 1]; }
    }
    forall i | 0 < i < |t| && t[i] == '-' ensures t[i - 1] == '_' {
      if i > |x| + 1 { assert t[i] == y[i - |x| - 1] && t[i - 1] == y[i - |x| - 2]; }
    }
  }

  lemma {:induction false} TextInjective(g: seq<int>, h: seq<int>)
    requires GroupText(g) == GroupText(h)
    ensures g == h
  {
    TextShape(g);
    TextShape(h);
    if g != [] {
      TextSplit(g);
      TextSplit(h);
      assert |g| == |Strings(g)| == |Strings(h)| == |h|;
      forall k | 0 <= k < |g| ensures g[k] == h[k] {
        assert Strings(g)[k] == Strings(h)[k];
        NumeralInjective(g[k], h[k]);
      }
    }
  }

  lemma TextSplit(g: seq<int>)
    requires g != []
    ensures Split(GroupText(g), '_') == Strings(g)
  {
    forall k | 0 <= k < |g| ensures '_' !in Strings(g)[k] {
      NumeralShape(g[k]);
      NumeralExcludes(Strings(g)[k], '_');
    }
    SplitJoin(Strings(g), '_');
  }

  // ----- marking the signs -----

  /** Minus signs after an underscore are marked; what is left separates groups. */
  function Mark(s: string): (r: string)
    ensures |r| == |s|
  {
    seq(|s|, i requires 0 <= i < |s| => if s[i] == '-' && i > 0 && s[i - 1] == '_' then 'm' else s[i])
  }

  function Marks(ts: seq<string>): (r: seq<string>)
    ensures |r| == |ts|
  {
    seq(|ts|, k requires 0 <= k < |ts| => Mark(ts[k]))
  }

  lemma MarkAppend(x: string, y: string)
    requires x == [] || x[|x| - 1] != '_'
    ensures Mark(x + "-" + y) == Mark(x) + "-" + Mark(y)
  {
    var s, r := x + "-" + y, Mark(x) + "-" + Mark(y);
    forall i | 0 <= i < |s| ensures Mark(s)[i] == r[i] {
      if i > |x| { assert s[i] == y[i - |x| - 1]; }
      if i > |x| + 1 { assert s[i - 1] == y[i - |x| - 2]; }
    }
  }

  ghost predicate NoTrailing(ts: seq<string>) {
    forall k :: 0 <= k < |ts| ==> ts[k] == [] || ts[k][|ts[k]| - 1] != '_'
  }

  lemma {:induction false} MarkJoin(ts: seq<string>)
    requires NoTrailing(ts)
    ensures Mark(Join(ts, "-")) == Join(Marks(ts), "-")
    decreases |ts|
  {
    if |ts| > 1 {
      MarkJoin(ts[1..]);
      MarkAppend(ts[0], Join(ts[1..], "-"));
      assert Marks(ts)[1..] == Marks(ts[1..]);
    }
  }

  lemma MarkInjective(s: string, t: string)
    requires Signs(s) && Signs(t) && Mark(s) == Mark(t)
    ensures s == t
  {
    forall i | 0 <= i < |s| ensures s[i] == t[i] {
      assert Mark(s)[i] == Mark(t)[i];
    }
  }

  // ----- instances whose groups start without a sign -----

  predicate Unsigned(g: seq<int>) {
    g == [] || g[0] >= 0
  }

  predicate AllUnsigned(inst: Instance) {
    forall k :: 0 <= k < |inst| ==> Unsigned(inst[k])
  }

  lemma TextsSeparate(inst: Instance)
    requires AllUnsigned(inst)
    ensures var ts := GroupTexts(inst, "_");
            NoTrailing(ts) && forall k :: 0 <= k < |ts| ==> '-' !in Marks(ts)[k]
  {
    var ts := GroupTexts(inst, "_");
    forall k | 0 <= k < |ts| ensures (ts[k] == [] || ts[k][|ts[k]| - 1] != '_') && '-' !in Marks(ts)[k] {
      assert Unsigned(inst[k]) && ts[k] == GroupText(inst[k]);
      TextShape(inst[k]);
    }
  }

  lemma UnsignedInjective(a: Instance, b: Instance)
    requires AllUnsigned(a) && AllUnsigned(b) && a != [] && b != [] && Suffix(a) == Suffix(b)
    ensures a == b
  {
    var xs, ys := GroupTexts(a, "_"), GroupTexts(b, "_");
    assert Suffix(a)[1..] == Join(xs, "-") && Suffix(b)[1..] == Join(ys, "-");
    TextsSeparate(a);
    TextsSeparate(b);
    MarkJoin(xs);
    MarkJoin(ys);
    SplitJoin(Marks(xs), '-');
    SplitJoin(Marks(ys), '-');
    assert Marks(xs) == Marks(ys) && |xs| == |Marks(xs)| == |Marks(ys)| == |ys|;
    forall k | 0 <= k < |a| ensures a[k] == b[k] {
      assert Marks(xs)[k] == Marks(ys)[k] && xs[k] == GroupText(a[k]) && ys[k] == GroupText(b[k]);
      TextShape(a[k]);
      TextShape(b[k]);
      MarkInjective(xs[k], ys[k]);
      TextInjective(a[k], b[k]);
    }
  }

  // ----- splitting leading signs off -----

  /** A group that starts with -n reads as an empty group and one that starts with n. */
  function SplitSign(g: seq<int>): (r: Instance)
    ensures r != []
  {
    if Unsigned(g) then [g] else [[], [-g[0]] + g[1..]]
  }

  function Normal(inst: Instance): Instance {
    if inst == [] then [] else SplitSign(inst[0]) + Normal(inst[1..])
  }

  lemma {:induction false} NormalUnsigned(inst: Instance)
    ensures AllUnsigned(Normal(inst)) && (inst != [] ==> Normal(inst) != [])
    decreases |inst|
  {
    if inst != [] { NormalUnsigned(inst[1..]); }
  }

  lemma {:induction false} JoinConcat(xs: seq<string>, ys: seq<string>, sep: string)
    requires xs != [] && ys != []
    ensures Join(xs + ys, sep) == Join(xs, sep) + sep + Join(ys, sep)
    decreases |xs|
  {
    assert (xs + ys)[1..] == xs[1..] + ys;
    if |xs| > 1 {
      JoinConcat(xs[1..], ys, sep);
      var p, q := xs[0] + sep, Join(xs[1..], sep);
      assert p + (q + sep + Join(ys, sep)) == (p + q) + sep + Join(ys, sep);
    }
  }

  lemma {:induction false} SplitSignText(g: seq<int>)
    ensures Join(GroupTexts(SplitSign(g), "_"), "-") == GroupText(g)
  {
    if Unsigned(g) {
      assert GroupTexts([g], "_") == [GroupText(g)];
    } else {
      var h := [-g[0]] + g[1..];
      assert GroupTexts([[], h], "_") == ["", GroupText(h)];
      assert Join(["", GroupText(h)], "-") == "" + "-" + GroupText(h) by { assert ["", GroupText(h)][1..] == [GroupText(h)]; }
      assert Strings(h)[1..] == Strings(g)[1..];
      assert ToString(g[0]) == "-" + ToString(-g[0]);
    }
  }

  lemma TextsConcat(a: Instance, b: Instance)
    ensures GroupTexts(a + b, "_") == GroupTexts(a, "_") + GroupTexts(b, "_")
  {
  }

  /** Joining the texts of two lists of groups. */
  lemma {:induction false} JoinTexts(a: Instance, b: Instance)
    requires a != []
    ensures var x := Join(GroupTexts(a, "_"), "-");
            Join(GroupTexts(a + b, "_"), "-") == if b == [] then x else x + "-" + Join(GroupTexts(b, "_"), "-")
  {
    TextsConcat(a, b);
    if b == [] {
      assert a + b == a;
    } else {
      JoinConcat(GroupTexts(a, "_"), GroupTexts(b, "_"), "-");
    }
  }

  lemma {:induction false} NormalText(inst: Instance)
    ensures Join(GroupTexts(Normal(inst), "_"), "-") == Join(GroupTexts(inst, "_"), "-")
    decreases |inst|
  {
    if inst != [] {
      var g, rest := inst[0], inst[1..];
      NormalText(rest);
      NormalUnsigned(rest);
      JoinTexts(SplitSign(g), Normal(rest));
      JoinTexts([g], rest);
      assert inst == [g] + rest;
      SplitSignText(g);
      assert GroupTexts([g], "_") == [GroupText(g)];
    }
  }

  /** Exactly which instances share a suffix: those that are equal once leading signs are split
      off. */
  lemma SuffixShared(a: Instance, b: Instance)
    requires a != [] && b != []
    ensures Suffix(a) == Suffix(b) <==> Normal(a) == Normal(b)
  {
    NormalText(a);
    NormalText(b);
    NormalUnsigned(a);
    NormalUnsigned(b);
    if Suffix(a) == Suffix(b) { UnsignedInjective(Normal(a), Normal(b)); }
  }

  // ----- instances the parser can return -----

  /** No leading sign, or that of the least integer, whose absolute value is none. */
  predicate Clear(g: seq<int>) {
    Unsigned(g) || g[0] == -INT64_LIMIT
  }

  predicate AllClear(inst: Instance) {
    forall k :: 0 <= k < |inst| ==> Clear(inst[k])
  }

  lemma {:induction false} NormalInjective(a: Instance, b: Instance)
    requires ValidInstance(a) && ValidInstance(b) && AllClear(a) && AllClear(b) && Normal(a) == Normal(b)
    ensures a == b
    decreases |a|
  {
    NormalUnsigned(a);
    NormalUnsigned(b);
    if a != [] && b != [] {
      assert AllInt64(a[0]) && AllInt64(b[0]) && Clear(a[0]) && Clear(b[0]);
      HeadsAgree(a, b);
      NormalInjective(a[1..], b[1..]);
    }
  }

  lemma {:induction false} HeadsAgree(a: Instance, b: Instance)
    requires ValidInstance(a) && ValidInstance(b) && AllClear(a) && AllClear(b) && Normal(a) == Normal(b) && a != [] && b != []
    ensures a[0] == b[0] && Normal(a[1..]) == Normal(b[1..])
  {
    if Unsigned(a[0]) && !Unsigned(b[0]) {
      LeastHasNoTwin(b, a);
    } else if !Unsigned(a[0]) && Unsigned(b[0]) {
      LeastHasNoTwin(a, b);
    } else if Unsigned(a[0]) {
      assert Normal(a)[0] == a[0] && Normal(a)[1..] == Normal(a[1..]) && Normal(b)[1..] == Normal(b[1..]);
    } else {
      assert Normal(a)[1] == [-a[0][0]] + a[0][1..] && Normal(b)[1] == [-b[0][0]] + b[0][1..];
      assert a[0] == [a[0][0]] + Normal(a)[1][1..] && b[0] == [b[0][0]] + Normal(b)[1][1..];
      assert Normal(a)[2..] == Normal(a[1..]) && Normal(b)[2..] == Normal(b[1..]);
    }
  }

  /** A valid instance with the least integer in front of a group has no twin without it. */
  lemma {:induction false} LeastHasNoTwin(a: Instance, b: Instance)
    requires ValidInstance(b) && AllClear(b) && a != [] && b != [] && a[0] != [] && a[0][0] == -INT64_LIMIT && Unsigned(b[0])
    ensures Normal(a) != Normal(b)
  {
    assert Normal(a)[1] == [INT64_LIMIT] + a[0][1..];
    assert Normal(b) == [b[0]] + Normal(b[1..]);
    if |b| > 1 {
      assert AllInt64(b[1]) && Normal(b)[1] == SplitSign(b[1])[0];
    }
  }

  /** Among the instances that can be parsed, those with no leading sign never share a suffix. */
  lemma SuffixInjective(a: Instance, b: Instance)
    requires ValidInstance(a) && ValidInstance(b) && AllClear(a) && AllClear(b) && a != [] && b != [] && Suffix(a) == Suffix(b)
    ensures a == b
  {
    SuffixShared(a, b);
    NormalInjective(a, b);
  }

  /** Group `k` with its leading sign split off. */
  function Twin(inst: Instance, k: nat): Instance
    requires k < |inst|
  {
    inst[..k] + SplitSign(inst[k]) + inst[k + 1..]
  }

  lemma {:induction false} NormalConcat(a: Instance, b: Instance)
    ensures Normal(a + b) == Normal(a) + Normal(b)
    decreases |a|
  {
    if a == [] {
      assert a + b == b;
    } else {
      assert (a + b)[1..] == a[1..] + b;
      NormalConcat(a[1..], b);
    }
  }

  lemma {:induction false} NormalOfSplit(g: seq<int>)
    ensures Normal(SplitSign(g)) == SplitSign(g) == Normal([g])
  {
    var r := SplitSign(g);
    assert Normal([]) == [] && [g][1..] == [];
    if !Unsigned(g) { assert r[1..] == [r[1]] && Normal([r[1]]) == [r[1]] + Normal([]); }
  }

  lemma {:induction false} TwinNormal(pre: Instance, g: seq<int>, post: Instance)
    ensures Normal(pre + SplitSign(g) + post) == Normal(pre + [g] + post)
  {
    NormalConcat(pre + SplitSign(g), post);
    NormalConcat(pre, SplitSign(g));
    NormalOfSplit(g);
    NormalConcat(pre + [g], post);
    NormalConcat(pre, [g]);
  }

  lemma {:induction false} TwinValid(inst: Instance, k: nat)
    requires ValidInstance(inst) && k < |inst| && !Clear(inst[k])
    ensures ValidInstance(Twin(inst, k))
  {
    var t := Twin(inst, k);
    assert AllInt64(inst[k]);
    forall j | 0 <= j < |t| ensures AllInt64(t[j]) {
      if j < k { assert t[j] == inst[j]; } else if j > k + 1 { assert t[j] == inst[j - 1]; }
    }
  }

  /** Every other instance shares its suffix: a group that starts with -n can be replaced by an
      empty group and one that starts with n. */
  lemma {:induction false} SignCollides(inst: Instance, k: nat)
    requires ValidInstance(inst) && k < |inst| && !Clear(inst[k])
    ensures Twin(inst, k) == inst[..k] + [[], [-inst[k][0]] + inst[k][1..]] + inst[k + 1..]
    ensures ValidInstance(Twin(inst, k)) && Twin(inst, k) != inst && Suffix(Twin(inst, k)) == Suffix(inst)
  {
    TwinValid(inst, k);
    TwinNormal(inst[..k], inst[k], inst[k + 1..]);
    assert inst == inst[..k] + [inst[k]] + inst[k + 1..];
    SuffixShared(Twin(inst, k), inst);
    assert |Twin(inst, k)| == |inst| + 1;
  }
}
