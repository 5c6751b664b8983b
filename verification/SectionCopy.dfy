/** The bare-metal section helpers of crt.S.  Memory is the array of all 2^30 words of the
    32-bit address space; registers hold byte addresses and wrap at 2^32. */
module SectionCopy {

  const BYTES := 0x1_0000_0000

  const WORDS := 0x4000_0000

  predicate IsRegister(a: int) {
    0 <= a < BYTES
  }

  /** `sub` and `addi` in a 32-bit register. */
  function Sub(a: int, b: int): int {
    (a - b) % BYTES
  }

  function Add4(a: int): int {
    (a + 4) % BYTES
  }

  // ----- the forward copy as a function on words -----

  function Wrap(size: nat, i: nat): nat {
    if i < size then i else i - size
  }

  /** Copies `n` words from word `s` to word `d`, first to last; the source index wraps. */
  function Forward(m: seq<int>, d: nat, s: nat, n: nat): (r: seq<int>)
    requires d + n <= |m| && s < |m|
    ensures |r| == |m|
    decreases n
  {
    if n == 0 then m
    else Forward(m[d := m[s]], d + 1, Wrap(|m|, s + 1), n - 1)
  }

  /** What a copy should leave: the old source words in the destination, nothing else changed. */
  ghost predicate Copied(m: seq<int>, r: seq<int>, d: nat, s: nat, n: nat)
    requires d + n <= |m| && s < |m|
  {
    && |r| == |m|
    && (forall w :: d <= w < d + n ==> r[w] == m[Wrap(|m|, s + (w - d))])
    && (forall w :: 0 <= w < |m| && !(d <= w < d + n) ==> r[w] == m[w])
  }

  /** Distance from the source up to the destination, modulo the memory size. */
  function Gap(size: nat, d: nat, s: nat): nat
    requires d < size && s < size
  {
    if s <= d then d - s else d + size - s
  }

  /** One word, and then the rest copied from the memory it leaves. */
  lemma CopiedFrom(m: seq<int>, r: seq<int>, d: nat, s: nat, n: nat)
    requires 0 < n && d + n <= |m| && s < |m| && (Gap(|m|, d, s) == 0 || Gap(|m|, d, s) >= n)
    requires Copied(m[d := m[s]], r, d + 1, Wrap(|m|, s + 1), n - 1)
    ensures Copied(m, r, d, s, n)
  {
    forall w | d < w < d + n ensures r[w] == m[Wrap(|m|, s + (w - d))] {
      assert Wrap(|m|, Wrap(|m|, s + 1) + (w - (d + 1))) == Wrap(|m|, s + (w - d));
    }
  }

  /** A gap of at least the length, or no gap at all, makes the forward copy exact. */
  lemma {:induction false} ForwardCopies(m: seq<int>, d: nat, s: nat, n: nat)
    requires d + n <= |m| && s < |m|
    requires d < |m| ==> Gap(|m|, d, s) == 0 || Gap(|m|, d, s) >= n
    ensures Copied(m, Forward(m, d, s, n), d, s, n)
    decreases n
  {
    if n > 0 {
      ForwardCopies(m[d := m[s]], d + 1, Wrap(|m|, s + 1), n - 1);
      CopiedFrom(m, Forward(m, d, s, n), d, s, n);
    }
  }

  lemma {:induction false} ForwardSplits(m: seq<int>, d: nat, s: nat, n: nat, g: nat)
    requires d + n <= |m| && s < |m| && g <= n
    ensures Forward(m, d, s, n) == Forward(Forward(m, d, s, g), d + g, Wrap(|m|, s + g), n - g)
    decreases n
  {
    if g > 0 {
      ForwardSplits(m[d := m[s]], d + 1, Wrap(|m|, s + 1), n - 1, g - 1);
    }
  }

  lemma {:induction false} ForwardKeeps(m: seq<int>, d: nat, s: nat, n: nat, w: nat)
    requires d + n <= |m| && s < |m| && w < d
    ensures Forward(m, d, s, n)[w] == m[w]
    decreases n
  {
    if n > 0 {
      ForwardKeeps(m[d := m[s]], d + 1, Wrap(|m|, s + 1), n - 1, w);
    }
  }

  lemma {:induction false} ForwardFirst(m: seq<int>, d: nat, s: nat, n: nat)
    requires 0 < n && d + n <= |m| && s < |m|
    ensures Forward(m, d, s, n)[d] == m[s]
  {
    ForwardKeeps(m[d := m[s]], d + 1, Wrap(|m|, s + 1), n - 1, d);
  }

  /** A smaller gap is destructive: the copy re-reads a word it has overwritten, and goes wrong
      on every memory whose first source and destination words differ. */
  lemma SmallGapDestroys(m: seq<int>, d: nat, s: nat, n: nat)
    requires d + n <= |m| && d < |m| && s < |m|
    requires 0 < Gap(|m|, d, s) < n && m[s] != m[d]
    ensures !Copied(m, Forward(m, d, s, n), d, s, n)
  {
    var g := Gap(|m|, d, s);
    assert Wrap(|m|, s + g) == d;
    ForwardSplits(m, d, s, n, g);
    ForwardFirst(m, d, s, g);
    ForwardFirst(Forward(m, d, s, g), d + g, d, n - g);
    assert Forward(m, d, s, n)[d + g] == m[s];
  }

  // ----- the routines -----

  /** The loop at `.L_copy_loop`: one word an iteration, tested at the bottom. */
  method CopyLoop(mem: array<int>, start: int, end: int, src: int)
    requires mem.Length == WORDS && 0 <= start < end < BYTES && IsRegister(src)
    requires start % 4 == end % 4 == src % 4 == 0
    modifies mem
    ensures mem[..] == Forward(old(mem[..]), start / 4, src / 4, (end - start) / 4)
  {
    ghost var m, d, w, n := mem[..], start / 4, src / 4, (end - start) / 4;
    var a0, a2 := start, src;
    var again := true;
    while again
      invariant 0 <= d && 0 <= w < WORDS && 0 <= n && d + n <= WORDS
      invariant a0 == 4 * d && a2 == 4 * w && end == a0 + 4 * n
      invariant again <==> n > 0
      invariant Forward(mem[..], d, w, n) == Forward(m, start / 4, src / 4, (end - start) / 4)
      decreases n, again
    {
      var word := mem[a2 / 4];
      ghost var before := mem[..];
      mem[a0 / 4] := word;
      assert mem[..] == before[d := before[w]];
      a2 := Add4(a2);
      a0 := Add4(a0);
      d, w, n := d + 1, Wrap(WORDS, w + 1), n - 1;
      again := a0 < end;
    }
  }

  /** `crt_section_copy`.  `trap` is the `ebreak` exit. */
  method CopySection(mem: array<int>, start: int, end: int, src: int) returns (trap: bool)
    requires mem.Length == WORDS && IsRegister(start) && IsRegister(end) && IsRegister(src)
    modifies mem
    ensures !trap <==> start == end ||
                       (start < end && start % 4 == end % 4 == src % 4 == 0 && Sub(start, src) >= end - start)
    ensures trap || start == end ==> mem[..] == old(mem[..])
    ensures !trap && start < end ==> Copied(old(mem[..]), mem[..], start / 4, src / 4, (end - start) / 4)
  {
    var a0, a2 := start, src;
    if a0 >= end {
      return a0 != end;
    }
    if a0 % 4 != 0 || end % 4 != 0 || a2 % 4 != 0 {
      return true;
    }
    var t0, t1 := Sub(a0, a2), Sub(end, a0);
    if t0 < t1 {
      return true;
    }
    ghost var m := mem[..];
    assert t0 == 4 * Gap(WORDS, start / 4, src / 4);
    CopyLoop(mem, start, end, src);
    ForwardCopies(m, start / 4, src / 4, (end - start) / 4);
    return false;
  }

  /** The overlap test is exact up to the self-copy: the loop it guards is a correct copy of
      every memory if and only if the test accepts or source and destination are the same. */
  lemma OverlapTestExact(m: seq<int>, start: int, end: int, src: int)
    requires |m| == WORDS && 0 <= start < end < BYTES && IsRegister(src)
    requires start % 4 == end % 4 == src % 4 == 0
    ensures Sub(start, src) >= end - start || start == src ==>
              Copied(m, Forward(m, start / 4, src / 4, (end - start) / 4), start / 4, src / 4, (end - start) / 4)
    ensures Sub(start, src) < end - start && start != src && m[src / 4] != m[start / 4] ==>
              !Copied(m, Forward(m, start / 4, src / 4, (end - start) / 4), start / 4, src / 4, (end - start) / 4)
  {
    var d, s, n := start / 4, src / 4, (end - start) / 4;
    assert Sub(start, src) == 4 * Gap(WORDS, d, s);
    if Sub(start, src) >= end - start || start == src {
      ForwardCopies(m, d, s, n);
    } else if m[s] != m[d] {
      SmallGapDestroys(m, d, s, n);
    }
  }

  /** `crt_section_clear`. */
  method ClearSection(mem: array<int>, start: int, end: int) returns (trap: bool)
    requires mem.Length == WORDS && IsRegister(start) && IsRegister(end)
    modifies mem
    ensures !trap <==> start == end || (start < end && start % 4 == end % 4 == 0)
    ensures trap || start == end ==> mem[..] == old(mem[..])
    ensures !trap && start < end ==>
              forall w :: 0 <= w < WORDS ==>
                mem[w] == if start / 4 <= w < end / 4 then 0 else old(mem[w])
  {
    var a0 := start;
    if a0 >= end {
      return a0 != end;
    }
    if a0 % 4 != 0 || end % 4 != 0 {
      return true;
    }
    var again := true;
    while again
      invariant start <= a0 <= end && a0 % 4 == 0
      invariant again <==> a0 < end
      invariant forall w :: 0 <= w < WORDS ==>
                  mem[w] == if start / 4 <= w < a0 / 4 then 0 else old(mem[w])
      decreases end - a0, again
    {
      mem[a0 / 4] := 0;
      a0 := Add4(a0);
      again := a0 < end;
    }
    return false;
  }
}
