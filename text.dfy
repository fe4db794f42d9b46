/**
 * The handful of Python string and list operations the parser relies on:
 * slicing with clamped bounds, `index`, `count`, `''.join`, a comprehension
 * of positions and repetition `s * n`.
 */
module Text {
  import opened Wrappers

  /** Python's `s[lo:hi]` for non-negative bounds: both are clamped to `|s|`
      and the slice is empty when `lo >= hi`. */
  function Slice(s: string, lo: nat, hi: nat): (r: string)
    ensures lo <= hi <= |s| ==> r == s[lo..hi]
    ensures hi <= lo ==> r == ""
    ensures lo <= |s| <= hi ==> r == s[lo..]
    ensures |s| <= lo ==> r == ""
  {
    var h := if hi <= |s| then hi else |s|;
    if lo < h then s[lo..h] else ""
  }

  /** Python's `xs.index(x)`, with `None` where Python raises. */
  function IndexOf<T(==)>(xs: seq<T>, x: T): (r: Option<nat>)
    ensures r.None? <==> x !in xs
    ensures r.Some? ==> r.value < |xs| && xs[r.value] == x && x !in xs[..r.value]
  {
    if xs == [] then None
    else
      var init := xs[..|xs| - 1];
      match IndexOf(init, x)
      case Some(i) =>
        assert init[..i] == xs[..i];
        Some(i)
      case None =>
        assert xs == init + [xs[|xs| - 1]];
        if xs[|xs| - 1] == x then Some(|xs| - 1) else None
  }

  /** A linear search that stops at the first match finds what `index` finds. */
  lemma IndexOfAt<T>(xs: seq<T>, x: T, i: nat)
    requires i < |xs| && xs[i] == x && x !in xs[..i]
    ensures IndexOf(xs, x) == Some(i)
  {
    var j := IndexOf(xs, x).value;
    forall k | 0 <= k < i ensures xs[k] != x {
      assert xs[..i][k] == xs[k];
    }
    forall k | 0 <= k < j ensures xs[k] != x {
      assert xs[..j][k] == xs[k];
    }
  }

  /** `[i for i in range(len(s)) if s[i] == c]`. */
  function Positions(s: string, c: char): (ps: seq<nat>)
    ensures forall k :: 0 <= k < |ps| ==> ps[k] < |s| && s[ps[k]] == c
    ensures forall i :: 0 <= i < |s| && s[i] == c ==> i in ps
    ensures forall k, l :: 0 <= k < l < |ps| ==> ps[k] < ps[l]
  {
    if s == [] then []
    else
      var ps := Positions(s[..|s| - 1], c);
      if s[|s| - 1] == c then ps + [|s| - 1] else ps
  }

  /** Python's `s.count(c)` for a one-character `c`. */
  function CountChar(s: string, c: char): nat
  {
    if s == [] then 0
    else CountChar(s[..|s| - 1], c) + (if s[|s| - 1] == c then 1 else 0)
  }

  lemma {:induction false} CountCharAppend(a: string, b: string, c: char)
    ensures CountChar(a + b, c) == CountChar(a, c) + CountChar(b, c)
    decreases |b|
  {
    if b == [] {
      assert a + b == a;
    } else {
      var b' := b[..|b| - 1];
      assert (a + b)[..|a + b| - 1] == a + b';
      CountCharAppend(a, b', c);
    }
  }

  /** `''.join(ss)`. */
  function Concat(ss: seq<string>): string
  {
    if ss == [] then "" else Concat(ss[..|ss| - 1]) + ss[|ss| - 1]
  }

  lemma {:induction false} ConcatAppend(a: seq<string>, b: seq<string>)
    ensures Concat(a + b) == Concat(a) + Concat(b)
    decreases |b|
  {
    if b == [] {
      assert a + b == a;
    } else {
      var b' := b[..|b| - 1];
      assert (a + b)[..|a + b| - 1] == a + b';
      ConcatAppend(a, b');
    }
  }

  lemma ConcatTwo(a: string, b: string)
    ensures Concat([a, b]) == a + b
  {
    assert [a, b][..1] == [a];
    assert [a][..0] == [];
    assert Concat([a]) == a;
  }

  lemma ConcatThree(a: string, b: string, c: string)
    ensures Concat([a, b, c]) == a + b + c
  {
    assert [a, b, c][..2] == [a, b];
    ConcatTwo(a, b);
  }

  /** Python's `s * n`, which is empty for `n <= 0`. */
  function Repeat(s: string, n: int): (r: string)
    ensures |r| == if n <= 0 then 0 else n * |s|
    decreases n
  {
    if n <= 0 then "" else s + Repeat(s, n - 1)
  }
}
