/**
 * The formula lexer of generateGrammar. Every whitespace word holding `(`,
 * `)` or `,` is split into pieces, kept in a dictionary keyed by the word;
 * each entry is then spliced over the first occurrence of its word, and a
 * last loop drops empty strings from the list while iterating over it.
 */
module Lexer {
  import opened Wrappers
  import opened Text

  predicate IsSeparator(p: string)
  {
    p == "(" || p == ")" || p == ","
  }

  /** A word the lexer leaves as it is: it holds none of `(`, `)`, `,`, or it
      is exactly one of them. */
  predicate Plain(w: string)
  {
    ('(' !in w && ')' !in w && ',' !in w) || IsSeparator(w)
  }

  /** No two neighbouring pieces are both empty. */
  predicate NoAdjacentEmpty(s: seq<string>)
  {
    forall k :: 0 <= k < |s| - 1 ==> s[k] != "" || s[k + 1] != ""
  }

  /** Every piece at an odd position is non-empty (a separator). */
  predicate OddNonEmpty(s: seq<string>)
  {
    forall k :: 0 <= k < |s| && k % 2 == 1 ==> s[k] != ""
  }

  /** `prev_idx` after the comma loop has run over `cs` from `prev`. */
  function After(cs: seq<nat>, prev: nat): nat
  {
    if cs == [] then prev else cs[|cs| - 1] + 1
  }

  /** What the comma loop appends: `[term[prev_idx:idx], ',']` for each comma
      position `idx` of `cs`, `prev_idx` moving past each comma. */
  function Fields(t: string, cs: seq<nat>, prev: nat): seq<string>
    decreases |cs|
  {
    if cs == [] then []
    else
      var init := cs[..|cs| - 1];
      Fields(t, init, prev) + [Slice(t, After(init, prev), cs[|cs| - 1]), ","]
  }

  /** Position `2k` of the comma loop's output is the slice up to the `k`-th
      comma, position `2k + 1` is the comma. */
  lemma {:induction false} FieldsAt(t: string, cs: seq<nat>, prev: nat)
    ensures |Fields(t, cs, prev)| == 2 * |cs|
    ensures forall k :: 0 <= k < |cs| ==>
      Fields(t, cs, prev)[2 * k] == Slice(t, After(cs[..k], prev), cs[k]) && Fields(t, cs, prev)[2 * k + 1] == ","
    decreases |cs|
  {
    if cs != [] {
      var n := |cs| - 1;
      var init := cs[..n];
      FieldsAt(t, init, prev);
      var head := Fields(t, init, prev);
      var r := Fields(t, cs, prev);
      assert r == head + [Slice(t, After(init, prev), cs[n]), ","];
      forall k | 0 <= k < |cs|
        ensures r[2 * k] == Slice(t, After(cs[..k], prev), cs[k]) && r[2 * k + 1] == ","
      {
        if k < n {
          assert cs[..k] == init[..k] && cs[k] == init[k];
          assert r[2 * k] == head[2 * k] && r[2 * k + 1] == head[2 * k + 1];
        } else {
          assert cs[..k] == init;
        }
      }
    }
  }

  /** The positions `cs` rise strictly. */
  predicate Increasing(cs: seq<nat>)
  {
    forall k, l :: 0 <= k < l < |cs| ==> cs[k] < cs[l]
  }

  /** Every position of `cs` holds a comma of `t`. */
  predicate CommasAt(t: string, cs: seq<nat>)
  {
    forall k :: 0 <= k < |cs| ==> cs[k] < |t| && t[cs[k]] == ','
  }

  lemma CommasAtPrefix(t: string, cs: seq<nat>, n: nat)
    requires n <= |cs| && Increasing(cs) && CommasAt(t, cs)
    ensures Increasing(cs[..n]) && CommasAt(t, cs[..n])
  {
    assert forall k :: 0 <= k < n ==> cs[..n][k] == cs[k];
  }

  /** One step of the comma loop extends the joined text up to the comma. */
  lemma FieldsConcatStep(t: string, head: seq<string>, prev: nat, a: nat, c: nat)
    requires prev <= a <= c < |t| && t[c] == ','
    requires Concat(head) == t[prev..a]
    ensures Concat(head + [Slice(t, a, c), ","]) == t[prev..c + 1]
  {
    var last := [Slice(t, a, c), ","];
    ConcatAppend(head, last);
    ConcatTwo(Slice(t, a, c), ",");
    assert Slice(t, a, c) == t[a..c] && "," == [t[c]];
    SliceSplit(t, prev, a, c);
  }

  lemma SliceSplit(t: string, lo: nat, mid: nat, c: nat)
    requires lo <= mid <= c < |t|
    ensures t[lo..c + 1] == t[lo..mid] + (t[mid..c] + [t[c]])
  {
    assert t[lo..c + 1] == t[lo..mid] + t[mid..c + 1];
  }

  lemma {:induction false} FieldsConcat(t: string, cs: seq<nat>, prev: nat)
    requires prev <= |t| && Increasing(cs) && CommasAt(t, cs)
    requires cs != [] ==> prev <= cs[0]
    ensures prev <= After(cs, prev) <= |t|
    ensures Concat(Fields(t, cs, prev)) == t[prev..After(cs, prev)]
    decreases |cs|
  {
    if cs != [] {
      var n := |cs| - 1;
      var init := cs[..n];
      CommasAtPrefix(t, cs, n);
      FieldsConcat(t, init, prev);
      var a := After(init, prev);
      assert n > 0 ==> a == cs[n - 1] + 1 && cs[n - 1] < cs[n];
      assert cs[n] < |t| && t[cs[n]] == ',';
      FieldsConcatStep(t, Fields(t, init, prev), prev, a, cs[n]);
    }
  }

  /** `term_list += term[prev_idx:]` in case 3a: adding a string to a list adds
      its characters one by one. */
  function Chars(s: string): (r: seq<string>)
    ensures |r| == |s| && forall k :: 0 <= k < |s| ==> r[k] == [s[k]]
  {
    seq(|s|, k requires 0 <= k < |s| => [s[k]])
  }

  /** Case 1, a predicate or equality written without spaces:
      `[term[:idx1], '(']`, the comma loop from `idx1 + 1`, then
      `[term[prev_idx:idx2], ')', term[idx2+1:]]`. */
  function SplitBoth(t: string): seq<string>
    requires '(' in t && ')' in t
  {
    SplitAround(t, IndexOf(t, '(').value, IndexOf(t, ')').value)
  }

  /** Case 1 with the brackets at `o` and `c`. */
  function SplitAround(t: string, o: nat, c: nat): seq<string>
    requires o < |t| && c < |t|
  {
    var cs := Positions(t, ',');
    [t[..o], "("] + Fields(t, cs, o + 1) + [Slice(t, After(cs, o + 1), c), ")", t[c + 1..]]
  }

  /** Case 2a, the end of a predicate's arguments: the comma loop from 0, then
      `[term[prev_idx:idx1], ')', term[idx1+1:]]`. */
  function SplitClosing(t: string): seq<string>
    requires ')' in t
  {
    SplitClosingAt(t, IndexOf(t, ')').value)
  }

  /** Case 2a with the closing bracket at `c`. */
  function SplitClosingAt(t: string, c: nat): seq<string>
    requires c < |t|
  {
    var cs := Positions(t, ',');
    Fields(t, cs, 0) + [Slice(t, After(cs, 0), c), ")", t[c + 1..]]
  }

  /** Case 3a, the start of a predicate's arguments: `[term[:idx1], '(']`, the
      comma loop from `idx1 + 1`, then the rest of the word character by character. */
  function SplitOpening(t: string): seq<string>
    requires '(' in t
  {
    SplitOpeningAt(t, IndexOf(t, '(').value)
  }

  /** Case 3a with the opening bracket at `o`. */
  function SplitOpeningAt(t: string, o: nat): seq<string>
    requires o < |t|
  {
    var cs := Positions(t, ',');
    [t[..o], "("] + Fields(t, cs, o + 1) + Chars(Slice(t, After(cs, o + 1), |t|))
  }

  /** Cases 2b, 3b and 4: `[term[:idx1], x, term[idx1+1:]]` at the first `x`. */
  function SplitAt(t: string, x: char): (r: seq<string>)
    requires x in t
    ensures |r| == 3 && r[1] == [x] && Concat(r) == t
    ensures x !in r[0]
  {
    var i := IndexOf(t, x).value;
    ConcatThree(t[..i], [x], t[i + 1..]);
    assert t == t[..i] + [x] + t[i + 1..];
    [t[..i], [x], t[i + 1..]]
  }

  /** The entry `bracket_terms[term]` the lexer makes for a word, or None when
      it makes none. */
  function SplitWord(t: string): (r: Option<seq<string>>)
    ensures r.None? <==> Plain(t)
  {
    if '(' in t && ')' in t then Some(SplitBoth(t))
    else if ')' in t then
      if ',' in t then Some(SplitClosing(t))
      else if |t| > 1 then Some(SplitAt(t, ')'))
      else None
    else if '(' in t then
      if ',' in t then Some(SplitOpening(t))
      else if |t| > 1 then Some(SplitAt(t, '('))
      else None
    else if ',' in t && |t| > 1 then Some(SplitAt(t, ','))
    else None
  }

  lemma OddNonEmptyNoAdjacent(s: seq<string>)
    requires OddNonEmpty(s)
    ensures NoAdjacentEmpty(s)
  {
    forall k | 0 <= k < |s| - 1 ensures s[k] != "" || s[k + 1] != "" {
      if k % 2 == 0 {
        assert (k + 1) % 2 == 1;
      }
    }
  }

  lemma OddNonEmptyAppend(a: seq<string>, b: seq<string>)
    requires OddNonEmpty(a) && |a| % 2 == 0 && OddNonEmpty(b)
    ensures OddNonEmpty(a + b)
  {
    forall k | 0 <= k < |a + b| && k % 2 == 1 ensures (a + b)[k] != "" {
      if k >= |a| {
        assert (k - |a|) % 2 == 1;
      }
    }
  }

  lemma {:induction false} FieldsOddNonEmpty(t: string, cs: seq<nat>, prev: nat)
    ensures |Fields(t, cs, prev)| % 2 == 0 && OddNonEmpty(Fields(t, cs, prev))
    decreases |cs|
  {
    if cs != [] {
      var init := cs[..|cs| - 1];
      FieldsOddNonEmpty(t, init, prev);
      OddNonEmptyAppend(Fields(t, init, prev), [Slice(t, After(init, prev), cs[|cs| - 1]), ","]);
    }
  }

  /** The shape of case 1: a prefix, `(`, the comma loop's output, an
      argument, `)` and a suffix. */
  lemma BracketedNoAdjacentEmpty(prefix: string, fields: seq<string>, last: string, suffix: string)
    requires |fields| % 2 == 0 && OddNonEmpty(fields)
    ensures NoAdjacentEmpty([prefix, "("] + fields + [last, ")", suffix])
  {
    OddNonEmptyAppend([prefix, "("], fields);
    OddNonEmptyAppend([prefix, "("] + fields, [last, ")", suffix]);
    OddNonEmptyNoAdjacent([prefix, "("] + fields + [last, ")", suffix]);
  }

  lemma SplitBothNoAdjacentEmpty(t: string)
    requires '(' in t && ')' in t
    ensures NoAdjacentEmpty(SplitBoth(t))
  {
    var cs := Positions(t, ',');
    var o := IndexOf(t, '(').value;
    var c := IndexOf(t, ')').value;
    FieldsOddNonEmpty(t, cs, o + 1);
    BracketedNoAdjacentEmpty(t[..o], Fields(t, cs, o + 1), Slice(t, After(cs, o + 1), c), t[c + 1..]);
  }

  lemma SplitClosingNoAdjacentEmpty(t: string)
    requires ')' in t
    ensures NoAdjacentEmpty(SplitClosing(t))
  {
    var cs := Positions(t, ',');
    var c := IndexOf(t, ')').value;
    var fields := Fields(t, cs, 0);
    var tail := [Slice(t, After(cs, 0), c), ")", t[c + 1..]];
    FieldsOddNonEmpty(t, cs, 0);
    OddNonEmptyAppend(fields, tail);
    OddNonEmptyNoAdjacent(fields + tail);
  }

  /** The shape of case 3a: a prefix, `(`, the comma loop's output, then
      single characters. */
  lemma OpenedNoAdjacentEmpty(prefix: string, fields: seq<string>, rest: string)
    requires |fields| % 2 == 0 && OddNonEmpty(fields)
    ensures NoAdjacentEmpty([prefix, "("] + fields + Chars(rest))
  {
    var head := [prefix, "("] + fields;
    var tail := Chars(rest);
    OddNonEmptyAppend([prefix, "("], fields);
    var r := head + tail;
    forall k | 0 <= k < |r| - 1 ensures r[k] != "" || r[k + 1] != "" {
      if k + 1 < |head| {
        if k % 2 == 0 {
          assert (k + 1) % 2 == 1;
        }
      } else {
        assert r[k + 1] == tail[k + 1 - |head|];
      }
    }
  }

  lemma SplitOpeningNoAdjacentEmpty(t: string)
    requires '(' in t
    ensures NoAdjacentEmpty(SplitOpening(t))
  {
    var cs := Positions(t, ',');
    var o := IndexOf(t, '(').value;
    FieldsOddNonEmpty(t, cs, o + 1);
    OpenedNoAdjacentEmpty(t[..o], Fields(t, cs, o + 1), Slice(t, After(cs, o + 1), |t|));
  }

  /** The pieces of a word never hold two empty strings side by side: every
      other piece is a separator, or a character of the case-3a tail. */
  lemma SplitWordNoAdjacentEmpty(t: string)
    requires SplitWord(t).Some?
    ensures NoAdjacentEmpty(SplitWord(t).value)
  {
    if '(' in t && ')' in t {
      SplitBothNoAdjacentEmpty(t);
    } else if ')' in t && ',' in t {
      SplitClosingNoAdjacentEmpty(t);
    } else if '(' in t && ',' in t {
      SplitOpeningNoAdjacentEmpty(t);
    } else {
      var r := SplitWord(t).value;
      assert |r| == 3 && r[1] != "";
      OddNonEmptyNoAdjacent(r);
    }
  }

  /** The first `(` comes before the first `)` and every comma lies between them. */
  predicate CommasInside(t: string)
    requires '(' in t && ')' in t
  {
    var o := IndexOf(t, '(').value;
    var c := IndexOf(t, ')').value;
    o < c && forall i :: 0 <= i < |t| && t[i] == ',' ==> o < i < c
  }

  /** Every comma of `t` is at one of the positions `cs`. */
  predicate CoversCommas(t: string, cs: seq<nat>)
  {
    forall i :: 0 <= i < |t| && t[i] == ',' ==> i in cs
  }

  /** A slice that none of the comma positions `cs` falls into holds no comma. */
  lemma SliceAvoidingCommas(t: string, cs: seq<nat>, lo: nat, hi: nat)
    requires CoversCommas(t, cs)
    requires forall m :: 0 <= m < |cs| ==> cs[m] < lo || hi <= cs[m]
    ensures ',' !in Slice(t, lo, hi)
  {
    var s := Slice(t, lo, hi);
    forall i | 0 <= i < |s| ensures s[i] != ',' {
      var p := lo + i;
      assert s[i] == t[p];
      assert t[p] == ',' ==> p in cs;
    }
  }

  /** Between two neighbouring commas there is no comma. */
  lemma FieldsCommaFree(t: string, cs: seq<nat>, prev: nat)
    requires CoversCommas(t, cs)
    requires forall k, l :: 0 <= k < l < |cs| ==> cs[k] < cs[l]
    ensures |Fields(t, cs, prev)| == 2 * |cs|
    ensures forall j :: 0 <= j < |cs| ==> ',' !in Fields(t, cs, prev)[2 * j]
  {
    FieldsAt(t, cs, prev);
    forall j | 0 <= j < |cs| ensures ',' !in Fields(t, cs, prev)[2 * j] {
      var lo := After(cs[..j], prev);
      assert j > 0 ==> lo == cs[j - 1] + 1;
      forall m | 0 <= m < |cs| ensures cs[m] < lo || cs[j] <= cs[m] {
        if m < j {
          assert cs[m] <= cs[j - 1];
        }
      }
      SliceAvoidingCommas(t, cs, lo, cs[j]);
    }
  }

  /** The pieces between `(` and `)` at even positions hold no comma. */
  predicate ArgsCommaFree(r: seq<string>)
  {
    forall k :: 2 <= k < |r| - 2 && k % 2 == 0 ==> ',' !in r[k]
  }

  lemma BracketedArgsCommaFree(prefix: string, fields: seq<string>, last: string, suffix: string, r: seq<string>)
    requires |fields| % 2 == 0 && ',' !in last
    requires forall j :: 0 <= j < |fields| / 2 ==> ',' !in fields[2 * j]
    requires r == [prefix, "("] + fields + [last, ")", suffix]
    ensures ArgsCommaFree(r)
  {
    forall k | 2 <= k < |r| - 2 && k % 2 == 0 ensures ',' !in r[k] {
      if k - 2 < |fields| {
        assert r[k] == fields[2 * ((k - 2) / 2)];
      } else {
        assert r[k] == last;
      }
    }
  }

  /** The arguments of a case-1 split hold no comma when every comma lies
      between the brackets. */
  lemma CompoundArgsCommaFree(t: string)
    requires '(' in t && ')' in t && CommasInside(t)
    ensures ArgsCommaFree(SplitBoth(t))
  {
    var cs := Positions(t, ',');
    var o := IndexOf(t, '(').value;
    var c := IndexOf(t, ')').value;
    FieldsCommaFree(t, cs, o + 1);
    var a := After(cs, o + 1);
    assert forall m :: 0 <= m < |cs| ==> cs[m] < a;
    SliceAvoidingCommas(t, cs, a, c);
    BracketedArgsCommaFree(t[..o], Fields(t, cs, o + 1), Slice(t, a, c), t[c + 1..], SplitBoth(t));
  }

  lemma JoinBracketed(prefix: string, fields: seq<string>, last: string, suffix: string)
    ensures Concat([prefix, "("] + fields + [last, ")", suffix])
         == prefix + "(" + Concat(fields) + last + ")" + suffix
  {
    ConcatAppend([prefix, "("] + fields, [last, ")", suffix]);
    ConcatAppend([prefix, "("], fields);
    ConcatTwo(prefix, "(");
    ConcatThree(last, ")", suffix);
  }

  lemma CutAround(t: string, o: nat, a: nat, c: nat)
    requires o < a <= c < |t| && t[o] == '(' && t[c] == ')'
    ensures t[..o] + "(" + t[o + 1..a] + t[a..c] + ")" + t[c + 1..] == t
  {
    assert t[..o] + "(" == t[..o + 1];
    assert t[..o + 1] + t[o + 1..a] == t[..a];
    assert t[..a] + t[a..c] == t[..c];
    assert t[..c] + ")" == t[..c + 1];
  }

  /** Joining `[t[:o], '(']`, the comma loop's output over commas between
      `o` and `c`, and `[t[prev:c], ')', t[c+1:]]` gives `t` back. */
  lemma BracketedConcat(t: string, o: nat, c: nat, cs: seq<nat>)
    requires o < c < |t| && t[o] == '(' && t[c] == ')'
    requires forall k :: 0 <= k < |cs| ==> o < cs[k] < c
    requires Increasing(cs) && CommasAt(t, cs)
    ensures Concat([t[..o], "("] + Fields(t, cs, o + 1) + [Slice(t, After(cs, o + 1), c), ")", t[c + 1..]]) == t
  {
    var a := After(cs, o + 1);
    FieldsConcat(t, cs, o + 1);
    assert o + 1 <= a <= c;
    JoinBracketed(t[..o], Fields(t, cs, o + 1), Slice(t, a, c), t[c + 1..]);
    CutAround(t, o, o + 1 + (a - o - 1), c);
  }

  /** Joining the pieces of a case-1 split gives the word back. */
  lemma CompoundConcat(t: string)
    requires '(' in t && ')' in t && CommasInside(t)
    ensures Concat(SplitBoth(t)) == t
  {
    var cs := Positions(t, ',');
    var o := IndexOf(t, '(').value;
    var c := IndexOf(t, ')').value;
    BracketedConcat(t, o, c, cs);
  }

  /** `[prefix, '(', arg, ',', ..., arg, ')', suffix]`, every odd piece between
      the brackets a comma. */
  predicate CompoundShape(r: seq<string>, prefix: string, suffix: string)
  {
    && 5 <= |r| && r[0] == prefix && r[1] == "(" && r[|r| - 2] == ")" && r[|r| - 1] == suffix
    && forall k :: 2 <= k < |r| - 2 && k % 2 == 1 ==> r[k] == ","
  }

  lemma BracketedShape(prefix: string, fields: seq<string>, n: nat, last: string, suffix: string, r: seq<string>)
    requires |fields| == 2 * n
    requires forall j :: 0 <= j < n ==> fields[2 * j + 1] == ","
    requires r == [prefix, "("] + fields + [last, ")", suffix]
    ensures |r| == |fields| + 5 && CompoundShape(r, prefix, suffix)
  {
    forall k | 2 <= k < |r| - 2 && k % 2 == 1 ensures r[k] == "," {
      assert r[k] == fields[2 * ((k - 2) / 2) + 1];
    }
  }

  lemma SplitBothUnfold(t: string, o: nat, c: nat, cs: seq<nat>)
    requires '(' in t && ')' in t
    requires IndexOf(t, '(') == Some(o) && IndexOf(t, ')') == Some(c) && cs == Positions(t, ',')
    ensures SplitBoth(t) == [t[..o], "("] + Fields(t, cs, o + 1) + [Slice(t, After(cs, o + 1), c), ")", t[c + 1..]]
  {
    assert SplitBoth(t) == SplitAround(t, o, c);
  }

  /** A word with both brackets, its commas between them, becomes
      `[prefix, '(', arg, ',', ..., arg, ')', suffix]`: the arguments are free
      of commas, and joining the pieces gives the word back. */
  lemma CompoundPieces(t: string, o: nat, c: nat)
    requires '(' in t && ')' in t && CommasInside(t)
    requires IndexOf(t, '(') == Some(o) && IndexOf(t, ')') == Some(c)
    ensures SplitWord(t) == Some(SplitBoth(t))
    ensures |SplitBoth(t)| == 2 * |Positions(t, ',')| + 5
    ensures CompoundShape(SplitBoth(t), t[..o], t[c + 1..])
    ensures ArgsCommaFree(SplitBoth(t)) && Concat(SplitBoth(t)) == t
  {
    var cs := Positions(t, ',');
    var fields := Fields(t, cs, o + 1);
    FieldsAt(t, cs, o + 1);
    SplitBothUnfold(t, o, c, cs);
    BracketedShape(t[..o], fields, |cs|, Slice(t, After(cs, o + 1), c), t[c + 1..], SplitBoth(t));
    CompoundArgsCommaFree(t);
    CompoundConcat(t);
  }

  // ---------------------------------------------------------------------------
  // The dictionary, the splice and the removal loop

  /** The keys of `bracket_terms` in insertion order: each word that gets an
      entry, once, at its first occurrence. */
  function CompoundWords(f: seq<string>): (ks: seq<string>)
    ensures forall w :: w in ks <==> w in f && !Plain(w)
    ensures forall i, j :: 0 <= i < j < |ks| ==> ks[i] != ks[j]
  {
    if f == [] then []
    else
      var ks := CompoundWords(f[..|f| - 1]);
      var w := f[|f| - 1];
      assert f == f[..|f| - 1] + [w];
      if !Plain(w) && w !in ks then ks + [w] else ks
  }

  /** The first loop at one more word: the word becomes a key when it gets an
      entry and is not a key yet. */
  lemma CompoundWordsSnoc(f: seq<string>, w: string)
    ensures CompoundWords(f + [w]) == if !Plain(w) && w !in CompoundWords(f) then CompoundWords(f) + [w] else CompoundWords(f)
  {
    assert (f + [w])[..|f|] == f;
  }

  /** Python's dictionary keeps insertion order, so the keys come in the
      order of their first occurrence in the formula. */
  lemma {:induction false} CompoundWordsInOrder(f: seq<string>)
    ensures var ks := CompoundWords(f);
      forall i, j :: 0 <= i < j < |ks| ==> IndexOf(f, ks[i]).value < IndexOf(f, ks[j]).value
  {
    if f != [] {
      var init := f[..|f| - 1];
      var w := f[|f| - 1];
      assert f == init + [w];
      CompoundWordsInOrder(init);
      CompoundWordsSnoc(init, w);
      var ks0 := CompoundWords(init);
      var ks := CompoundWords(f);
      forall k | k in ks0 ensures IndexOf(f, k) == IndexOf(init, k) {
        var i := IndexOf(init, k).value;
        assert f[..i] == init[..i];
        IndexOfAt(f, k, i);
      }
      if !Plain(w) && w !in ks0 {
        assert w !in init;
        IndexOfAt(f, w, |f| - 1);
        forall i, j | 0 <= i < j < |ks|
          ensures IndexOf(f, ks[i]).value < IndexOf(f, ks[j]).value
        {
          assert ks[i] == ks0[i] && ks[i] in ks0;
          if j < |ks0| {
            assert ks[j] == ks0[j] && ks[j] in ks0;
          }
        }
      }
    }
  }

  /** What replaces a word in the formula: its dictionary entry, or the word. */
  function Pieces(w: string): seq<string>
  {
    match SplitWord(w)
    case Some(ps) => ps
    case None => [w]
  }

  /** `formula[:idx] + v + formula[idx+1:]` with `idx = formula.index(k)`; the
      formula is left as it is when `k` is missing, where Python would raise
      (`SpliceFindsEveryKey` shows it never is). */
  function ReplaceFirst(f: seq<string>, k: string, v: seq<string>): seq<string>
  {
    match IndexOf(f, k)
    case Some(i) => f[..i] + v + f[i + 1..]
    case None => f
  }

  /** The formula after the splice loop has run over the keys `ks`. */
  function SpliceAll(f: seq<string>, ks: seq<string>): seq<string>
  {
    if ks == [] then f
    else
      var k := ks[|ks| - 1];
      ReplaceFirst(SpliceAll(f, ks[..|ks| - 1]), k, Pieces(k))
  }

  /** Python's `list.remove(x)`: drop the first `x`. */
  function RemoveFirst(r: seq<string>, x: string): seq<string>
  {
    match IndexOf(r, x)
    case Some(i) => r[..i] + r[i + 1..]
    case None => r
  }

  /** `for term in formula: if term == '': formula.remove(term)` from the
      iterator's position `i` on: removing shifts the list left under the
      iterator, so the element after a removed one is skipped. */
  function RemovalLoop(r: seq<string>, i: nat): seq<string>
    decreases |r| - i
  {
    if i >= |r| then r
    else if r[i] == "" then RemovalLoop(RemoveFirst(r, ""), i + 1)
    else RemovalLoop(r, i + 1)
  }

  /** The list without its empty strings. */
  function NonEmpty(r: seq<string>): seq<string>
  {
    if r == [] then []
    else (if r[0] == "" then [] else [r[0]]) + NonEmpty(r[1..])
  }

  /** The formula generateGrammar returns for the formula words `f`. */
  function LexSpec(f: seq<string>): seq<string>
  {
    RemovalLoop(SpliceAll(f, CompoundWords(f)), 0)
  }

  // ---------------------------------------------------------------------------
  // Properties of the splice and the removal loop

  /** Replacing the first `last` keeps every other word of the list. */
  lemma ReplaceKeepsOthers(g: seq<string>, last: string, v: seq<string>, k: string)
    requires k in g && k != last
    ensures k in ReplaceFirst(g, last, v)
  {
    var j := IndexOf(g, k).value;
    match IndexOf(g, last)
    case None =>
    case Some(i) =>
      var h := g[..i] + v + g[i + 1..];
      if j < i {
        assert h[j] == g[j];
      } else {
        assert h[j - 1 + |v|] == g[j];
      }
  }

  /** A key the splice has not reached yet is still in the formula, so
      `formula.index(k)` never raises. */
  lemma {:induction false} SpliceKeepsLaterKeys(f: seq<string>, ks: seq<string>, k: string)
    requires k in f && k !in ks
    ensures k in SpliceAll(f, ks)
    decreases |ks|
  {
    if ks != [] {
      var init := ks[..|ks| - 1];
      var last := ks[|ks| - 1];
      assert ks == init + [last];
      SpliceKeepsLaterKeys(f, init, k);
      ReplaceKeepsOthers(SpliceAll(f, init), last, Pieces(last), k);
    }
  }

  lemma SpliceFindsEveryKey(f: seq<string>, j: nat)
    requires j < |CompoundWords(f)|
    ensures CompoundWords(f)[j] in SpliceAll(f, CompoundWords(f)[..j])
  {
    var ks := CompoundWords(f);
    assert ks[j] !in ks[..j];
    SpliceKeepsLaterKeys(f, ks[..j], ks[j]);
  }

  lemma {:induction false} NonEmptyAppend(a: seq<string>, b: seq<string>)
    ensures NonEmpty(a + b) == NonEmpty(a) + NonEmpty(b)
    decreases |a|
  {
    if a != [] {
      assert (a + b)[1..] == a[1..] + b;
      NonEmptyAppend(a[1..], b);
    } else {
      assert a + b == b;
    }
  }

  lemma NonEmptyOfPlain(r: seq<string>)
    requires "" !in r
    ensures NonEmpty(r) == r
    decreases |r|
  {
    if r != [] {
      NonEmptyOfPlain(r[1..]);
    }
  }

  lemma NonEmptyConsEmpty(b: seq<string>)
    ensures NonEmpty([""] + b) == NonEmpty(b)
  {
    assert ([""] + b)[1..] == b;
  }

  lemma NonEmptyEmptyAt(r: seq<string>, i: nat)
    requires i < |r| && r[i] == ""
    ensures NonEmpty(r[..i] + r[i + 1..]) == NonEmpty(r)
  {
    var a := r[..i];
    var b := r[i + 1..];
    assert r == a + ([""] + b);
    NonEmptyAppend(a, [""] + b);
    NonEmptyConsEmpty(b);
    NonEmptyAppend(a, b);
  }

  /** Dropping an empty string does not change the non-empty words. */
  lemma RemoveEmptyKeepsWords(r: seq<string>)
    ensures NonEmpty(RemoveFirst(r, "")) == NonEmpty(r)
  {
    match IndexOf(r, "")
    case None =>
    case Some(i) =>
      NonEmptyEmptyAt(r, i);
  }

  /** The removal loop drops only empty strings: the words it keeps are the
      words of the list, in order. */
  lemma {:induction false} RemovalKeepsWords(r: seq<string>, i: nat)
    ensures NonEmpty(RemovalLoop(r, i)) == NonEmpty(r)
    ensures |RemovalLoop(r, i)| <= |r|
    decreases |r| - i
  {
    if i < |r| {
      if r[i] == "" {
        RemoveEmptyKeepsWords(r);
        RemovalKeepsWords(RemoveFirst(r, ""), i + 1);
      } else {
        RemovalKeepsWords(r, i + 1);
      }
    }
  }

  /** `list.remove('')` removes the empty string at `i` when none comes before it. */
  lemma RemoveFirstAt(r: seq<string>, i: nat)
    requires i < |r| && r[i] == "" && "" !in r[..i]
    ensures RemoveFirst(r, "") == r[..i] + r[i + 1..]
  {
    var v := IndexOf(r, "").value;
    forall j | 0 <= j < i ensures r[j] != "" {
      assert r[..i][j] == r[j];
    }
    forall j | 0 <= j < v ensures r[j] != "" {
      assert r[..v][j] == r[j];
    }
  }

  lemma NoAdjacentSuffix(s: seq<string>, n: nat)
    requires n <= |s| && NoAdjacentEmpty(s)
    ensures NoAdjacentEmpty(s[n..])
  {
    forall k | 0 <= k < |s[n..]| - 1 ensures s[n..][k] != "" || s[n..][k + 1] != "" {
      assert s[n..][k] == s[n + k] && s[n..][k + 1] == s[n + k + 1];
    }
  }

  /** An empty string followed by a word contributes only the word. */
  lemma NonEmptyEmptyThenWord(t: seq<string>)
    requires 2 <= |t| && t[0] == "" && t[1] != ""
    ensures NonEmpty(t) == [t[1]] + NonEmpty(t[2..])
  {
    assert t[1..][1..] == t[2..];
    assert NonEmpty(t[1..]) == [t[1]] + NonEmpty(t[2..]);
  }

  /** One step of the removal loop at the first empty string: the string is
      removed and the iterator moves on, past the element that took its place. */
  lemma RemovalStepAtEmpty(r: seq<string>, i: nat)
    requires i < |r| && r[i] == "" && "" !in r[..i]
    ensures RemovalLoop(r, i) == RemovalLoop(r[..i] + r[i + 1..], i + 1)
  {
    RemoveFirstAt(r, i);
  }

  /** After that step, when a word followed the empty string, the list up to
      the iterator still holds no empty string and the rest keeps its words. */
  lemma EmptyThenWordShape(r: seq<string>, i: nat, r': seq<string>)
    requires i + 1 < |r| && r[i] == "" && "" !in r[..i] && NoAdjacentEmpty(r[i..])
    requires r' == r[..i] + r[i + 1..]
    ensures "" !in r'[..i + 1] && NoAdjacentEmpty(r'[i + 1..])
    ensures r'[..i + 1] + NonEmpty(r'[i + 1..]) == r[..i] + NonEmpty(r[i..])
  {
    var t := r[i..];
    assert t[1] == r[i + 1] != "";
    NonEmptyEmptyThenWord(t);
    assert r'[..i + 1] == r[..i] + [r[i + 1]];
    assert r'[i + 1..] == t[2..];
    NoAdjacentSuffix(t, 2);
  }

  /** One step of the removal loop at a word: nothing changes. */
  lemma RemovalStepAtWord(r: seq<string>, i: nat)
    requires i < |r| && r[i] != "" && "" !in r[..i] && NoAdjacentEmpty(r[i..])
    ensures && RemovalLoop(r, i) == RemovalLoop(r, i + 1)
      && "" !in r[..i + 1] && NoAdjacentEmpty(r[i + 1..])
      && r[..i + 1] + NonEmpty(r[i + 1..]) == r[..i] + NonEmpty(r[i..])
  {
    var t := r[i..];
    assert r[..i + 1] == r[..i] + [r[i]];
    assert t[1..] == r[i + 1..];
    assert NonEmpty(t) == [r[i]] + NonEmpty(t[1..]);
    NoAdjacentSuffix(t, 1);
  }

  /** When no two empty strings are neighbours, the removal loop drops every
      empty string. */
  lemma {:induction false} RemovalWithoutAdjacent(r: seq<string>, i: nat)
    requires i <= |r| && "" !in r[..i] && NoAdjacentEmpty(r[i..])
    ensures RemovalLoop(r, i) == r[..i] + NonEmpty(r[i..])
    decreases |r| - i
  {
    if i == |r| {
      assert r[..i] == r;
    } else if r[i] != "" {
      RemovalStepAtWord(r, i);
      RemovalWithoutAdjacent(r, i + 1);
    } else if i + 1 < |r| {
      RemovalStepAtEmpty(r, i);
      EmptyThenWordShape(r, i, r[..i] + r[i + 1..]);
      RemovalWithoutAdjacent(r[..i] + r[i + 1..], i + 1);
    } else {
      RemoveFirstAt(r, i);
      assert r[..i] + r[i + 1..] == r[..i];
      assert r[i..][1..] == [];
    }
  }

  lemma {:induction false} NoCompoundWords(f: seq<string>)
    requires forall k :: 0 <= k < |f| ==> Plain(f[k])
    ensures CompoundWords(f) == []
  {
    if f != [] {
      NoCompoundWords(f[..|f| - 1]);
    }
  }

  lemma {:induction false} NonEmptyHasNoEmpty(r: seq<string>)
    ensures "" !in NonEmpty(r) && |NonEmpty(r)| <= |r|
  {
    if r != [] {
      NonEmptyHasNoEmpty(r[1..]);
    }
  }

  /** A formula of plain words comes back unchanged. */
  lemma LexKeepsPlainFormula(f: seq<string>)
    requires forall k :: 0 <= k < |f| ==> f[k] != "" && Plain(f[k])
    ensures LexSpec(f) == f
  {
    NoCompoundWords(f);
    assert "" !in f;
    RemovalWithoutAdjacent(f, 0);
    assert f[..0] == [] && f[0..] == f;
    NonEmptyOfPlain(f);
  }

  lemma {:induction false} CompoundWordsPlainTail(f: seq<string>, r: seq<string>)
    requires forall k :: 0 <= k < |r| ==> Plain(r[k])
    ensures CompoundWords(f + r) == CompoundWords(f)
    decreases |r|
  {
    if r == [] {
      assert f + r == f;
    } else {
      var r' := r[..|r| - 1];
      assert (f + r)[..|f + r| - 1] == f + r';
      CompoundWordsPlainTail(f, r');
    }
  }

  lemma NoAdjacentFramed(left: seq<string>, p: seq<string>, right: seq<string>)
    requires "" !in left && "" !in right && NoAdjacentEmpty(p)
    ensures NoAdjacentEmpty(left + p + right)
  {
    var s := left + p + right;
    forall k | 0 <= k < |s| - 1 ensures s[k] != "" || s[k + 1] != "" {
      if k < |left| {
        assert s[k] == left[k];
      } else if k + 1 < |left| + |p| {
        assert s[k] == p[k - |left|] && s[k + 1] == p[k + 1 - |left|];
      } else {
        assert s[k + 1] == right[k + 1 - |left| - |p|];
      }
    }
  }

  /** The only word with a dictionary entry is `w`. */
  lemma CompoundWordsSingle(left: seq<string>, w: string, right: seq<string>)
    requires forall k :: 0 <= k < |left| ==> Plain(left[k])
    requires forall k :: 0 <= k < |right| ==> Plain(right[k])
    requires !Plain(w)
    ensures CompoundWords(left + [w] + right) == [w]
  {
    NoCompoundWords(left);
    CompoundWordsSnoc(left, w);
    CompoundWordsPlainTail(left + [w], right);
  }

  /** `formula.index(w)` finds `w` just after `left` when `left` lacks it. */
  lemma ReplaceFirstAfter(left: seq<string>, w: string, right: seq<string>, v: seq<string>)
    requires w !in left
    ensures ReplaceFirst(left + [w] + right, w, v) == left + v + right
  {
    var f := left + [w] + right;
    assert f[|left|] == w;
    assert f[..|left|] == left && f[|left| + 1..] == right;
    assert IndexOf(f, w) == Some(|left|);
  }

  lemma SpliceSingle(left: seq<string>, w: string, right: seq<string>)
    requires forall k :: 0 <= k < |left| ==> Plain(left[k])
    requires forall k :: 0 <= k < |right| ==> Plain(right[k])
    requires !Plain(w)
    ensures SpliceAll(left + [w] + right, CompoundWords(left + [w] + right)) == left + Pieces(w) + right
  {
    CompoundWordsSingle(left, w, right);
    assert w !in left;
    SpliceOnlyKey(left + [w] + right, left, w, right);
  }

  /** With one key, the splice puts the key's pieces in place of its first
      occurrence. */
  lemma SpliceOnlyKey(f: seq<string>, left: seq<string>, w: string, right: seq<string>)
    requires f == left + [w] + right && w !in left
    ensures SpliceAll(f, [w]) == left + Pieces(w) + right
  {
    assert [w][..0] == [];
    ReplaceFirstAfter(left, w, right, Pieces(w));
  }

  lemma NonEmptyFramed(left: seq<string>, p: seq<string>, right: seq<string>)
    requires "" !in left && "" !in right
    ensures NonEmpty(left + p + right) == left + NonEmpty(p) + right
  {
    NonEmptyAppend(left + p, right);
    NonEmptyAppend(left, p);
    NonEmptyOfPlain(left);
    NonEmptyOfPlain(right);
  }

  /** A formula with one compound word among plain words: the word's pieces,
      without their empty strings, take its place. */
  lemma LexReplacesInPlace(left: seq<string>, w: string, right: seq<string>)
    requires forall k :: 0 <= k < |left| ==> left[k] != "" && Plain(left[k])
    requires forall k :: 0 <= k < |right| ==> right[k] != "" && Plain(right[k])
    requires !Plain(w)
    ensures LexSpec(left + [w] + right) == left + NonEmpty(SplitWord(w).value) + right
  {
    var p := SplitWord(w).value;
    var s := left + p + right;
    SpliceSingle(left, w, right);
    SplitWordNoAdjacentEmpty(w);
    assert "" !in left && "" !in right;
    NoAdjacentFramed(left, p, right);
    RemovalWithoutAdjacent(s, 0);
    assert s[..0] == [] && s[0..] == s;
    NonEmptyFramed(left, p, right);
  }

  // ---------------------------------------------------------------------------
  // The lexer's quirks, on concrete words

  lemma {:induction false} CommaFreePositions(s: string)
    requires ',' !in s
    ensures Positions(s, ',') == []
    decreases |s|
  {
    if s != [] {
      var init := s[..|s| - 1];
      assert forall c :: c in init ==> c in s;
      CommaFreePositions(init);
    }
  }

  lemma OpeningExamplePositions(t: string)
    requires t == "P(x,yz"
    ensures IndexOf(t, '(') == Some(1)
    ensures Positions(t, ',') == [3]
  {
    CommaFreePositions("P(x");
    assert t[..5] == "P(x,y" && "P(x,y"[..4] == "P(x," && "P(x,"[..3] == "P(x";
  }

  lemma OpeningExampleFields(t: string)
    requires t == "P(x,yz"
    ensures Fields(t, [3], 2) == ["x", ","]
    ensures Chars(Slice(t, 4, 6)) == ["y", "z"]
  {
    assert [3][..0] == [];
    assert Fields(t, [], 2) == [];
    assert After([], 2) == 2;
    assert Slice(t, 2, 3) == t[2..3] == "x";
  }

  lemma OpeningExampleCase(t: string)
    requires t == "P(x,yz"
    ensures SplitWord(t) == Some(SplitOpening(t))
  {
    assert t[1] == '(' && t[3] == ',';
    assert ')' !in t;
  }

  lemma OpeningExampleUnfold(t: string)
    requires t == "P(x,yz"
    ensures SplitOpening(t) == [t[..1], "("] + Fields(t, [3], 2) + Chars(Slice(t, 4, 6))
  {
    OpeningExamplePositions(t);
    assert After([3], 2) == 4;
  }

  /** Case 3a adds the text after the last comma character by character, so an
      argument `yz` of a predicate opened in this word comes out as `y`, `z`. */
  lemma OpeningSplitsLastArgument(t: string)
    requires t == "P(x,yz"
    ensures SplitWord(t) == Some(["P", "(", "x", ",", "y", "z"])
  {
    OpeningExampleCase(t);
    OpeningExamplePieces(t);
  }

  lemma OpeningExamplePieces(t: string)
    requires t == "P(x,yz"
    ensures SplitOpening(t) == ["P", "(", "x", ",", "y", "z"]
  {
    OpeningExampleUnfold(t);
    OpeningExampleFields(t);
    OpeningExampleJoin(t[..1], Fields(t, [3], 2), Chars(Slice(t, 4, 6)));
  }

  lemma OpeningExampleJoin(prefix: string, fields: seq<string>, rest: seq<string>)
    requires prefix == "P" && fields == ["x", ","] && rest == ["y", "z"]
    ensures [prefix, "("] + fields + rest == ["P", "(", "x", ",", "y", "z"]
  {
  }

  lemma SimplePredicateCase(t: string)
    requires t == "P(x)"
    ensures SplitWord(t) == Some(SplitBoth(t))
  {
    assert t[1] == '(' && t[3] == ')';
  }

  lemma SimplePredicateUnfold(t: string)
    requires t == "P(x)"
    ensures SplitBoth(t) == [t[..1], "("] + Fields(t, [], 2) + [Slice(t, 2, 3), ")", t[4..]]
  {
    assert IndexOf(t, '(') == Some(1);
    assert IndexOf(t, ')') == Some(3);
    CommaFreePositions(t);
    assert After([], 2) == 2;
  }

  lemma SimplePredicateJoin(prefix: string, fields: seq<string>, arg: string, suffix: string)
    requires prefix == "P" && fields == [] && arg == "x" && suffix == ""
    ensures [prefix, "("] + fields + [arg, ")", suffix] == ["P", "(", "x", ")", ""]
  {
  }

  /** A predicate written without spaces ends in an empty piece: what follows
      its `)` in the word. */
  lemma SimplePredicatePieces(t: string)
    requires t == "P(x)"
    ensures SplitWord(t) == Some(["P", "(", "x", ")", ""])
  {
    SimplePredicateCase(t);
    SimplePredicateUnfold(t);
    assert Fields(t, [], 2) == [];
    assert Slice(t, 2, 3) == t[2..3] == "x";
    assert t[..1] == "P" && t[4..] == "";
    SimplePredicateJoin(t[..1], Fields(t, [], 2), Slice(t, 2, 3), t[4..]);
  }

  lemma RepeatedWordKeys(f: seq<string>, w: string)
    requires w == "P(x)" && f == [w, w]
    ensures CompoundWords(f) == [w]
  {
    assert !Plain(w) by {
      assert w[1] == '(';
    }
    CompoundWordsSnoc([], w);
    assert [] + [w] == [w];
    assert CompoundWords([w]) == [w];
    CompoundWordsSnoc([w], w);
    assert [w] + [w] == f;
  }

  lemma RepeatedWordSplice(f: seq<string>, w: string)
    requires w == "P(x)" && f == [w, w]
    ensures SpliceAll(f, CompoundWords(f)) == ["P", "(", "x", ")", "", "P(x)"]
  {
    RepeatedWordKeys(f, w);
    SpliceOnlyKey(f, [], w, [w]);
    SimplePredicatePieces(w);
  }

  lemma RepeatedWordRemoval(r: seq<string>)
    requires r == ["P", "(", "x", ")", "", "P(x)"]
    ensures RemovalLoop(r, 0) == ["P", "(", "x", ")", "P(x)"]
  {
    var r' := ["P", "(", "x", ")", "P(x)"];
    assert "" !in r[..4];
    RemovalStepAtEmpty(r, 4);
    assert r[..4] + r[5..] == r';
    RemovalSkipsWords(r, 0, 4);
  }

  /** The splice replaces only the first occurrence of each dictionary key, so
      a compound word written twice is split once. */
  lemma RepeatedWordSplitOnce(f: seq<string>, w: string)
    requires w == "P(x)" && f == [w, w]
    ensures LexSpec(f) == ["P", "(", "x", ")", "P(x)"]
  {
    RepeatedWordSplice(f, w);
    RepeatedWordRemoval(SpliceAll(f, CompoundWords(f)));
  }

  /** The removal loop walks past words without changing the list. */
  lemma {:induction false} RemovalSkipsWords(r: seq<string>, i: nat, j: nat)
    requires i <= j <= |r| && forall k :: i <= k < j ==> r[k] != ""
    ensures RemovalLoop(r, i) == RemovalLoop(r, j)
    decreases j - i
  {
    if i < j {
      RemovalSkipsWords(r, i + 1, j);
    }
  }

  /** A word ending in `)` leaves an empty piece after it. */
  lemma ClosingEndExample(w: string)
    requires w == "x)"
    ensures SplitWord(w) == Some(["x", ")", ""])
  {
    assert w[1] == ')' && '(' !in w && ',' !in w;
    assert IndexOf(w, ')') == Some(1);
    assert w[..1] == "x" && w[2..] == "";
  }

  /** A word starting with `(` leaves an empty piece before it. */
  lemma OpeningEndExample(w: string)
    requires w == "(y"
    ensures SplitWord(w) == Some(["", "(", "y"])
  {
    assert w[0] == '(' && ')' !in w && ',' !in w;
    assert IndexOf(w, '(') == Some(0);
    assert w[..0] == "" && w[1..] == "y";
  }

  lemma NeighbouringEmptiesCompoundWords(f: seq<string>, a: string, b: string)
    requires a == "x)" && b == "(y" && f == [a, b]
    ensures CompoundWords(f) == [a, b]
  {
    assert !Plain(a) by {
      assert a[1] == ')';
    }
    CompoundWordsSnoc([], a);
    assert [] + [a] == [a];
    assert CompoundWords([a]) == [a];
    assert !Plain(b) && b != a by {
      assert b[0] == '(' && a[0] != '(';
    }
    CompoundWordsSnoc([a], b);
    assert [a] + [b] == f;
  }

  /** Splicing the two words of a two-word formula, the second not among
      the pieces of the first. */
  lemma SpliceTwo(f: seq<string>, a: string, b: string, pa: seq<string>, pb: seq<string>)
    requires f == [a, b] && a != b && Pieces(a) == pa && Pieces(b) == pb && b !in pa
    ensures SpliceAll(f, [a, b]) == pa + pb
  {
    assert f == [] + [a] + [b];
    SpliceOnlyKey(f, [], a, [b]);
    assert SpliceAll(f, [a]) == pa + [b] + [];
    SpliceSnoc(f, [a], b);
    assert [a] + [b] == [a, b];
    ReplaceFirstAfter(pa, b, [], pb);
    assert pa + pb + [] == pa + pb;
  }

  lemma SpliceSnoc(f: seq<string>, ks: seq<string>, k: string)
    ensures SpliceAll(f, ks + [k]) == ReplaceFirst(SpliceAll(f, ks), k, Pieces(k))
  {
    assert (ks + [k])[..|ks|] == ks;
  }

  lemma NeighbouringEmptiesSplice(f: seq<string>, a: string, b: string)
    requires a == "x)" && b == "(y" && f == [a, b]
    ensures SpliceAll(f, [a, b]) == ["x", ")", "", "", "(", "y"]
  {
    ClosingEndExample(a);
    OpeningEndExample(b);
    var pa, pb := ["x", ")", ""], ["", "(", "y"];
    assert a != b && b !in pa;
    SpliceTwo(f, a, b, pa, pb);
  }

  lemma NeighbouringEmptiesRemoval(r: seq<string>)
    requires r == ["x", ")", "", "", "(", "y"]
    ensures RemovalLoop(r, 0) == ["x", ")", "", "(", "y"]
  {
    var r2 := ["x", ")", "", "(", "y"];
    assert "" !in r[..2];
    RemovalStepAtEmpty(r, 2);
    assert r[..2] + r[3..] == r2;
    RemovalSkipsWords(r, 0, 2);
    RemovalSkipsWords(r2, 3, 5);
  }

  /** Removing from the list being iterated over skips the element after each
      removed one, so of two neighbouring empty strings one survives. */
  lemma NeighbouringEmptiesSurvive(f: seq<string>, a: string, b: string)
    requires a == "x)" && b == "(y" && f == [a, b]
    ensures LexSpec(f) == ["x", ")", "", "(", "y"]
  {
    NeighbouringEmptiesCompoundWords(f, a, b);
    NeighbouringEmptiesSplice(f, a, b);
    NeighbouringEmptiesRemoval(SpliceAll(f, [a, b]));
  }

  // ---------------------------------------------------------------------------
  // The lexer's loops

  /** `for idx in comma_index: term_list += [term[prev_idx:idx], ','];
      prev_idx = idx+1`. */
  method CommaLoop(t: string, cs: seq<nat>, prev: nat) returns (pieces: seq<string>, next: nat)
    ensures pieces == Fields(t, cs, prev) && next == After(cs, prev)
  {
    pieces := [];
    next := prev;
    for i := 0 to |cs|
      invariant pieces == Fields(t, cs[..i], prev) && next == After(cs[..i], prev)
    {
      assert cs[..i + 1][..i] == cs[..i];
      pieces := pieces + [Slice(t, next, cs[i]), ","];
      next := cs[i] + 1;
    }
    assert cs[..|cs|] == cs;
  }

  /** Case 1 of the first loop's body. */
  method SplitBothTerm(t: string) returns (pieces: seq<string>)
    requires '(' in t && ')' in t
    ensures pieces == SplitBoth(t)
  {
    var idx1 := IndexOf(t, '(').value;
    var idx2 := IndexOf(t, ')').value;
    var fields, prevIdx := CommaLoop(t, Positions(t, ','), idx1 + 1);
    pieces := [t[..idx1], "("] + fields + [Slice(t, prevIdx, idx2), [t[idx2]], t[idx2 + 1..]];
  }

  /** Case 2a of the first loop's body. */
  method SplitClosingTerm(t: string) returns (pieces: seq<string>)
    requires ')' in t
    ensures pieces == SplitClosing(t)
  {
    var idx1 := IndexOf(t, ')').value;
    var fields, prevIdx := CommaLoop(t, Positions(t, ','), 0);
    pieces := fields + [Slice(t, prevIdx, idx1), ")", t[idx1 + 1..]];
  }

  /** Case 3a of the first loop's body. */
  method SplitOpeningTerm(t: string) returns (pieces: seq<string>)
    requires '(' in t
    ensures pieces == SplitOpening(t)
  {
    var idx1 := IndexOf(t, '(').value;
    var fields, prevIdx := CommaLoop(t, Positions(t, ','), idx1 + 1);
    pieces := [t[..idx1], "("] + fields + Chars(Slice(t, prevIdx, |t|));
  }

  /** The body of the first loop for one word: the entry it stores in
      `bracket_terms`, or None. */
  method SplitTerm(t: string) returns (entry: Option<seq<string>>)
    ensures entry == SplitWord(t)
  {
    if '(' in t && ')' in t {
      var pieces := SplitBothTerm(t);
      entry := Some(pieces);
    } else if ')' in t {
      if ',' in t {
        var pieces := SplitClosingTerm(t);
        entry := Some(pieces);
      } else if |t| > 1 {
        var idx1 := IndexOf(t, ')').value;
        entry := Some([t[..idx1], ")", t[idx1 + 1..]]);
      } else {
        entry := None;
      }
    } else if '(' in t {
      if ',' in t {
        var pieces := SplitOpeningTerm(t);
        entry := Some(pieces);
      } else if |t| > 1 {
        var idx1 := IndexOf(t, '(').value;
        entry := Some([t[..idx1], "(", t[idx1 + 1..]]);
      } else {
        entry := None;
      }
    } else if ',' in t && |t| > 1 {
      var idx1 := IndexOf(t, ',').value;
      entry := Some([t[..idx1], ",", t[idx1 + 1..]]);
    } else {
      entry := None;
    }
  }

  /** `for term in formula: if term == '': formula.remove(term)`, with the
      iterator's position kept by hand. */
  method RemoveEmpty(f: seq<string>) returns (r: seq<string>)
    ensures r == RemovalLoop(f, 0)
    ensures NonEmpty(r) == NonEmpty(f)
  {
    r := f;
    var i := 0;
    while i < |r|
      invariant RemovalLoop(r, i) == RemovalLoop(f, 0)
      decreases |r| - i
    {
      if r[i] == "" {
        var idx := IndexOf(r, "").value;
        r := r[..idx] + r[idx + 1..];
      }
      i := i + 1;
    }
    RemovalKeepsWords(f, 0);
  }

  /** The first loop: `bracket_terms[term] = ...` for every word that gets an
      entry; `keys` keeps the dictionary's insertion order. */
  method CollectTerms(formula: seq<string>) returns (keys: seq<string>, terms: map<string, seq<string>>)
    ensures keys == CompoundWords(formula)
    ensures forall w :: w in terms <==> w in keys
    ensures forall w :: w in terms ==> terms[w] == SplitWord(w).value
  {
    keys := [];
    terms := map[];
    for i := 0 to |formula|
      invariant keys == CompoundWords(formula[..i])
      invariant forall w :: w in terms <==> w in keys
      invariant forall w :: w in terms ==> SplitWord(w).Some? && terms[w] == SplitWord(w).value
    {
      var term := formula[i];
      assert formula[..i + 1][..i] == formula[..i];
      var entry := SplitTerm(term);
      if entry.Some? {
        if term !in terms {
          keys := keys + [term];
        }
        terms := terms[term := entry.value];
      }
    }
    assert formula[..|formula|] == formula;
  }

  lemma SpliceStep(f: seq<string>, ks: seq<string>, j: nat)
    requires j < |ks|
    ensures SpliceAll(f, ks[..j + 1]) == ReplaceFirst(SpliceAll(f, ks[..j]), ks[j], Pieces(ks[j]))
  {
    assert ks[..j + 1][..j] == ks[..j];
  }

  /** `idx = formula.index(k)` and `formula[:idx] + v + formula[idx+1:]`. */
  method SpliceAt(cur: seq<string>, k: string, v: seq<string>) returns (next: seq<string>)
    requires k in cur
    ensures next == ReplaceFirst(cur, k, v)
  {
    var idx := IndexOf(cur, k).value;
    next := cur[..idx] + v + cur[idx + 1..];
  }

  /** The second loop: the splice, for each entry in insertion order. */
  method SpliceTerms(formula: seq<string>, keys: seq<string>, terms: map<string, seq<string>>) returns (cur: seq<string>)
    requires keys == CompoundWords(formula)
    requires forall w :: w in keys ==> w in terms && terms[w] == SplitWord(w).value
    ensures cur == SpliceAll(formula, keys)
  {
    cur := formula;
    for j := 0 to |keys|
      invariant cur == SpliceAll(formula, keys[..j])
    {
      var k := keys[j];
      SpliceStep(formula, keys, j);
      SpliceFindsEveryKey(formula, j);
      assert terms[k] == Pieces(k);
      cur := SpliceAt(cur, k, terms[k]);
    }
    assert keys[..|keys|] == keys;
  }

  /** The formula part of generateGrammar: build `bracket_terms`, splice each
      entry over the first occurrence of its word, then drop empty strings. */
  method Lex(formula: seq<string>) returns (result: seq<string>)
    ensures result == LexSpec(formula)
  {
    var keys, terms := CollectTerms(formula);
    var spliced := SpliceTerms(formula, keys, terms);
    result := RemoveEmpty(spliced);
  }
}
