/**
 * The production rules derived from an alphabet declaration, and the
 * alternatives generated for each declared predicate token such as `P[2]`.
 */
module Grammar {
  import opened Wrappers
  import opened Text

  /** The rule table, one field per nonterminal. The term rule T is not kept:
      it only feeds the printed grammar, and the term handler hard-codes it. */
  datatype Grammar = Grammar(
    start: seq<string>,        // S
    bracketed: seq<string>,    // A
    equality: seq<string>,     // E
    quantifiers: seq<string>,  // Q
    variables: seq<string>,    // V
    constants: seq<string>,    // C
    predicates: seq<string>,   // P: one `name(V,...,V)` per predicate token
    connectives: seq<string>)  // J: the binary connectives

  /** What the parser takes for granted of the table it is given. */
  predicate WellFormed(g: Grammar)
  {
    && |g.equality| == 1
    && |g.start| == 4
    && |g.start[3]| >= 1
    && forall alt :: alt in g.predicates ==> '(' in alt
  }

  /** `S[-1][:-1]`: the unary connective, the last S alternative without its trailing `S`. */
  function Unary(g: Grammar): string
    requires WellFormed(g)
  {
    g.start[3][..|g.start[3]| - 1]
  }

  predicate IsDigit(c: char)
  {
    '0' <= c <= '9'
  }

  /** Where `re.search(r"\d", tok)` matches: the first decimal digit. */
  function FirstDigit(tok: string): (r: Option<nat>)
    ensures r.Some? ==> r.value < |tok| && IsDigit(tok[r.value])
    ensures r.Some? ==> forall k :: 0 <= k < r.value ==> !IsDigit(tok[k])
    ensures r.None? <==> forall k :: 0 <= k < |tok| ==> !IsDigit(tok[k])
  {
    if tok == [] then None
    else if IsDigit(tok[0]) then Some(0)
    else match FirstDigit(tok[1..])
      case None => None
      case Some(i) => Some(i + 1)
  }

  /** `tok[0:i-1]` for the digit position `i`: the name stops one character
      before the digit; for a digit in first place Python reads the bound -1
      as "all but the last character". */
  function SymbolBefore(tok: string, i: nat): (name: string)
    requires i < |tok|
    ensures |name| < |tok| && name == tok[..|name|]
    ensures 0 < i ==> |name| == i - 1
    ensures i == 0 ==> |name| == |tok| - 1
  {
    if i == 0 then tok[..|tok| - 1] else tok[..i - 1]
  }

  /** `int(tok[idx:idx + 1])`: only the first digit is read. */
  function DigitValue(c: char): (n: nat)
    requires IsDigit(c)
    ensures n <= 9
  {
    (c as int) - ('0' as int)
  }

  /** `name + '(' + 'V,' * (arity - 1) + 'V' + ')'`. */
  function Production(name: string, arity: int): string
  {
    name + "(" + Repeat("V,", arity - 1) + "V" + ")"
  }

  /** The argument part of a production: `d` placeholders `V` joined by `d - 1` commas. */
  ghost predicate Placeholders(args: string, d: nat)
  {
    && |args| == 2 * d - 1
    && forall k :: 0 <= k < |args| ==> args[k] == if k % 2 == 0 then 'V' else ','
  }

  /** Position `k` of `'V,' * n`. */
  lemma {:induction false} RepeatAt(n: nat, k: nat)
    requires k < 2 * n
    ensures Repeat("V,", n)[k] == if k % 2 == 0 then 'V' else ','
  {
    if k >= 2 {
      RepeatAt(n - 1, k - 2);
      assert Repeat("V,", n)[k] == Repeat("V,", n - 1)[k - 2];
    }
  }

  lemma RepeatedPlaceholders(d: nat)
    requires d >= 1
    ensures Placeholders(Repeat("V,", d - 1) + "V", d)
  {
    var args := Repeat("V,", d - 1) + "V";
    forall k | 0 <= k < |args| ensures args[k] == if k % 2 == 0 then 'V' else ',' {
      if k < 2 * (d - 1) {
        RepeatAt(d - 1, k);
      }
    }
  }

  lemma CountPair(a: char, b: char, x: char)
    ensures CountChar([a, b], x) == (if a == x then 1 else 0) + (if b == x then 1 else 0)
  {
    assert [a, b][..1] == [a];
    CountSingle(a, x);
  }

  lemma CountSingle(a: char, x: char)
    ensures CountChar([a], x) == if a == x then 1 else 0
  {
    assert [a][..0] == [];
  }

  /** `'V,' * n` holds `n` placeholders and `n` commas. */
  lemma {:induction false} RepeatedCounts(n: nat)
    ensures CountChar(Repeat("V,", n), 'V') == n && CountChar(Repeat("V,", n), ',') == n
  {
    if n > 0 {
      RepeatedCounts(n - 1);
      CountCharAppend("V,", Repeat("V,", n - 1), 'V');
      CountCharAppend("V,", Repeat("V,", n - 1), ',');
      CountPair('V', ',', 'V');
      CountPair('V', ',', ',');
    }
  }

  /** A predicate of arity `d >= 1` yields `name(` then `d` placeholders
      separated by `d - 1` commas then `)`; arity 0 yields `name(V)`, since
      `'V,' * -1` is empty. */
  lemma ProductionShape(name: string, d: nat)
    ensures var alt := Production(name, d); var n := if d == 0 then 1 else d;
      && |alt| == |name| + 2 * n + 1
      && alt[..|name| + 1] == name + "("
      && alt[|alt| - 1] == ')'
      && Placeholders(alt[|name| + 1..|alt| - 1], n)
  {
    var n := if d == 0 then 1 else d;
    var args := Repeat("V,", n - 1) + "V";
    assert Repeat("V,", d - 1) == Repeat("V,", n - 1);
    var alt := Production(name, d);
    assert alt == (name + "(") + args + ")";
    RepeatedPlaceholders(n);
    assert alt[|name| + 1..|alt| - 1] == args;
  }

  /** The production counts the `V`s of the name, then `n` placeholders. */
  lemma ProductionCounts(name: string, d: nat, n: nat)
    requires n == if d == 0 then 1 else d
    ensures CountChar(Production(name, d)[|name|..], 'V') == n
    ensures CountChar(Production(name, d), 'V') == CountChar(name, 'V') + n
  {
    var tail := "(" + Repeat("V,", n - 1) + "V" + ")";
    ProductionTail(name, d, n);
    RepeatedCounts(n - 1);
    TailCounts(Repeat("V,", n - 1), n - 1);
    SplitCounts(name, tail, Production(name, d), 'V');
  }

  /** ... and the commas of the name, then `n - 1` separators. */
  lemma ProductionCommas(name: string, d: nat, n: nat)
    requires n == if d == 0 then 1 else d
    ensures CountChar(Production(name, d), ',') == CountChar(name, ',') + n - 1
  {
    var tail := "(" + Repeat("V,", n - 1) + "V" + ")";
    ProductionTail(name, d, n);
    RepeatedCounts(n - 1);
    TailCounts(Repeat("V,", n - 1), n - 1);
    SplitCounts(name, tail, Production(name, d), ',');
  }

  lemma SplitCounts(name: string, tail: string, alt: string, x: char)
    requires alt == name + tail
    ensures CountChar(alt[|name|..], x) == CountChar(tail, x)
    ensures CountChar(alt, x) == CountChar(name, x) + CountChar(tail, x)
  {
    assert alt[|name|..] == tail;
    CountCharAppend(name, tail, x);
  }

  lemma ProductionTail(name: string, d: nat, n: nat)
    requires n == if d == 0 then 1 else d
    ensures Production(name, d) == name + ("(" + Repeat("V,", n - 1) + "V" + ")")
  {
    assert Repeat("V,", d - 1) == Repeat("V,", n - 1);
  }

  lemma TailCounts(r: string, m: nat)
    requires CountChar(r, 'V') == m && CountChar(r, ',') == m
    ensures CountChar("(" + r + "V" + ")", 'V') == m + 1
    ensures CountChar("(" + r + "V" + ")", ',') == m
  {
    assert "(" + r + "V" + ")" == ("(" + r) + "V)";
    CountCharAppend("(" + r, "V)", 'V');
    CountCharAppend("(" + r, "V)", ',');
    CountCharAppend("(", r, 'V');
    CountCharAppend("(", r, ',');
    CountSingle('(', 'V');
    CountSingle('(', ',');
    CountPair('V', ')', 'V');
    CountPair('V', ')', ',');
  }

  /** The name the parser reads back from a production: `alt[:alt.index('(')]`. */
  function AltName(alt: string): (name: string)
    requires '(' in alt
    ensures |name| < |alt| && '(' !in name && alt[..|name|] == name && alt[|name|] == '('
  {
    alt[..IndexOf(alt, '(').value]
  }

  /** The arity the parser reads back, as written: `alt.count('V')` counts
      every `V` of the production, those of the predicate's name included. */
  function AltArityAsWritten(alt: string): nat
  {
    CountChar(alt, 'V')
  }

  /** The arity the parser reads back, corrected: the `V` placeholders after
      the name. */
  function AltArity(alt: string): nat
    requires '(' in alt
  {
    CountChar(alt[IndexOf(alt, '(').value..], 'V')
  }

  /** For a name without `(`, the parser reads back exactly the name and the
      arity the production was built from (1 for arity 0). */
  lemma ProductionReadBack(name: string, d: nat)
    requires '(' !in name
    ensures '(' in Production(name, d)
    ensures AltName(Production(name, d)) == name
    ensures AltArity(Production(name, d)) == if d == 0 then 1 else d
  {
    var alt := Production(name, d);
    assert alt[|name|] == '(';
    assert alt[..|name|] == name;
    var i := IndexOf(alt, '(').value;
    assert i == |name|;
    ProductionCounts(name, d, if d == 0 then 1 else d);
  }

  /** The as-written read-back overcounts by the `V`s of the name. */
  lemma ArityAsWrittenCountsNameV(name: string, d: nat)
    requires '(' !in name
    ensures AltArityAsWritten(Production(name, d)) == AltArity(Production(name, d)) + CountChar(name, 'V')
  {
    ProductionCounts(name, d, if d == 0 then 1 else d);
    ProductionReadBack(name, d);
  }

  /** The predicate token `Vp[2]` declares arity 2, yet the as-written parser
      demands three variables. */
  lemma VInNameInflatesArity()
    ensures AltArity(Production("Vp", 2)) == 2
    ensures AltArityAsWritten(Production("Vp", 2)) == 3
  {
    ArityAsWrittenCountsNameV("Vp", 2);
    ProductionReadBack("Vp", 2);
    assert "Vp"[..1] == "V" && "V"[..0] == "";
  }

  /** The (name, production) pair generated for one predicate token, or None
      where `re.search` finds no digit and the source crashes. */
  function PredicateEntry(tok: string): (r: Option<(string, string)>)
    ensures r.None? <==> FirstDigit(tok).None?
    ensures r.Some? ==> |r.value.0| < |r.value.1| && r.value.1[..|r.value.0|] == r.value.0
    ensures r.Some? ==> '(' in r.value.1
    ensures r.Some? ==> |r.value.0| < |tok| && r.value.0 == tok[..|r.value.0|]
    ensures r.Some? ==> var i := FirstDigit(tok).value;
      r.value.0 == SymbolBefore(tok, i) && r.value.1 == Production(r.value.0, DigitValue(tok[i]))
  {
    match FirstDigit(tok)
    case None => None
    case Some(i) =>
      var name := SymbolBefore(tok, i);
      var alt := Production(name, DigitValue(tok[i]));
      assert alt[|name|] == '(';
      Some((name, alt))
  }

  /** The alternative generated for a predicate token whose name holds no
      `(` reads back as the name and the arity of its first digit (1 for
      0), while the as-written count adds the `V`s of the name. */
  lemma EntryReadBack(tok: string)
    requires PredicateEntry(tok).Some? && '(' !in PredicateEntry(tok).value.0
    ensures var (name, alt) := PredicateEntry(tok).value;
      var d := DigitValue(tok[FirstDigit(tok).value]);
      && AltName(alt) == name && AltArity(alt) == (if d == 0 then 1 else d)
      && AltArityAsWritten(alt) == AltArity(alt) + CountChar(name, 'V')
  {
    var (name, alt) := PredicateEntry(tok).value;
    var d := DigitValue(tok[FirstDigit(tok).value]);
    ProductionReadBack(name, d);
    ArityAsWrittenCountsNameV(name, d);
  }

  /** Every token carries a digit, so the predicate loop does not crash. */
  predicate AllMarked(toks: seq<string>)
  {
    forall t :: t in toks ==> FirstDigit(t).Some?
  }

  /** The predicate loop: the names and the productions, in declaration order,
      or the first token that has no digit. */
  function PredicateProductions(toks: seq<string>): (r: Result<(seq<string>, seq<string>), string>)
    ensures r.Success? <==> AllMarked(toks)
    ensures r.Failure? ==> FirstUnmarked(toks, r.error)
    ensures r.Success? ==> |r.value.0| == |toks| && |r.value.1| == |toks|
    ensures r.Success? ==> forall k :: 0 <= k < |toks| ==>
      PredicateEntry(toks[k]) == Some((r.value.0[k], r.value.1[k]))
  {
    if toks == [] then Success(([], []))
    else
      var entry := PredicateEntry(toks[0]);
      AllMarkedCons(toks);
      if entry.None? then
        assert toks[..0] == [];
        assert FirstUnmarked(toks, toks[0]);
        Failure(toks[0])
      else
        var rest := PredicateProductions(toks[1..]);
        if rest.Failure? then
          FirstUnmarkedCons(toks, rest.error);
          Failure(rest.error)
        else
          var names, alts := [entry.value.0] + rest.value.0, [entry.value.1] + rest.value.1;
          EntriesCons(toks, names, alts);
          Success((names, alts))
  }

  /** `toks[k]` is the first token without a digit. */
  ghost predicate FirstUnmarked(toks: seq<string>, e: string)
  {
    exists k :: 0 <= k < |toks| && toks[k] == e && FirstDigit(e).None? && AllMarked(toks[..k])
  }

  lemma FirstUnmarkedCons(toks: seq<string>, e: string)
    requires toks != [] && FirstDigit(toks[0]).Some? && FirstUnmarked(toks[1..], e)
    ensures FirstUnmarked(toks, e)
  {
    var k :| 0 <= k < |toks[1..]| && toks[1..][k] == e && FirstDigit(e).None? && AllMarked(toks[1..][..k]);
    assert toks[..k + 1] == [toks[0]] + toks[1..][..k];
    assert toks[k + 1] == e;
  }

  lemma EntriesCons(toks: seq<string>, names: seq<string>, alts: seq<string>)
    requires toks != [] && |names| == |toks| && |alts| == |toks|
    requires PredicateEntry(toks[0]) == Some((names[0], alts[0]))
    requires forall k :: 0 <= k < |toks| - 1 ==> PredicateEntry(toks[1..][k]) == Some((names[1..][k], alts[1..][k]))
    ensures forall k :: 0 <= k < |toks| ==> PredicateEntry(toks[k]) == Some((names[k], alts[k]))
  {
    forall k | 1 <= k < |toks| ensures PredicateEntry(toks[k]) == Some((names[k], alts[k])) {
      assert toks[k] == toks[1..][k - 1] && names[k] == names[1..][k - 1] && alts[k] == alts[1..][k - 1];
    }
  }

  lemma AllMarkedCons(toks: seq<string>)
    requires toks != []
    ensures AllMarked(toks) <==> FirstDigit(toks[0]).Some? && AllMarked(toks[1..])
  {
    assert toks == [toks[0]] + toks[1..];
  }
}
