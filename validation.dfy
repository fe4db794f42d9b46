/**
 * The checks run on an alphabet declaration before any grammar is used:
 * symbol counts, the characters symbols may start with, the arity marker of
 * every predicate, and names shared between roles. The first failure wins;
 * the source logs it and exits.
 */
module Validation {
  import opened Wrappers
  import opened Text
  import opened Grammar

  /** The seven fields of a declaration, each already split on whitespace. */
  datatype Declaration = Declaration(
    variables: seq<string>,
    constants: seq<string>,
    predicates: seq<string>,
    equality: seq<string>,
    connectives: seq<string>,
    quantifiers: seq<string>,
    formula: seq<string>)

  /** The roles compared by the collision checks. Predicates stands for the raw
      tokens such as `P[2]`, PredicateNames for the names cut out of them. */
  datatype Role = Variables | Constants | Predicates | PredicateNames | Connectives | Equality

  /** Which check failed, with what the source writes to its log. */
  datatype GrammarError =
    | EqualityCount(count: nat)
    | ConnectiveCount(count: nat)
    | QuantifierCount(count: nat)
    | InvalidVariable(token: string)
    | InvalidConstant(token: string)
    | InvalidEquality(token: string)
    | InvalidConnective(token: string)
    | MissingArity(token: string)
    | SharedNames(first: Role, second: Role, names: set<string>)

  /** The three character classes of the source's patterns. */
  datatype CharClass = NameChar | ConnectiveChar | EqualityChar

  predicate InClass(c: char, cls: CharClass)
  {
    || ('A' <= c <= 'Z') || ('a' <= c <= 'z') || ('0' <= c <= '9') || c == '_'
    || (cls != NameChar && c == '\\')
    || (cls == EqualityChar && c == '=')
  }

  /** `pattern.match(tok)` for the pattern `(class)+`: `re.match` is anchored
      at the start only, so a token passes when its first character does. */
  predicate MatchesAtStart(tok: string, cls: CharClass)
  {
    |tok| > 0 && InClass(tok[0], cls)
  }

  predicate AllMatch(toks: seq<string>, cls: CharClass)
  {
    forall t :: t in toks ==> MatchesAtStart(t, cls)
  }

  /** The first token of a field that its pattern rejects. */
  function FirstMismatch(toks: seq<string>, cls: CharClass): (r: Option<string>)
    ensures r.None? <==> AllMatch(toks, cls)
    ensures r.Some? ==> FirstRejected(toks, cls, r.value)
  {
    if toks == [] then None
    else
      assert toks == [toks[0]] + toks[1..];
      if !MatchesAtStart(toks[0], cls) then
        assert toks[..0] == [];
        assert FirstRejected(toks, cls, toks[0]);
        Some(toks[0])
      else
        var rest := FirstMismatch(toks[1..], cls);
        if rest.Some? then
          FirstRejectedCons(toks, cls, rest.value);
          rest
        else
          None
  }

  /** `t` is the first token of `toks` the pattern rejects. */
  ghost predicate FirstRejected(toks: seq<string>, cls: CharClass, t: string)
  {
    exists k :: 0 <= k < |toks| && toks[k] == t && !MatchesAtStart(t, cls) && AllMatch(toks[..k], cls)
  }

  lemma FirstRejectedCons(toks: seq<string>, cls: CharClass, t: string)
    requires toks != [] && MatchesAtStart(toks[0], cls) && FirstRejected(toks[1..], cls, t)
    ensures FirstRejected(toks, cls, t)
  {
    var k :| 0 <= k < |toks[1..]| && toks[1..][k] == t && !MatchesAtStart(t, cls) && AllMatch(toks[1..][..k], cls);
    assert toks[..k + 1] == [toks[0]] + toks[1..][..k];
    assert toks[k + 1] == t;
  }

  /** `set(a).intersection(set(b))`. */
  function Shared(a: seq<string>, b: seq<string>): set<string>
  {
    set x | x in a && x in b
  }

  predicate Disjoint(a: seq<string>, b: seq<string>)
  {
    forall x :: x in a ==> x !in b
  }

  lemma SharedNonEmpty(a: seq<string>, b: seq<string>)
    ensures Shared(a, b) != {} <==> !Disjoint(a, b)
  {
    if !Disjoint(a, b) {
      var x :| x in a && x in b;
      assert x in Shared(a, b);
    }
  }

  /** One collision check: two roles and the names each holds. */
  datatype Check = Check(first: Role, firstNames: seq<string>, second: Role, secondNames: seq<string>)

  /** The collision checks in the order the source runs them, the three it
      repeats included; `names` are the predicate names cut from the tokens. */
  function CollisionChecks(d: Declaration, names: seq<string>): (checks: seq<Check>)
    ensures |checks| == 12
  {
    [ Check(PredicateNames, names, Constants, d.constants),
      Check(PredicateNames, names, Variables, d.variables),
      Check(Variables, d.variables, Constants, d.constants),
      Check(Variables, d.variables, Connectives, d.connectives),
      Check(Constants, d.constants, Connectives, d.connectives),
      Check(Predicates, d.predicates, Connectives, d.connectives),
      Check(Variables, d.variables, Connectives, d.connectives),
      Check(Constants, d.constants, Connectives, d.connectives),
      Check(Predicates, d.predicates, Connectives, d.connectives),
      Check(Variables, d.variables, Equality, d.equality),
      Check(Constants, d.constants, Equality, d.equality),
      Check(Predicates, d.predicates, Equality, d.equality) ]
  }

  predicate Passes(c: Check)
  {
    Disjoint(c.firstNames, c.secondNames)
  }

  predicate AllPass(checks: seq<Check>)
  {
    forall k :: 0 <= k < |checks| ==> Passes(checks[k])
  }

  /** The first check whose two roles share a name, reported with the names shared. */
  function FirstCollision(checks: seq<Check>): (r: Option<GrammarError>)
    ensures r.None? <==> AllPass(checks)
    ensures r.Some? ==> FirstFailing(checks, r.value)
    ensures r.Some? ==> r.value.SharedNames? && r.value.names != {}
  {
    if checks == [] then None
    else
      var c := checks[0];
      SharedNonEmpty(c.firstNames, c.secondNames);
      if !Passes(c) then
        assert FirstFailing(checks, Reported(c));
        Some(Reported(c))
      else
        var rest := FirstCollision(checks[1..]);
        PassesCons(checks);
        if rest.Some? then
          FirstFailingCons(checks, rest.value);
          rest
        else rest
  }

  /** The error a failing check reports. */
  function Reported(c: Check): GrammarError
  {
    SharedNames(c.first, c.second, Shared(c.firstNames, c.secondNames))
  }

  /** `e` is reported by the first check that fails. */
  ghost predicate FirstFailing(checks: seq<Check>, e: GrammarError)
  {
    exists k :: 0 <= k < |checks| && !Passes(checks[k]) && e == Reported(checks[k])
      && forall j :: 0 <= j < k ==> Passes(checks[j])
  }

  lemma PassesCons(checks: seq<Check>)
    requires checks != []
    ensures AllPass(checks) <==> Passes(checks[0]) && AllPass(checks[1..])
  {
    assert forall k :: 1 <= k < |checks| ==> checks[k] == checks[1..][k - 1];
  }

  lemma FirstFailingCons(checks: seq<Check>, e: GrammarError)
    requires checks != [] && Passes(checks[0]) && FirstFailing(checks[1..], e)
    ensures FirstFailing(checks, e)
  {
    var k :| 0 <= k < |checks[1..]| && !Passes(checks[1..][k]) && e == Reported(checks[1..][k])
      && forall j :: 0 <= j < k ==> Passes(checks[1..][j]);
    assert checks[k + 1] == checks[1..][k];
    forall j | 0 <= j < k + 1 ensures Passes(checks[j]) {
      if j > 0 {
        assert checks[j] == checks[1..][j - 1];
      }
    }
  }

  /** The name cut from a predicate token that has a digit. */
  function NameOf(tok: string): string
    requires FirstDigit(tok).Some?
  {
    PredicateEntry(tok).value.0
  }

  /** The conditions under which the source goes on to lex and parse, stated
      role by role. Connectives are never compared with the equality symbol,
      quantifiers with nothing, and predicate names with connectives or the
      equality symbol only through the raw tokens. */
  ghost predicate Accepts(d: Declaration)
  {
    && |d.equality| == 1 && |d.connectives| == 5 && |d.quantifiers| == 2
    && AllMatch(d.variables, NameChar)
    && AllMatch(d.constants, NameChar)
    && MatchesAtStart(d.equality[0], EqualityChar)
    && AllMatch(d.connectives, ConnectiveChar)
    && AllMarked(d.predicates)
    && NoSharedNames(d)
  }

  /** The name conditions the collision checks enforce. */
  ghost predicate NoSharedNames(d: Declaration)
    requires AllMarked(d.predicates)
  {
    && (forall t :: t in d.predicates ==> NameOf(t) !in d.constants && NameOf(t) !in d.variables)
    && Disjoint(d.variables, d.constants)
    && Disjoint(d.variables, d.connectives) && Disjoint(d.constants, d.connectives)
    && Disjoint(d.predicates, d.connectives)
    && Disjoint(d.variables, d.equality) && Disjoint(d.constants, d.equality)
    && Disjoint(d.predicates, d.equality)
  }

  /** generateGrammar up to the formula: validate the declaration and build the
      production rules, or report the first failed check. */
  function GenerateGrammar(d: Declaration): (r: Result<Grammar, GrammarError>)
    // the count checks run first, in this order
    ensures r == Failure(EqualityCount(|d.equality|)) <==> |d.equality| != 1
    ensures r == Failure(ConnectiveCount(|d.connectives|)) <==> |d.equality| == 1 && |d.connectives| != 5
    ensures r == Failure(QuantifierCount(|d.quantifiers|)) <==>
      |d.equality| == 1 && |d.connectives| == 5 && |d.quantifiers| != 2
    ensures r.Success? ==> WellFormed(r.value)
    // J is the connectives but the last; S ends with the last one as a prefix
    ensures r.Success? ==> r.value.connectives + [Unary(r.value)] == d.connectives
    ensures r.Success? ==> r.value.start[3] == d.connectives[4] + "S"
    ensures r.Success? ==>
      && r.value.variables == d.variables && r.value.constants == d.constants
      && r.value.quantifiers == d.quantifiers && r.value.equality == d.equality
    // one production per predicate token, in declaration order
    ensures r.Success? ==> |r.value.predicates| == |d.predicates| && forall k :: 0 <= k < |d.predicates| ==>
      PredicateEntry(d.predicates[k]).Some? && r.value.predicates[k] == PredicateEntry(d.predicates[k]).value.1
  {
    if |d.equality| != 1 then Failure(EqualityCount(|d.equality|))
    else if |d.connectives| != 5 then Failure(ConnectiveCount(|d.connectives|))
    else if |d.quantifiers| != 2 then Failure(QuantifierCount(|d.quantifiers|))
    else if FirstMismatch(d.variables, NameChar).Some? then
      Failure(InvalidVariable(FirstMismatch(d.variables, NameChar).value))
    else if FirstMismatch(d.constants, NameChar).Some? then
      Failure(InvalidConstant(FirstMismatch(d.constants, NameChar).value))
    else if !MatchesAtStart(d.equality[0], EqualityChar) then
      Failure(InvalidEquality(d.equality[0]))
    else if FirstMismatch(d.connectives, ConnectiveChar).Some? then
      Failure(InvalidConnective(FirstMismatch(d.connectives, ConnectiveChar).value))
    else
      var preds := PredicateProductions(d.predicates);
      if preds.Failure? then
        Failure(MissingArity(preds.error))
      else
        var collision := FirstCollision(CollisionChecks(d, preds.value.0));
        if collision.Some? then
          Failure(collision.value)
        else
          var g := Grammar(
            ["P", "(A", "QVS", d.connectives[4] + "S"],
            ["SJS)", "TET)"],
            d.equality,
            d.quantifiers,
            d.variables,
            d.constants,
            preds.value.1,
            d.connectives[..4]);
          assert g.start[3][..|g.start[3]| - 1] == d.connectives[4];
          assert d.connectives[..4] + [d.connectives[4]] == d.connectives;
          Success(g)
  }

  /** The predicate names are disjoint from a field exactly when the name of
      every predicate token is missing from it. */
  lemma NamesDisjoint(preds: seq<string>, names: seq<string>, other: seq<string>)
    requires PredicateProductions(preds).Success? && names == PredicateProductions(preds).value.0
    ensures Disjoint(names, other) <==> forall t :: t in preds ==> NameOf(t) !in other
  {
    var alts := PredicateProductions(preds).value.1;
    forall k | 0 <= k < |preds| ensures NameOf(preds[k]) == names[k] {
      assert PredicateEntry(preds[k]) == Some((names[k], alts[k]));
    }
    NamesDisjointByIndex(preds, names, other);
  }

  lemma NamesDisjointByIndex(preds: seq<string>, names: seq<string>, other: seq<string>)
    requires |names| == |preds| && AllMarked(preds)
    requires forall k :: 0 <= k < |preds| ==> NameOf(preds[k]) == names[k]
    ensures Disjoint(names, other) <==> forall t :: t in preds ==> NameOf(t) !in other
  {
    if Disjoint(names, other) {
      forall t | t in preds ensures NameOf(t) !in other {
        var k :| 0 <= k < |preds| && preds[k] == t;
        assert names[k] in names;
      }
    }
    if forall t :: t in preds ==> NameOf(t) !in other {
      forall x | x in names ensures x !in other {
        var k :| 0 <= k < |names| && names[k] == x;
        assert preds[k] in preds;
      }
    }
  }

  /** The collision checks all pass exactly when no two roles they compare share a name. */
  lemma CollisionChecksPass(d: Declaration, names: seq<string>)
    requires PredicateProductions(d.predicates).Success? && names == PredicateProductions(d.predicates).value.0
    ensures FirstCollision(CollisionChecks(d, names)).None? <==> NoSharedNames(d)
  {
    NamesDisjoint(d.predicates, names, d.constants);
    NamesDisjoint(d.predicates, names, d.variables);
    CollisionChecksPassExactly(d, names);
  }

  /** The twelve checks, role pair by role pair; the three repeated ones
      add nothing. */
  lemma CollisionChecksPassExactly(d: Declaration, names: seq<string>)
    ensures AllPass(CollisionChecks(d, names)) <==>
      && Disjoint(names, d.constants) && Disjoint(names, d.variables)
      && Disjoint(d.variables, d.constants)
      && Disjoint(d.variables, d.connectives) && Disjoint(d.constants, d.connectives)
      && Disjoint(d.predicates, d.connectives)
      && Disjoint(d.variables, d.equality) && Disjoint(d.constants, d.equality)
      && Disjoint(d.predicates, d.equality)
  {
    var checks := CollisionChecks(d, names);
    assert AllPass(checks) <==>
      && Passes(checks[0]) && Passes(checks[1]) && Passes(checks[2]) && Passes(checks[3])
      && Passes(checks[4]) && Passes(checks[5]) && Passes(checks[6]) && Passes(checks[7]) && Passes(checks[8])
      && Passes(checks[9]) && Passes(checks[10]) && Passes(checks[11]);
  }

  /** A declaration is accepted exactly when every check passes. */
  lemma AcceptedExactly(d: Declaration)
    ensures GenerateGrammar(d).Success? <==> Accepts(d)
  {
    SucceedsExactlyWhenChecksPass(d);
    if |d.equality| == 1 && |d.connectives| == 5 && |d.quantifiers| == 2 && AllMarked(d.predicates) {
      CollisionChecksPass(d, PredicateProductions(d.predicates).value.0);
    }
  }

  /** Every check `GenerateGrammar` runs passes, in its terms. */
  ghost predicate ChecksPass(d: Declaration)
  {
    && |d.equality| == 1 && |d.connectives| == 5 && |d.quantifiers| == 2
    && FirstMismatch(d.variables, NameChar).None? && FirstMismatch(d.constants, NameChar).None?
    && MatchesAtStart(d.equality[0], EqualityChar) && FirstMismatch(d.connectives, ConnectiveChar).None?
    && PredicateProductions(d.predicates).Success?
    && FirstCollision(CollisionChecks(d, PredicateProductions(d.predicates).value.0)).None?
  }

  lemma SucceedsExactlyWhenChecksPass(d: Declaration)
    ensures GenerateGrammar(d).Success? <==> ChecksPass(d)
  {
  }

  /** Once the counts, the characters and the arity markers pass, a name shared
      by two compared roles aborts with SharedNames, before lexing or parsing. */
  lemma SharedNameAborts(d: Declaration)
    requires |d.equality| == 1 && |d.connectives| == 5 && |d.quantifiers| == 2
    requires AllMatch(d.variables, NameChar) && AllMatch(d.constants, NameChar)
    requires MatchesAtStart(d.equality[0], EqualityChar) && AllMatch(d.connectives, ConnectiveChar)
    requires AllMarked(d.predicates)
    requires !NoSharedNames(d)
    ensures GenerateGrammar(d).Failure? && GenerateGrammar(d).error.SharedNames?
    ensures GenerateGrammar(d).error.names != {}
  {
    CollisionChecksPass(d, PredicateProductions(d.predicates).value.0);
  }

  /** A failing character or arity check names a token that fails it, and
      every check before it passed. */
  lemma ErrorsNameOffendingTokens(d: Declaration)
    ensures var r := GenerateGrammar(d);
      && (r.Failure? && (r.error.InvalidVariable? || r.error.InvalidConstant? || r.error.InvalidEquality?
                         || r.error.InvalidConnective? || r.error.MissingArity?) ==>
            |d.equality| == 1 && |d.connectives| == 5 && |d.quantifiers| == 2)
      && (r.Failure? && r.error.InvalidVariable? ==>
            FirstRejected(d.variables, NameChar, r.error.token)
            && r.error.token in d.variables && !MatchesAtStart(r.error.token, NameChar))
      && (r.Failure? && r.error.InvalidConstant? ==>
            AllMatch(d.variables, NameChar) && FirstRejected(d.constants, NameChar, r.error.token)
            && r.error.token in d.constants && !MatchesAtStart(r.error.token, NameChar))
      && (r.Failure? && r.error.InvalidEquality? ==>
            AllMatch(d.variables, NameChar) && AllMatch(d.constants, NameChar)
            && r.error.token == d.equality[0] && !MatchesAtStart(r.error.token, EqualityChar))
      && (r.Failure? && r.error.InvalidConnective? ==>
            AllMatch(d.variables, NameChar) && AllMatch(d.constants, NameChar)
            && MatchesAtStart(d.equality[0], EqualityChar) && FirstRejected(d.connectives, ConnectiveChar, r.error.token)
            && r.error.token in d.connectives && !MatchesAtStart(r.error.token, ConnectiveChar))
      && (r.Failure? && r.error.MissingArity? ==>
            AllMatch(d.variables, NameChar) && AllMatch(d.constants, NameChar)
            && MatchesAtStart(d.equality[0], EqualityChar) && AllMatch(d.connectives, ConnectiveChar)
            && FirstUnmarked(d.predicates, r.error.token)
            && r.error.token in d.predicates && FirstDigit(r.error.token).None?)
  {
  }

  /** The equality symbol may double as a connective and a quantifier may reuse
      a variable's name: neither pair is compared. */
  lemma UncheckedPairsAccepted(d: Declaration)
    requires d == Declaration(["x"], ["a"], ["P[1]"], ["eq"], ["eq", "or", "to", "iff", "not"], ["x", "E"], ["P(x)"])
    ensures d.equality[0] in d.connectives && d.quantifiers[0] in d.variables
    ensures GenerateGrammar(d).Success?
  {
    ExampleMatches(d);
    ExampleNoSharedNames(d);
    AcceptedExactly(d);
  }

  lemma ExampleMatches(d: Declaration)
    requires d == Declaration(["x"], ["a"], ["P[1]"], ["eq"], ["eq", "or", "to", "iff", "not"], ["x", "E"], ["P(x)"])
    ensures AllMatch(d.variables, NameChar) && AllMatch(d.constants, NameChar)
    ensures AllMatch(d.connectives, ConnectiveChar) && MatchesAtStart(d.equality[0], EqualityChar)
  {
  }

  lemma ExampleNoSharedNames(d: Declaration)
    requires d == Declaration(["x"], ["a"], ["P[1]"], ["eq"], ["eq", "or", "to", "iff", "not"], ["x", "E"], ["P(x)"])
    ensures AllMarked(d.predicates) && NoSharedNames(d)
  {
    SingleMarkedPredicate();
    forall t | t in d.predicates ensures NameOf(t) !in d.constants && NameOf(t) !in d.variables {
      assert t == "P[1]";
    }
    assert Disjoint(d.variables, d.connectives) && Disjoint(d.constants, d.connectives);
    assert Disjoint(d.predicates, d.connectives) && Disjoint(d.predicates, d.equality);
  }

  lemma SingleMarkedPredicate()
    ensures FirstDigit("P[1]") == Some(2) && PredicateEntry("P[1]").value.0 == "P"
  {
    assert FirstDigit("1]") == Some(0);
    assert FirstDigit("[1]") == Some(1);
  }
}
