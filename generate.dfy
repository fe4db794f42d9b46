/**
 * generateGrammar as a whole: the declaration is validated and the grammar
 * built first; only an accepted declaration has its formula lexed, and the
 * two are returned together for the parser.
 */
module Generate {
  import opened Wrappers
  import opened Grammar
  import opened Validation
  import opened Lexer

  /** The validated grammar and the lexed formula, or the first check that
      failed (the source logs it and exits before lexing). */
  method Generate(d: Declaration) returns (r: Result<(Grammar, seq<string>), GrammarError>)
    ensures r.Success? <==> Accepts(d)
    ensures r.Failure? ==> GenerateGrammar(d) == Failure(r.error)
    ensures r.Success? ==> GenerateGrammar(d) == Success(r.value.0) && WellFormed(r.value.0)
    ensures r.Success? ==> r.value.1 == LexSpec(d.formula)
    ensures r.Success? && (forall k :: 0 <= k < |d.formula| ==> d.formula[k] != "" && Plain(d.formula[k])) ==>
      r.value.1 == d.formula
  {
    AcceptedExactly(d);
    match GenerateGrammar(d)
    case Failure(e) =>
      r := Failure(e);
    case Success(g) =>
      var formula := Lex(d.formula);
      if forall k :: 0 <= k < |d.formula| ==> d.formula[k] != "" && Plain(d.formula[k]) {
        LexKeepsPlainFormula(d.formula);
      }
      r := Success((g, formula));
  }
}
