# A verified model of a first-order-logic grammar compiler and parser

`parser.py` reads an alphabet declaration (variables, constants, predicates
such as `P[2]`, one equality symbol, five connectives, two quantifiers)
and a formula. It then does four things:

- validates the alphabet;
- builds a context-free grammar from it, with nonterminals S, A, E, T, Q, V,
  C, P and J;
- splits the formula's whitespace words around `(`, `)` and `,`;
- parses the result with a recursive-descent parser that builds a labelled
  tree and logs syntax errors and success.

This project models those four parts in Dafny and proves properties of
them.

| file | module | what it models |
|---|---|---|
| `wrappers.dfy` | `Wrappers` | `Option` and `Result`, standing in for Python's exceptions and `sys.exit` |
| `text.dfy` | `Text` | the Python string operations the source relies on: slicing, `index`, `count`, `''.join`, the comma-position comprehension, `s * n` |
| `grammar.dfy` | `Grammar` | the production table and the `P` alternative generated for each predicate token |
| `validation.dfy` | `Validation` | the declaration checks and the grammar they produce, as a pure function to a `Result` whose error names the failed check |
| `lexer.dfy` | `Lexer` | the formula lexer, as imperative methods, each proved equal to a specification function |
| `parser.dfy` | `Parsing` | class `Parser` |
| `generate.dfy` | `Generate` | validation followed by lexing, as `generateGrammar` returns them |

The lexer is modelled **as written**, quirks included. The model proves
each quirk on a concrete input:

- case 3a turns the text after the last comma into single characters;
- a compound word written twice is split only once;
- the removal loop, which removes from the list it iterates over, can leave
  one of two neighbouring empty strings in place.

It also proves the general properties:

- the removal loop drops nothing but empty strings;
- it drops them all when no two are neighbours;
- a formula of plain words comes back unchanged;
- a single compound word is replaced in place by its pieces.

Class `Parser` models the parser's state:

- the formula, the grammar, `index` and `lookahead`;
- an arena `nodes` of tree nodes, in place of anytree objects and the
  `'var' + counter` registry;
- `log`, a list of `SyntaxError(token, position)` and `Succeeded` events;
- `crashed`, which is set where Python raises an `IndexError`.

There is one method per handler. The recursion terminates on the pair
(tokens left, rank of the handler).

The handlers are proved faithful on every input:

- which alternative is taken, in the source's order;
- that a handler finding no alternative consumes nothing and never
  crashes;
- that `index` never decreases;
- exactly when `match`, the single-token handlers (variable, constant,
  quantifier, connective, equality) and the term handler crash, and what
  they consume;
- that every handler appends its own node below its parent and changes no
  older node.

They are also proved complete. For a grammar whose first-token tests are
disjoint, the tokens of every well-typed formula (datatype
`Parsing.Formula`) are read to the end, with no syntax error and exactly
one `Succeeded`.

## Model

| member | source | states |
|---|---|---|
| `Text.Slice` | parser.py:222 | Python's `s[lo:hi]` with clamped bounds: the sequence slice when in range, empty when `lo >= hi` or `lo` is past the end |
| `Text.IndexOf` | parser.py:216-217 | `xs.index(x)`: `None` exactly when `x` is absent, otherwise the first position holding `x` |
| `Text.Positions` | parser.py:218 | the comma-position comprehension: exactly the positions holding the character, strictly increasing |
| `Text.Repeat` | parser.py:156 | `s * n` has length `n * len(s)`, and is empty for `n <= 0` |
| `Grammar.FirstDigit` | parser.py:150-151 | `re.search(r"\d")` finds the first digit `0`-`9`; `None` exactly when the token has no such digit |
| `Grammar.SymbolBefore` | parser.py:152 | `tok[0:idx-1]` is a proper prefix of the token: one character shorter than the text before the digit when the digit is not first, and all of the token but its last character when the digit is first (Python's `-1` end) |
| `Grammar.DigitValue` | parser.py:155 | `int(predicate[idx:idx1])` reads one digit only, so the arity is at most 9 |
| `Grammar.ProductionShape` | parser.py:156 | a production is `name(`, then `n` placeholders `V` separated by `n - 1` commas, then `)`; arity 0 gives one placeholder |
| `Grammar.ProductionCounts` | parser.py:156 | the production holds the `V`s of the name plus `n` placeholders, and exactly `n` after the name |
| `Grammar.ProductionCommas` | parser.py:156 | the production holds the commas of the name plus `n - 1` separators |
| `Grammar.AltName` | parser.py:391 | `predicate[:predicate.index('(')]` is the prefix before the first `(` and holds no `(` |
| `Grammar.ProductionReadBack` | parser.py:390-398 | for a name without `(`, the parser reads back the name and the declared arity (1 for arity 0) from the production, with the corrected count |
| `Grammar.ArityAsWrittenCountsNameV` | parser.py:394 | `predicate.count('V')` over the whole production exceeds the declared arity by the number of `V`s in the name |
| `Grammar.VInNameInflatesArity` | parser.py:394 | for the token `Vp[2]` the corrected arity is 2 and the as-written count is 3 |
| `Grammar.PredicateEntry` | parser.py:149-157 | one token gives a name and a production, `None` exactly when it has no digit; the name is `tok[0:idx-1]` for the first digit's position `idx`, and the production is the name's production for that one digit's value |
| `Grammar.EntryReadBack` | parser.py:149-157 | for a token whose name holds no `(`, the parser's name cut gives back the name, the placeholder count gives back the declared digit (1 for 0), and the source's `count('V')` adds the `V`s of the name |
| `Grammar.PredicateProductions` | parser.py:146-157 | the predicate loop succeeds exactly when every token has a digit; it then yields one name and one production per token, in order; otherwise it reports the first token without a digit |
| `Validation.FirstMismatch` | parser.py:103-129 | a field passes its pattern exactly when every token matches at its start; otherwise it reports the first token that does not |
| `Validation.SharedNonEmpty` | parser.py:160-161 | the intersection of two fields is non-empty exactly when they share a name |
| `Validation.FirstCollision` | parser.py:159-203 | the collision checks pass exactly when each one does; otherwise the first failing check is reported, with the non-empty set of shared names |
| `Validation.CollisionChecksPassExactly` | parser.py:159-209 | the twelve checks and the three `commonNames` calls all pass exactly when the nine compared role pairs are disjoint; the repeated checks add nothing |
| `Validation.CollisionChecksPass` | parser.py:159-209 | with the names cut from the predicate tokens, the checks pass exactly when no two compared roles share a name |
| `Validation.NamesDisjoint` | parser.py:160-168 | the predicate names miss a field exactly when the name of every predicate token is missing from it |
| `Validation.GenerateGrammar` | parser.py:86-209 | the counts are checked first, in order (equality 1, connectives 5, quantifiers 2), each failing exactly when the earlier ones pass and it does not; a success is well formed, J plus the unary connective is the declared connectives, `S`'s last alternative is the last connective followed by `S`, V, C, Q and E are copied, and P holds one production per predicate token, in order |
| `Validation.AcceptedExactly` | parser.py:86-209 | the grammar is produced exactly when the declaration meets every condition, stated role by role |
| `Validation.SharedNameAborts` | parser.py:159-209 | once the counts, characters and arity markers pass, any shared name between compared roles aborts with a non-empty set of shared names |
| `Validation.ErrorsNameOffendingTokens` | parser.py:86-157 | every character or arity error comes after the three count checks passed; it names the first token of its field that fails the test, and every field checked before it passes in full |
| `Validation.UncheckedPairsAccepted` | parser.py:159-209 | an equality symbol that is also a connective, and a quantifier that is also a variable, are accepted |
| `Validation.SingleMarkedPredicate` | parser.py:150-154 | `P[1]` has its digit at position 2 and the name `P` |
| `Lexer.FieldsAt` | parser.py:221-223 | the comma loop yields, for each comma, the slice up to it followed by `,` |
| `Lexer.FieldsConcat` | parser.py:221-223 | joining the comma loop's output gives back the text it ran over |
| `Lexer.Chars` | parser.py:254 | `list += str` adds the string character by character |
| `Lexer.SplitAt` | parser.py:240-264 | cases 2b, 3b and 4 give three pieces, the separator in the middle, split at its first occurrence (the first piece does not hold it), which join back to the word |
| `Lexer.SplitWord` | parser.py:213-264 | a word gets a dictionary entry exactly when it holds `(`, `)` or `,` and is not that single character |
| `Lexer.SplitWordNoAdjacentEmpty` | parser.py:213-264 | no case ever puts two empty pieces next to each other |
| `Lexer.CompoundPieces` | parser.py:215-225 | a word with both brackets, all its commas between them, becomes `[prefix, '(', arg, ',', ..., arg, ')', suffix]`; the arguments hold no comma and the pieces join back to the word |
| `Lexer.CompoundWords` | parser.py:212-264 | the dictionary's keys are exactly the formula words that get an entry, each once |
| `Lexer.CompoundWordsInOrder` | parser.py:212-264 | the dictionary's keys come in the order of their first occurrence in the formula, Python's insertion order |
| `Lexer.SpliceKeepsLaterKeys` | parser.py:267-269 | a key the splice has not reached yet is still in the formula |
| `Lexer.SpliceFindsEveryKey` | parser.py:268 | `formula.index(k)` never raises |
| `Lexer.SpliceOnlyKey` | parser.py:267-269 | a key's pieces replace its first occurrence, and the words around it stay in order |
| `Lexer.RemovalKeepsWords` | parser.py:272-274 | the removal loop keeps every non-empty word, in order, and never lengthens the list |
| `Lexer.RemovalWithoutAdjacent` | parser.py:272-274 | when no two empty strings are neighbours, the removal loop drops all of them |
| `Lexer.RemovalSkipsWords` | parser.py:272-274 | the loop walks past non-empty words without changing the list |
| `Lexer.LexKeepsPlainFormula` | parser.py:213-274 | idempotence: a formula whose words need no splitting comes back unchanged |
| `Lexer.LexReplacesInPlace` | parser.py:213-274 | a single compound word among plain words is replaced in place by its non-empty pieces |
| `Lexer.OpeningSplitsLastArgument` | parser.py:246-255 | case 3a splits `P(x,yz` into `P ( x , y z` |
| `Lexer.SimplePredicatePieces` | parser.py:215-225 | `P(x)` becomes `P ( x )` followed by an empty piece |
| `Lexer.ClosingEndExample` | parser.py:240-242 | `x)` becomes `x )` followed by an empty piece |
| `Lexer.OpeningEndExample` | parser.py:257-259 | `(y` becomes an empty piece, `(`, `y` |
| `Lexer.RepeatedWordSplitOnce` | parser.py:266-274 | for `P(x) P(x)` only the first occurrence is split |
| `Lexer.NeighbouringEmptiesSurvive` | parser.py:271-274 | for `x) (y` one of the two neighbouring empty strings survives the removal loop |
| `Lexer.CommaLoop` | parser.py:221-223 | the loop builds the comma loop's pieces and the final `prev_idx` |
| `Lexer.SplitBothTerm` | parser.py:215-225 | case 1 computes its specification |
| `Lexer.SplitClosingTerm` | parser.py:229-238 | case 2a computes its specification |
| `Lexer.SplitOpeningTerm` | parser.py:246-255 | case 3a computes its specification |
| `Lexer.SplitTerm` | parser.py:213-264 | the body of the first loop stores exactly `SplitWord`'s entry |
| `Lexer.CollectTerms` | parser.py:212-264 | the first loop's dictionary holds exactly the keys of `CompoundWords`, in insertion order, each mapped to its pieces |
| `Lexer.SpliceAt` | parser.py:268-269 | one splice replaces the first occurrence of the key |
| `Lexer.SpliceTerms` | parser.py:267-269 | the second loop performs the splice for every key in insertion order |
| `Lexer.RemoveEmpty` | parser.py:272-274 | the removal loop, iterator position kept by hand, computes its specification and keeps the non-empty words |
| `Lexer.Lex` | parser.py:211-274 | the lexer computes `LexSpec` |
| `Generate.Generate` | parser.py:86-305 | the formula is lexed only when the declaration is accepted; the result is the validated grammar and the lexed formula, a plain formula coming back unchanged |
| `Parsing.Label` | parser.py:456-459 | a leaf's label is the terminal, with one extra backslash in front exactly when the terminal starts with one |
| `Parsing.LabelInjective` | parser.py:456-459 | different terminals get different labels |
| `Parsing.AttachKeepsTree` | parser.py:323-324 | attaching a new childless node keeps every child index past its parent and inside the arena |
| `Parsing.Names` | parser.py:391 | one name per P alternative, in order |
| `Parsing.ArgCount` | parser.py:394-397 | the predicate handler reads at least one variable, and exactly `count('V')` of the whole production when that is positive |
| `Parsing.ArgCountOfEntry` | parser.py:394-397 | for an alternative built from a predicate token, the handler reads the declared arity (1 for 0) plus the `V`s of the name; the declared arity exactly when the name has no `V` |
| `Parsing.FirstToken` | parser.py:321-341 | every well-typed formula starts with a token the start handler accepts |
| `Parsing.AtomicSpelled` | parser.py:386-401 | the tokens of a well-typed atomic formula are what the predicate handler reads |
| `Parsing.Parser.constructor` | parser.py:311-319 | index 0, no lookahead, an empty tree and log |
| `Parsing.Parser.AddNode` | parser.py:322-324 | appends a childless node below its parent and changes nothing else |
| `Parsing.Parser.ClearChildren` | parser.py:327 | empties one node's children and changes nothing else |
| `Parsing.Parser.NextTerminal` | parser.py:466-473 | advances the index; logs `Succeeded` on reaching the end, keeping the lookahead there; crashes one step past the end |
| `Parsing.Parser.Match` | parser.py:453-464 | on the expected terminal it appends exactly one leaf with its label and advances by one, crashing on an empty terminal (with the tree untouched) or at the end; otherwise it logs a syntax error and changes nothing else; an existing first child stays first |
| `Parsing.Parser.Scan` | parser.py:376-384 | the variable handler, and the C, Q, J and E handlers built the same way, accept exactly when the lookahead is an alternative; otherwise they consume nothing and log nothing |
| `Parsing.Parser.FindName` | parser.py:390-391 | finds the first alternative whose name is the lookahead |
| `Parsing.Parser.VariableThen` | parser.py:395-396 | a variable then a separator, read in two steps |
| `Parsing.Parser.Arguments` | parser.py:394-398 | the argument list of a predicate is read in `2 * count` steps |
| `Parsing.Parser.Opening` | parser.py:392-393 | the name and `(` |
| `Parsing.Parser.Alternative` | parser.py:391-399 | the chosen alternative reads a spelled predicate, with `ArgCount` variables, to its end |
| `Parsing.Parser.Predicate` | parser.py:386-401 | truthy exactly when the lookahead names an alternative; otherwise nothing is consumed; a spelled predicate, with the source's `count('V')` variables, is read to its end |
| `Parsing.Parser.Term` | parser.py:403-414 | truthy exactly when the lookahead is a variable or a constant, consuming one token |
| `Parsing.Parser.Start` | parser.py:321-346 | truthy exactly when the lookahead starts an alternative; otherwise one syntax error is logged and nothing consumed; a spelled well-typed formula is read to its end; the new node's first child is `P` when the lookahead names a predicate, and otherwise the one `StartOther` attaches |
| `Parsing.Parser.StartBody` | parser.py:325-346 | the predicate alternative first; the others, on a cleared node, only when it fails; the first child is `P` exactly when the lookahead names a predicate |
| `Parsing.Parser.StartOther` | parser.py:327-346 | the unary, bracket and quantifier alternatives, tried in this order: the first child is the unary connective's leaf when the lookahead is that connective, else the `(` leaf when it is `(`, else a `Q` node |
| `Parsing.Parser.StartNotNegated` | parser.py:332-346 | the bracket before the quantifier: truthy exactly when the lookahead is `(` or a quantifier; the first child is the `(` leaf or a `Q` node accordingly |
| `Parsing.Parser.StartNegated` | parser.py:328-331 | `U S` reads the unary connective and a spelled body; the connective's leaf is the node's first child |
| `Parsing.Parser.StartBracketed` | parser.py:333-336 | `( A` reads `(` and a spelled compound; the `(` leaf is the node's first child |
| `Parsing.Parser.StartQuantified` | parser.py:338-346 | `Q V S`, truthy exactly when the lookahead is a quantifier; a `Q` node is the first child either way |
| `Parsing.Parser.QuantifiedRest` | parser.py:339-340 | the variable and the body of a quantified formula |
| `Parsing.Parser.Atom` | parser.py:348-365 | truthy exactly when the lookahead is a term or starts a formula; a spelled compound is read to its end; the new node's first child is `T` exactly when the lookahead is a term, `S` otherwise |
| `Parsing.Parser.AtomBody` | parser.py:352-365 | `T E T )` is tried before `S J S )`: the first child is `T` exactly when the lookahead is a term, `S` otherwise |
| `Parsing.Parser.AtomEquation` | parser.py:353-355 | the equality symbol, a term and `)` |
| `Parsing.Parser.TermThenClose` | parser.py:354-355 | a term and `)` |
| `Parsing.Parser.AtomBinary` | parser.py:357-365 | `S J S )` on a cleared node, truthy exactly when the first formula's start is accepted; an `S` node is the first child |
| `Parsing.Parser.AtomSecond` | parser.py:359-361 | the connective, the second formula and `)` |
| `Parsing.Parser.StartThenClose` | parser.py:360-361 | the second formula and `)` |
| `Parsing.Parser.Parse` | parser.py:449-451 | an empty formula crashes; otherwise the root is an `S` node; the tokens of a well-typed formula, under a grammar with disjoint first-token tests, are read to the end with no syntax error and exactly one `Succeeded` logged |

## Left out

- Reading the declaration file, `sys.argv`, line continuation and the
  colon check (parser.py:45-84). These are file input. The model takes the
  declaration as a `Validation.Declaration` record of whitespace-split fields.
- `writeToLog`, `writeGrammar`, the grammar printout and every `print`.
  These are file output. The parser's log is the `Parsing.Event` sequence;
  `sys.exit` and `exit(1)` are a `Failure` result.
- The anytree `Node` objects, `UniqueDotExporter` and the graphviz path
  setup. The arena `nodes` replaces them.
- The `'var' + counter` registry and the counter decrements. They serve only
  to find the root for the image export; the root is node 0 of the arena.
- The regular-expression engine. The three patterns are modelled by what
  `re.match` decides for them: whether the first character is in the class.
- The `T` production `'C, V'` and the `non_terminals` list. They only feed
  the printout, and the term handler hard-codes variable, then constant.
- The module-level driver. `parse` and `nextTerminal` read the global
  `formula`; the driver makes that the parser's own formula, and the model
  uses it.
- Python's `None` lookahead before `parse` is the empty string. No handler
  runs before `parse` sets the lookahead.
- `Grammar.PredicateEntry`: a token with no digit raises in Python. It is
  modelled as the error `MissingArity`, reported in declaration order with
  the other checks.
- `Grammar.FirstDigit`: only the ASCII digits `0`-`9` count as digits.
  Python's `\d` on a `str` also matches other Unicode decimal digits, so a
  token such as `P[٢]` gets arity 2 in Python and the error `MissingArity`
  here.
- `Lexer.ReplaceFirst`: a missing key leaves the formula as it is, where
  Python would raise. `Lexer.SpliceFindsEveryKey` proves the key is never
  missing.
- `Grammar.ProductionReadBack`: stated for names without `(`. Predicate
  tokens get no character check, so a name holding `(` would be cut short
  by the parser.
- `Parsing.Parser.Start`: the first clear of the children is modelled once.
  The later `parent.children = []` lines run when nothing has been attached
  since. The order of the alternatives is stated through the node's first
  child only; the other children are not described.
- `Parsing.Parser.Start`: the contracts say exactly when each handler
  accepts. Completeness is proved only for token sequences spelled by a
  well-typed `Formula` under a grammar whose first-token tests are
  disjoint. For other inputs, the contracts do not say which later syntax
  errors are logged.
- `Parsing.Parser.Start`, `Parsing.Parser.Atom`, `Parsing.Parser.Predicate`
  and the other compound handlers: for inputs that do not spell a formula,
  the contracts do not say when they crash or how many tokens an accepting
  one consumes, beyond advancing the index. For example, `( (` crashes in
  the source: once the second `(` is read the lookahead stays on it, and
  the next `match('(')` runs past the end. No contract predicts or
  excludes that.
- `Parsing.Parser.Parse`: the contract states the index, the crash flag and
  the log, but not the shape of the tree built. The tree is only shown to
  grow below each handler's node, without changing older nodes.
- The leaf labels and the crash are tracked per `match`. There is no
  statement tying the leaves, in order, to the tokens read.

## Findings

| source | as written | input that shows it | evidently intended | confidence | as-written member | corrected member |
|---|---|---|---|---|---|---|
| parser.py:394 | the predicate handler reads `predicate.count('V') - 1` variables with commas, then one more, counting every `V` of the production, including those in the predicate's name | the predicate token `Vp[2]`: its production `Vp(V,V)` holds three `V`s, so the parser demands three variables where two were declared | count only the placeholders after the name, i.e. the declared arity (1 for arity 0) | high; not executed | `Grammar.AltArityAsWritten`, `Grammar.VInNameInflatesArity`, `Parsing.ArgCountOfEntry` | `Grammar.AltArity`, `Grammar.ProductionReadBack`, `Grammar.EntryReadBack` |

The parser model reads `Parsing.ArgCount` variables, the count as written.
`Parsing.ArgCountOfEntry` shows it equals the corrected `Grammar.AltArity`
exactly when the name holds no `V`. The completeness of
`Parsing.Parser.Parse` is stated for formulas typed with that same count.
