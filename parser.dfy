/**
 * The recursive-descent parser of parser.py: one method per nonterminal,
 * a lookahead token, an index into the lexed formula, a parse tree kept in
 * an arena of nodes, and a log of syntax errors and successes.
 */
module Parsing {
  import opened Wrappers
  import opened Text
  import opened Grammar

  /** A node of the parse tree: a nonterminal with the arena indices of its
      children, in the order they were attached, or a leaf for a matched
      terminal. */
  datatype Node = Inner(symbol: string, children: seq<nat>) | Leaf(text: string)

  /** What the parser writes to its log. */
  datatype Event = SyntaxError(token: string, position: nat) | Succeeded

  /** The label `match` gives a leaf: a terminal starting with a backslash gets
      one more in front. */
  function Label(terminal: string): (r: string)
    ensures r == terminal || r == "\\" + terminal
    ensures |r| == |terminal| + 1 <==> terminal != "" && terminal[0] == '\\'
    ensures |r| == |terminal| ==> r == terminal
  {
    if terminal != "" && terminal[0] == '\\' then "\\" + terminal else terminal
  }

  /** Different terminals get different labels, so the leaves name the
      tokens that were matched. */
  lemma LabelInjective(a: string, b: string)
    requires Label(a) == Label(b)
    ensures a == b
  {
    var marked := a != "" && a[0] == '\\';
    assert marked == (b != "" && b[0] == '\\') by {
      assert marked == (Label(a) != "" && Label(a)[0] == '\\');
      assert (b != "" && b[0] == '\\') == (Label(b) != "" && Label(b)[0] == '\\');
    }
    if marked {
      assert a == Label(a)[1..] && b == Label(b)[1..];
    }
  }

  /** Every child index points past its parent and into the arena. */
  predicate TreeOk(ns: seq<Node>)
  {
    forall i :: 0 <= i < |ns| && ns[i].Inner? ==> forall c :: c in ns[i].children ==> i < c < |ns|
  }

  predicate IsParent(ns: seq<Node>, parent: Option<nat>)
  {
    parent.Some? ==> parent.value < |ns| && ns[parent.value].Inner?
  }

  /** Attaching a new node `child` below `parent` (anytree's `Node(_, parent)`). */
  function AddChild(ns: seq<Node>, parent: Option<nat>, child: nat): (r: seq<Node>)
    requires IsParent(ns, parent)
    ensures |r| == |ns| && IsParent(r, parent)
  {
    match parent
    case None => ns
    case Some(p) => ns[p := Inner(ns[p].symbol, ns[p].children + [child])]
  }

  /** `parent.children = []`. */
  function Cleared(ns: seq<Node>, me: nat): (r: seq<Node>)
    requires me < |ns| && ns[me].Inner?
    ensures |r| == |ns| && r[me] == Inner(ns[me].symbol, [])
  {
    ns[me := Inner(ns[me].symbol, [])]
  }

  /** A handler's effect on the arena: it appends its own node, labelled
      `symbol` and attached below `parent`, and changes no older node. */
  ghost predicate Grew(a: seq<Node>, b: seq<Node>, parent: Option<nat>, symbol: string)
    requires IsParent(a, parent)
  {
    |a| < |b| && b[..|a|] == AddChild(a, parent, |a|) && b[|a|].Inner? && b[|a|].symbol == symbol
  }

  /** Node `me` keeps its place and its symbol, and no node before it
      changes: what every handler below `me` guarantees. */
  ghost predicate Keeps(a: seq<Node>, b: seq<Node>, me: nat)
    requires IsParent(a, Some(me))
  {
    me < |b| && b[..me] == a[..me] && b[me].Inner? && b[me].symbol == a[me].symbol
  }

  /** Two handlers run one after the other below `me` keep what each keeps. */
  lemma KeepsTrans(a: seq<Node>, b: seq<Node>, c: seq<Node>, me: nat)
    requires IsParent(a, Some(me)) && Keeps(a, b, me) && Keeps(b, c, me)
    ensures Keeps(a, c, me)
  {
  }

  /** `Succeeded` when the index has just reached the end of the formula. */
  function SuccessAt(length: nat, i: nat): seq<Event>
  {
    if i == length then [Succeeded] else []
  }

  // ---------------------------------------------------------------------------
  // The arena

  lemma AttachKeepsTree(ns: seq<Node>, parent: Option<nat>, n: Node)
    requires TreeOk(ns) && IsParent(ns, parent) && (n.Inner? ==> n.children == [])
    ensures TreeOk(AddChild(ns, parent, |ns|) + [n])
  {
    var r := AddChild(ns, parent, |ns|) + [n];
    forall i | 0 <= i < |r| && r[i].Inner? ensures forall c :: c in r[i].children ==> i < c < |r| {
      if i < |ns| && parent == Some(i) {
        assert r[i].children == ns[i].children + [|ns|];
      }
    }
  }


  /** A node without its children: a leaf, or an inner node's symbol. */
  function Head(n: Node): Node
  {
    if n.Inner? then Inner(n.symbol, []) else n
  }

  /** The head of the first child of `me`: which alternative a handler took. */
  ghost function FirstChild(ns: seq<Node>, me: nat): Option<Node>
  {
    if me < |ns| && ns[me].Inner? && |ns[me].children| > 0 && ns[me].children[0] < |ns|
    then Some(Head(ns[ns[me].children[0]]))
    else None
  }

  /** Attaching a node below `me` makes it the first child of a childless
      `me`, and keeps the first child of `me` otherwise. */
  lemma AttachFirst(a: seq<Node>, b: seq<Node>, me: nat)
    requires TreeOk(a) && IsParent(a, Some(me)) && |a| < |b| && b[..|a|] == AddChild(a, Some(me), |a|)
    ensures a[me].children == [] ==> FirstChild(b, me) == Some(Head(b[|a|]))
    ensures FirstChild(a, me).Some? ==> FirstChild(b, me) == FirstChild(a, me)
  {
    assert b[me] == b[..|a|][me];
    if a[me].children != [] {
      var c := a[me].children[0];
      assert c in a[me].children;
      assert b[c] == b[..|a|][c];
    }
  }

  /** The same for a handler that grew its node `sym` below `me`. */
  lemma GrewFirst(a: seq<Node>, b: seq<Node>, me: nat, sym: string)
    requires TreeOk(a) && IsParent(a, Some(me)) && Grew(a, b, Some(me), sym)
    ensures a[me].children == [] ==> FirstChild(b, me) == Some(Inner(sym, []))
    ensures FirstChild(a, me).Some? ==> FirstChild(b, me) == FirstChild(a, me)
  {
    AttachFirst(a, b, me);
  }

  /** The first child the start handler attaches once the predicate
      alternative has failed: the unary connective's leaf, the bracket's
      leaf, or else the quantifier node, whether or not it matches. */
  ghost function OtherFirst(g: Grammar, t: string): Option<Node>
    requires WellFormed(g)
  {
    if t == Unary(g) then (if t == "" then None else Some(Leaf(Label(t))))
    else if t == "(" then Some(Leaf(Label("(")))
    else Some(Inner("Q", []))
  }

  // ---------------------------------------------------------------------------
  // The grammar as the parser reads it

  /** The names the predicate handler compares the lookahead with,
      `predicate[:predicate.index('(')]`, one per P alternative. */
  function Names(g: Grammar): (ns: seq<string>)
    requires WellFormed(g)
    ensures |ns| == |g.predicates| && forall k :: 0 <= k < |ns| ==> ns[k] == AltName(g.predicates[k])
  {
    seq(|g.predicates|, k requires 0 <= k < |g.predicates| => AltName(g.predicates[k]))
  }

  /** The number of variables the predicate handler reads for alternative `k`:
      `predicate.count('V')` over the whole production, the `V`s of the name
      included; `range(n - 1)` runs no time for `n <= 1`, and one more
      variable follows. */
  function ArgCount(g: Grammar, k: nat): (n: nat)
    requires WellFormed(g) && k < |g.predicates|
    ensures n >= 1 && (AltArityAsWritten(g.predicates[k]) >= 1 ==> n == AltArityAsWritten(g.predicates[k]))
  {
    var n := AltArityAsWritten(g.predicates[k]);
    if n >= 1 then n else 1
  }

  /** For an alternative generated from a predicate token, the handler reads
      the declared arity (1 for 0) plus one variable per `V` of the name: the
      declared arity exactly when the name holds no `V`. */
  lemma ArgCountOfEntry(g: Grammar, k: nat, tok: string)
    requires WellFormed(g) && k < |g.predicates|
    requires PredicateEntry(tok).Some? && g.predicates[k] == PredicateEntry(tok).value.1
    requires '(' !in PredicateEntry(tok).value.0
    ensures var name := PredicateEntry(tok).value.0;
      var d := DigitValue(tok[FirstDigit(tok).value]);
      && ArgCount(g, k) == (if d == 0 then 1 else d) + CountChar(name, 'V')
      && (CountChar(name, 'V') == 0 ==> ArgCount(g, k) == AltArity(g.predicates[k]))
  {
    EntryReadBack(tok);
  }

  /** The tokens the start handler accepts first: a predicate name, the unary
      connective, `(`, or a quantifier. */
  ghost predicate IsStarter(g: Grammar, t: string)
    requires WellFormed(g)
  {
    t in Names(g) || t == Unary(g) || t == "(" || t in g.quantifiers
  }

  /** The tokens the term handler accepts: a variable or a constant. */
  ghost predicate IsTerm(g: Grammar, t: string)
  {
    t in g.variables || t in g.constants
  }

  // ---------------------------------------------------------------------------
  // The formulas of the grammar, as the token sequences the parser reads

  /** S -> P | U S | ( A | Q V S */
  datatype Formula =
    | Atomic(name: string, args: seq<string>)
    | Negated(body: Formula)
    | Bracketed(inner: Compound)
    | Quantified(quantifier: string, variable: string, body: Formula)

  /** A -> T E T ) | S J S ) */
  datatype Compound =
    | Equation(left: string, right: string)
    | Binary(lhs: Formula, connective: string, rhs: Formula)

  /** `a1 , a2 , ... , an` as tokens. */
  function Joined(args: seq<string>): (r: seq<string>)
    ensures |args| > 0 ==> |r| == 2 * |args| - 1
    ensures |args| == 0 ==> |r| == 0
  {
    seq(if |args| == 0 then 0 else 2 * |args| - 1,
        i requires 0 <= i < 2 * |args| - 1 => if i % 2 == 0 then args[i / 2] else ",")
  }

  /** The `r`-th argument sits at position `2r`, each followed by a comma
      but the last. */
  lemma JoinedAt(args: seq<string>, r: nat)
    requires r < |args|
    ensures 2 * r < |Joined(args)| && Joined(args)[2 * r] == args[r]
    ensures r < |args| - 1 ==> Joined(args)[2 * r + 1] == ","
  {
    assert (2 * r) % 2 == 0 && (2 * r) / 2 == r && (2 * r + 1) % 2 == 1;
  }

  /** The tokens of `name ( a1 , ... , an )`. */
  function AtomicTokens(name: string, args: seq<string>): (r: seq<string>)
  {
    [name, "("] + (Joined(args) + [")"])
  }

  function Tokens(g: Grammar, f: Formula): (r: seq<string>)
    requires WellFormed(g)
    ensures |r| > 0
    decreases f
  {
    match f
    case Atomic(name, args) => AtomicTokens(name, args)
    case Negated(body) => [Unary(g)] + Tokens(g, body)
    case Bracketed(inner) => ["("] + CompoundTokens(g, inner)
    case Quantified(q, v, body) => [q, v] + Tokens(g, body)
  }

  function CompoundTokens(g: Grammar, c: Compound): (r: seq<string>)
    requires WellFormed(g)
    ensures |r| > 0
    decreases c
  {
    match c
    case Equation(l, r) => [l, g.equality[0], r, ")"]
    case Binary(l, j, r) => Tokens(g, l) + [j] + Tokens(g, r) + [")"]
  }

  /** The predicate handler reads `name ( a1 , ... , an )` when `name` names
      an alternative, the first such alternative asks for `n` arguments, and
      every `ai` is a variable. */
  ghost predicate AtomicOk(g: Grammar, name: string, args: seq<string>)
    requires WellFormed(g)
  {
    && name in Names(g)
    && |args| == ArgCount(g, IndexOf(Names(g), name).value)
    && forall k :: 0 <= k < |args| ==> args[k] in g.variables
  }

  ghost predicate WellTyped(g: Grammar, f: Formula)
    requires WellFormed(g)
    decreases f
  {
    match f
    case Atomic(name, args) => AtomicOk(g, name, args)
    case Negated(body) => WellTyped(g, body)
    case Bracketed(inner) => CompoundOk(g, inner)
    case Quantified(q, v, body) => q in g.quantifiers && v in g.variables && WellTyped(g, body)
  }

  ghost predicate CompoundOk(g: Grammar, c: Compound)
    requires WellFormed(g)
    decreases c
  {
    match c
    case Equation(l, r) => (l in g.variables || l in g.constants) && (r in g.variables || r in g.constants)
    case Binary(l, j, r) => WellTyped(g, l) && j in g.connectives && WellTyped(g, r)
  }

  /** Every terminal `match` may be asked for is non-empty, so `terminal[0]`
      does not fail. */
  ghost predicate NonEmptyTerminals(g: Grammar)
    requires WellFormed(g)
  {
    && "" !in Names(g) && "" !in g.variables && "" !in g.constants
    && "" !in g.quantifiers && "" !in g.connectives
    && g.equality[0] != "" && Unary(g) != ""
  }

  /** The handlers' first-token tests pick the right alternative: the start
      handler's four tests are disjoint, and no formula starts with a term. */
  ghost predicate Deterministic(g: Grammar)
    requires WellFormed(g)
  {
    && NonEmptyTerminals(g)
    && Unary(g) !in Names(g) && "(" !in Names(g) && Unary(g) != "("
    && (forall q :: q in g.quantifiers ==> q !in Names(g) && q != Unary(g) && q != "(")
    && (forall t :: IsStarter(g, t) ==> !IsTerm(g, t))
  }

  /** A well-typed formula starts with a token the start handler accepts. */
  lemma FirstToken(g: Grammar, f: Formula)
    requires WellFormed(g) && WellTyped(g, f)
    ensures IsStarter(g, Tokens(g, f)[0])
  {
  }

  /** `formula[s:s+len(toks)] == toks`. */
  ghost predicate SpelledAt(formula: seq<string>, s: nat, toks: seq<string>)
  {
    s + |toks| <= |formula| && forall i :: 0 <= i < |toks| ==> formula[s + i] == toks[i]
  }

  lemma SpelledSplit(formula: seq<string>, s: nat, a: seq<string>, b: seq<string>)
    requires SpelledAt(formula, s, a + b)
    ensures SpelledAt(formula, s, a) && SpelledAt(formula, s + |a|, b)
  {
    forall i | 0 <= i < |a| ensures formula[s + i] == a[i] {
      assert (a + b)[i] == a[i];
    }
    forall i | 0 <= i < |b| ensures formula[s + |a| + i] == b[i] {
      assert (a + b)[|a| + i] == b[i];
    }
  }

  lemma SpelledHead(formula: seq<string>, s: nat, t: string, rest: seq<string>)
    requires SpelledAt(formula, s, [t] + rest)
    ensures s < |formula| && formula[s] == t && SpelledAt(formula, s + 1, rest)
  {
    SpelledSplit(formula, s, [t], rest);
    assert formula[s + 0] == [t][0];
  }

  lemma SpelledIndex(formula: seq<string>, s: nat, toks: seq<string>, i: nat)
    requires SpelledAt(formula, s, toks) && i < |toks|
    ensures s + i < |formula| && formula[s + i] == toks[i]
  {
  }

  /** The tokens at and after the `r`-th argument of a spelled argument list. */
  lemma ArgumentAt(formula: seq<string>, s: nat, args: seq<string>, r: nat)
    requires SpelledAt(formula, s, Joined(args) + [")"]) && r < |args|
    ensures s + 2 * r + 1 < |formula| && formula[s + 2 * r] == args[r]
    ensures r < |args| - 1 ==> formula[s + 2 * r + 1] == ","
    ensures r == |args| - 1 ==> formula[s + 2 * r + 1] == ")"
  {
    var toks := Joined(args) + [")"];
    JoinedAt(args, r);
    assert toks[2 * r] == args[r];
    assert r < |args| - 1 ==> toks[2 * r + 1] == ",";
    assert 2 * r + 1 == |Joined(args)| ==> toks[2 * r + 1] == ")";
    SpelledIndex(formula, s, toks, 2 * r);
    SpelledIndex(formula, s, toks, 2 * r + 1);
  }

  /** The tokens from `s` on spell the variables `args`, separated by commas
      and followed by `)`. */
  ghost predicate ArgumentsAt(g: Grammar, formula: seq<string>, s: nat, args: seq<string>)
  {
    && "" !in g.variables
    && s + 2 * |args| <= |formula|
    && forall r :: 0 <= r < |args| ==>
      && args[r] in g.variables && formula[s + 2 * r] == args[r]
      && formula[s + 2 * r + 1] == if r < |args| - 1 then "," else ")"
  }

  /** The tokens from `s` on are a predicate name, `(`, and as many
      variables as the name's first alternative asks for, separated by
      commas and followed by `)`. */
  ghost predicate PredicateAt(g: Grammar, formula: seq<string>, s: nat, args: seq<string>)
    requires WellFormed(g)
  {
    && NonEmptyTerminals(g)
    && s + 1 < |formula| && formula[s] in Names(g) && formula[s + 1] == "("
    && |args| == ArgCount(g, IndexOf(Names(g), formula[s]).value)
    && ArgumentsAt(g, formula, s + 2, args)
  }

  /** A well-typed atomic formula spelled from `s` is what the predicate
      handler expects there. */
  lemma AtomicSpelled(g: Grammar, formula: seq<string>, s: nat, name: string, args: seq<string>)
    requires WellFormed(g) && NonEmptyTerminals(g) && AtomicOk(g, name, args)
    requires SpelledAt(formula, s, AtomicTokens(name, args))
    ensures formula[s] == name && PredicateAt(g, formula, s, args)
    ensures |AtomicTokens(name, args)| == 2 * |args| + 2
  {
    assert AtomicTokens(name, args) == [name] + (["("] + (Joined(args) + [")"]));
    SpelledHead(formula, s, name, ["("] + (Joined(args) + [")"]));
    SpelledHead(formula, s + 1, "(", Joined(args) + [")"]);
    ArgumentsSpelled(g, formula, s + 2, args);
  }

  lemma ArgumentsSpelled(g: Grammar, formula: seq<string>, s: nat, args: seq<string>)
    requires "" !in g.variables && forall k :: 0 <= k < |args| ==> args[k] in g.variables
    requires SpelledAt(formula, s, Joined(args) + [")"])
    ensures ArgumentsAt(g, formula, s, args)
  {
    forall r | 0 <= r < |args|
      ensures formula[s + 2 * r] == args[r]
      ensures formula[s + 2 * r + 1] == if r < |args| - 1 then "," else ")"
    {
      ArgumentAt(formula, s, args, r);
    }
  }

  /** The tokens from `s` on spell the well-typed formula `f`, for a grammar
      whose first-token tests are disjoint. */
  ghost predicate Spells(g: Grammar, formula: seq<string>, s: nat, f: Formula)
    requires WellFormed(g)
  {
    Deterministic(g) && WellTyped(g, f) && SpelledAt(formula, s, Tokens(g, f))
  }

  ghost predicate SpellsCompound(g: Grammar, formula: seq<string>, s: nat, c: Compound)
    requires WellFormed(g)
  {
    Deterministic(g) && CompoundOk(g, c) && SpelledAt(formula, s, CompoundTokens(g, c))
  }

  /** A spelled formula that is not atomic does not start with a predicate
      name. */
  lemma NotAtomicSpelled(g: Grammar, formula: seq<string>, s: nat, f: Formula)
    requires WellFormed(g) && Spells(g, formula, s, f) && !f.Atomic?
    ensures s < |formula| && formula[s] !in Names(g)
  {
    SpelledIndex(formula, s, Tokens(g, f), 0);
  }

  lemma NegatedSpelled(g: Grammar, formula: seq<string>, s: nat, body: Formula)
    requires WellFormed(g) && Spells(g, formula, s, Negated(body))
    ensures s < |formula| && formula[s] == Unary(g) && Spells(g, formula, s + 1, body)
    ensures |Tokens(g, Negated(body))| == |Tokens(g, body)| + 1
  {
    SpelledHead(formula, s, Unary(g), Tokens(g, body));
  }

  lemma BracketedSpelled(g: Grammar, formula: seq<string>, s: nat, inner: Compound)
    requires WellFormed(g) && Spells(g, formula, s, Bracketed(inner))
    ensures s < |formula| && formula[s] == "(" && SpellsCompound(g, formula, s + 1, inner)
    ensures |Tokens(g, Bracketed(inner))| == |CompoundTokens(g, inner)| + 1
  {
    SpelledHead(formula, s, "(", CompoundTokens(g, inner));
  }

  lemma QuantifiedSpelled(g: Grammar, formula: seq<string>, s: nat, q: string, v: string, body: Formula)
    requires WellFormed(g) && Spells(g, formula, s, Quantified(q, v, body))
    ensures s + 1 < |formula| && formula[s] == q && q in g.quantifiers
    ensures formula[s + 1] == v && v in g.variables && Spells(g, formula, s + 2, body)
    ensures |Tokens(g, Quantified(q, v, body))| == |Tokens(g, body)| + 2
  {
    assert Tokens(g, Quantified(q, v, body)) == [q] + ([v] + Tokens(g, body));
    SpelledHead(formula, s, q, [v] + Tokens(g, body));
    SpelledHead(formula, s + 1, v, Tokens(g, body));
  }

  lemma EquationSpelled(g: Grammar, formula: seq<string>, s: nat, l: string, r: string)
    requires WellFormed(g) && SpellsCompound(g, formula, s, Equation(l, r))
    ensures NonEmptyTerminals(g) && s + 3 < |formula|
    ensures formula[s] == l && IsTerm(g, l) && formula[s + 1] == g.equality[0]
    ensures formula[s + 2] == r && IsTerm(g, r) && formula[s + 3] == ")"
    ensures |CompoundTokens(g, Equation(l, r))| == 4
  {
    var toks := CompoundTokens(g, Equation(l, r));
    SpelledIndex(formula, s, toks, 0);
    SpelledIndex(formula, s, toks, 1);
    SpelledIndex(formula, s, toks, 2);
    SpelledIndex(formula, s, toks, 3);
  }

  /** A spelled formula starts with a token the start handler accepts and
      the term handler does not. */
  lemma FirstSpelled(g: Grammar, formula: seq<string>, s: nat, f: Formula)
    requires WellFormed(g) && Spells(g, formula, s, f)
    ensures s < |formula| && IsStarter(g, formula[s]) && !IsTerm(g, formula[s])
  {
    FirstToken(g, f);
    SpelledIndex(formula, s, Tokens(g, f), 0);
  }

  lemma BinaryTokens(g: Grammar, l: Formula, j: string, r: Formula)
    requires WellFormed(g)
    ensures CompoundTokens(g, Binary(l, j, r)) == Tokens(g, l) + ([j] + (Tokens(g, r) + [")"]))
    ensures |CompoundTokens(g, Binary(l, j, r))| == |Tokens(g, l)| + |Tokens(g, r)| + 2
  {
  }

  lemma BinarySpelled(g: Grammar, formula: seq<string>, s: nat, l: Formula, j: string, r: Formula)
    requires WellFormed(g) && SpellsCompound(g, formula, s, Binary(l, j, r))
    ensures Spells(g, formula, s, l) && s < |formula| && IsStarter(g, formula[s]) && !IsTerm(g, formula[s])
    ensures SpelledAt(formula, s + |Tokens(g, l)|, [j] + (Tokens(g, r) + [")"]))
    ensures j in g.connectives && Deterministic(g) && WellTyped(g, r)
    ensures |CompoundTokens(g, Binary(l, j, r))| == |Tokens(g, l)| + |Tokens(g, r)| + 2
  {
    BinaryTokens(g, l, j, r);
    SpelledSplit(formula, s, Tokens(g, l), [j] + (Tokens(g, r) + [")"]));
    FirstSpelled(g, formula, s, l);
  }

  /** The connective, the second formula and `)` of a binary compound. */
  lemma SecondSpelled(g: Grammar, formula: seq<string>, s: nat, j: string, r: Formula)
    requires WellFormed(g) && Deterministic(g) && WellTyped(g, r)
    requires SpelledAt(formula, s, [j] + (Tokens(g, r) + [")"]))
    ensures s < |formula| && formula[s] == j && Spells(g, formula, s + 1, r)
    ensures s + 1 + |Tokens(g, r)| < |formula| && formula[s + 1 + |Tokens(g, r)|] == ")"
  {
    SpelledHead(formula, s, j, Tokens(g, r) + [")"]);
    SpelledSplit(formula, s + 1, Tokens(g, r), [")"]);
    SpelledHead(formula, s + 1 + |Tokens(g, r)|, ")", []);
  }

  /** Closing a handler: its node, attached below `parent`, and every node
      before it are kept. */
  lemma Settle(a: seq<Node>, b: seq<Node>, c: seq<Node>, parent: Option<nat>, symbol: string)
    requires IsParent(a, parent) && b == AddChild(a, parent, |a|) + [Inner(symbol, [])]
    requires Keeps(b, c, |a|)
    ensures Grew(a, c, parent, symbol)
    ensures parent.Some? ==> Keeps(a, c, parent.value)
  {
    assert b[..|a|] == AddChild(a, parent, |a|);
    if parent.Some? {
      var p := parent.value;
      assert c[..p] == c[..|a|][..p];
      assert c[p] == c[..|a|][p];
    }
  }

  // ---------------------------------------------------------------------------
  // The parser

  class Parser {
    const formula: seq<string>
    const grammar: Grammar
    var index: nat
    /** `None` before `parse` runs is written as the empty string. */
    var lookahead: string
    var nodes: seq<Node>
    var log: seq<Event>
    /** Python raised an IndexError: the run stopped there. */
    var crashed: bool

    constructor (formula: seq<string>, grammar: Grammar)
      ensures this.formula == formula && this.grammar == grammar
      ensures index == 0 && lookahead == "" && nodes == [] && log == [] && !crashed
    {
      this.formula := formula;
      this.grammar := grammar;
      index := 0;
      lookahead := "";
      nodes := [];
      log := [];
      crashed := false;
    }

    /** While running, the lookahead is the token at the index, or the last
        token once the index has reached the end, and `Succeeded` is logged
        exactly when the end is reached. */
    ghost predicate Valid()
      reads this
    {
      && WellFormed(grammar)
      && TreeOk(nodes)
      && (!crashed ==>
        && 0 < |formula| && index <= |formula|
        && lookahead == formula[if index < |formula| then index else |formula| - 1]
        && (Succeeded in log <==> index == |formula|))
    }

    /** `Node(symbol, parent)` stored in `self.nodes`. */
    method AddNode(symbol: string, parent: Option<nat>) returns (me: nat)
      requires Valid() && IsParent(nodes, parent)
      modifies this
      ensures Valid()
      ensures me == old(|nodes|) && nodes == AddChild(old(nodes), parent, me) + [Inner(symbol, [])]
      ensures nodes[..me] == AddChild(old(nodes), parent, me)
      ensures index == old(index) && lookahead == old(lookahead) && log == old(log) && crashed == old(crashed)
    {
      me := |nodes|;
      AttachKeepsTree(nodes, parent, Inner(symbol, []));
      nodes := AddChild(nodes, parent, me) + [Inner(symbol, [])];
      assert nodes[..me] == AddChild(old(nodes), parent, me);
    }

    /** `parent.children = []`. */
    method ClearChildren(me: nat)
      requires Valid() && me < |nodes| && nodes[me].Inner?
      modifies this
      ensures Valid() && Keeps(old(nodes), nodes, me)
      ensures nodes == Cleared(old(nodes), me)
      ensures index == old(index) && lookahead == old(lookahead) && log == old(log) && crashed == old(crashed)
    {
      nodes := Cleared(nodes, me);
    }

    /** `nextTerminal`: advance, log `Succeeded` on reaching the end (the
        lookahead then stays on the last token), and fail on indexing past it. */
    method NextTerminal()
      modifies this
      ensures index == old(index) + 1 && nodes == old(nodes)
      ensures crashed == (old(crashed) || index > |formula|)
      ensures index == |formula| ==> log == old(log) + [Succeeded] && lookahead == old(lookahead)
      ensures index != |formula| ==> log == old(log)
      ensures index < |formula| ==> lookahead == formula[index]
      ensures index > |formula| ==> lookahead == old(lookahead)
    {
      index := index + 1;
      if index == |formula| {
        log := log + [Succeeded];
        return;
      }
      if index > |formula| {
        crashed := true;
        return;
      }
      lookahead := formula[index];
    }

    /** `match`: on the expected terminal, attach a leaf and advance; on any
        other token, log a syntax error and stay. */
    method Match(terminal: string, parent: nat)
      requires Valid() && !crashed && IsParent(nodes, Some(parent))
      modifies this
      ensures Valid() && Keeps(old(nodes), nodes, parent) && old(log) <= log
      ensures old(lookahead) != terminal ==>
        && !crashed && index == old(index) && lookahead == old(lookahead) && nodes == old(nodes)
        && log == old(log) + [SyntaxError(old(lookahead), old(index))]
      ensures old(lookahead) == terminal ==>
        && (crashed <==> terminal == "" || old(index) == |formula|)
        && (!crashed ==>
          && index == old(index) + 1
          && nodes == AddChild(old(nodes), Some(parent), old(|nodes|)) + [Leaf(Label(terminal))]
          && log == old(log) + SuccessAt(|formula|, index))
      ensures old(lookahead) == terminal && terminal == "" ==> crashed && nodes == old(nodes)
      ensures old(lookahead) == terminal && terminal != "" ==>
        nodes == AddChild(old(nodes), Some(parent), old(|nodes|)) + [Leaf(Label(terminal))]
      ensures FirstChild(old(nodes), parent).Some? ==> FirstChild(nodes, parent) == FirstChild(old(nodes), parent)
      ensures old(nodes[parent].children) == [] && old(lookahead) == terminal && terminal != "" ==>
        FirstChild(nodes, parent) == Some(Leaf(Label(terminal)))
    {
      if lookahead == terminal {
        if terminal == "" {
          crashed := true;
          return;
        }
        AttachKeepsTree(nodes, Some(parent), Leaf(Label(terminal)));
        ghost var n0 := nodes;
        nodes := AddChild(nodes, Some(parent), |nodes|) + [Leaf(Label(terminal))];
        assert nodes[..|n0|] == AddChild(n0, Some(parent), |n0|);
        AttachFirst(n0, nodes, parent);
        NextTerminal();
      } else {
        log := log + [SyntaxError(lookahead, index)];
      }
    }

    /** The variable, constant, quantifier, connective and equality handlers:
        attach a node, then match the first alternative equal to the
        lookahead, if any. */
    method Scan(symbol: string, alternatives: seq<string>, parent: nat) returns (ok: bool)
      requires Valid() && !crashed && IsParent(nodes, Some(parent))
      modifies this
      ensures Valid() && Grew(old(nodes), nodes, Some(parent), symbol) && Keeps(old(nodes), nodes, parent)
      ensures old(log) <= log
      ensures ok <==> old(lookahead) in alternatives
      ensures !ok ==> !crashed && index == old(index) && lookahead == old(lookahead) && log == old(log)
      ensures ok ==> (crashed <==> old(lookahead) == "" || old(index) == |formula|)
      ensures ok && !crashed ==> index == old(index) + 1 && log == old(log) + SuccessAt(|formula|, index)
    {
      var me := AddNode(symbol, Some(parent));
      var i := 0;
      while i < |alternatives| && lookahead != alternatives[i]
        invariant i <= |alternatives| && old(lookahead) !in alternatives[..i]
        decreases |alternatives| - i
      {
        assert alternatives[..i + 1] == alternatives[..i] + [alternatives[i]];
        i := i + 1;
      }
      if i == |alternatives| {
        assert alternatives[..i] == alternatives;
        return false;
      }
      Match(alternatives[i], me);
      ok := true;
    }

    /** The predicate handler's search: the first P alternative whose name is
        the lookahead. */
    method FindName() returns (k: Option<nat>)
      requires WellFormed(grammar)
      ensures k == IndexOf(Names(grammar), lookahead)
    {
      var i := 0;
      while i < |grammar.predicates|
        invariant i <= |grammar.predicates| && lookahead !in Names(grammar)[..i]
      {
        var alt := grammar.predicates[i];
        if lookahead == alt[..IndexOf(alt, '(').value] {
          IndexOfAt(Names(grammar), lookahead, i);
          return Some(i);
        }
        assert Names(grammar)[..i + 1] == Names(grammar)[..i] + [Names(grammar)[i]];
        i := i + 1;
      }
      assert Names(grammar)[..i] == Names(grammar);
      return None;
    }

    /** One argument of a predicate: a variable, then `separator` (a comma
        between arguments, `)` after the last one). */
    method VariableThen(me: nat, separator: string)
      requires Valid() && !crashed && IsParent(nodes, Some(me))
      modifies this
      ensures Valid() && Keeps(old(nodes), nodes, me) && old(log) <= log
      ensures !crashed ==> index >= old(index)
      ensures && old(index) + 1 < |formula| && old(lookahead) in grammar.variables && old(lookahead) != ""
              && formula[old(index) + 1] == separator && separator != "" ==>
        !crashed && index == old(index) + 2 && log == old(log) + SuccessAt(|formula|, index)
    {
      ghost var s := index;
      ghost var complete := && s + 1 < |formula| && lookahead in grammar.variables && lookahead != ""
                            && formula[s + 1] == separator && separator != "";
      var v := Scan("V", grammar.variables, me);
      if complete {
        assert !crashed && index == s + 1 && log == old(log) && lookahead == formula[s + 1];
      }
      if crashed {
        return;
      }
      ghost var n1 := nodes;
      Match(separator, me);
      KeepsTrans(old(nodes), n1, nodes, me);
    }

    /** The argument list of a predicate: `count - 1` times a variable and a
        comma, then the last variable and `)`. */
    method Arguments(me: nat, count: nat, ghost args: seq<string>)
      requires Valid() && !crashed && IsParent(nodes, Some(me)) && count >= 1
      modifies this
      ensures Valid() && Keeps(old(nodes), nodes, me) && old(log) <= log
      ensures !crashed ==> index >= old(index)
      ensures |args| == count && ArgumentsAt(grammar, formula, old(index), args) ==>
        !crashed && index == old(index) + 2 * count && log == old(log) + SuccessAt(|formula|, index)
    {
      ghost var s := index;
      ghost var complete := |args| == count && ArgumentsAt(grammar, formula, s, args);
      for r := 0 to count - 1
        invariant Valid() && !crashed && index >= s
        invariant Keeps(old(nodes), nodes, me) && old(log) <= log
        invariant complete ==> index == s + 2 * r && log == old(log)
      {
        if complete {
          assert args[r] in grammar.variables;
        }
        ghost var n1 := nodes;
        VariableThen(me, ",");
        KeepsTrans(old(nodes), n1, nodes, me);
        if crashed {
          return;
        }
      }
      if complete {
        assert args[count - 1] in grammar.variables;
      }
      ghost var n1 := nodes;
      VariableThen(me, ")");
      KeepsTrans(old(nodes), n1, nodes, me);
    }

    /** `predicate`: find the first alternative whose name is the lookahead,
        then match the name, `(`, the variables separated by commas, and `)`.
        The number of variables is `ArgCount`, the source's own count. */
    method Predicate(parent: nat, ghost args: seq<string>) returns (ok: bool)
      requires Valid() && !crashed && IsParent(nodes, Some(parent))
      modifies this
      ensures Valid() && Grew(old(nodes), nodes, Some(parent), "P") && Keeps(old(nodes), nodes, parent)
      ensures old(log) <= log && (!crashed ==> index >= old(index))
      ensures ok <==> old(lookahead) in Names(grammar)
      ensures !ok ==> !crashed && index == old(index) && lookahead == old(lookahead) && log == old(log)
      ensures ok && !crashed ==> index > old(index)
      ensures PredicateAt(grammar, formula, old(index), args) ==>
        !crashed && index == old(index) + 2 * |args| + 2 && log == old(log) + SuccessAt(|formula|, index)
    {
      var me := AddNode("P", Some(parent));
      ghost var added := nodes;
      var k := FindName();
      ok := k.Some?;
      if ok {
        Alternative(me, k.value, args);
      }
      Settle(old(nodes), added, nodes, Some(parent), "P");
    }

    /** The rest of the predicate handler once the `k`-th alternative is
        chosen: its name, `(`, and the arguments. */
    method Alternative(me: nat, k: nat, ghost args: seq<string>)
      requires Valid() && !crashed && IsParent(nodes, Some(me))
      requires k < |grammar.predicates| && lookahead == Names(grammar)[k]
      modifies this
      ensures Valid() && Keeps(old(nodes), nodes, me) && old(log) <= log
      ensures !crashed ==> index > old(index)
      ensures PredicateAt(grammar, formula, old(index), args) && IndexOf(Names(grammar), old(lookahead)) == Some(k) ==>
        !crashed && index == old(index) + 2 * |args| + 2 && log == old(log) + SuccessAt(|formula|, index)
    {
      ghost var complete := PredicateAt(grammar, formula, index, args) && IndexOf(Names(grammar), lookahead) == Some(k);
      ghost var s := index;
      if complete {
        assert formula[s + 1] == "(" && |args| == ArgCount(grammar, k) && s + 2 < |formula|;
        assert ArgumentsAt(grammar, formula, s + 2, args);
      }
      Opening(Names(grammar)[k], me);
      ghost var n1 := nodes;
      if !crashed {
        Arguments(me, ArgCount(grammar, k), args);
        KeepsTrans(old(nodes), n1, nodes, me);
      }
    }

    /** The name of a predicate followed by `(`. */
    method Opening(name: string, me: nat)
      requires Valid() && !crashed && IsParent(nodes, Some(me)) && lookahead == name
      modifies this
      ensures Valid() && Keeps(old(nodes), nodes, me) && old(log) <= log
      ensures !crashed ==> index > old(index)
      ensures name != "" && old(index) + 2 < |formula| && formula[old(index) + 1] == "(" ==>
        !crashed && index == old(index) + 2 && log == old(log)
    {
      Match(name, me);
      ghost var n1 := nodes;
      if !crashed {
        Match("(", me);
        KeepsTrans(old(nodes), n1, nodes, me);
      }
    }

    /** `term`: a variable, or else a constant. */
    method Term(parent: nat) returns (ok: bool)
      requires Valid() && !crashed && IsParent(nodes, Some(parent))
      modifies this
      ensures Valid() && Grew(old(nodes), nodes, Some(parent), "T") && Keeps(old(nodes), nodes, parent)
      ensures old(log) <= log
      ensures ok <==> old(lookahead) in grammar.variables || old(lookahead) in grammar.constants
      ensures !ok ==> !crashed && index == old(index) && lookahead == old(lookahead) && log == old(log)
      ensures ok ==> (crashed <==> old(lookahead) == "" || old(index) == |formula|)
      ensures ok && !crashed ==> index == old(index) + 1 && log == old(log) + SuccessAt(|formula|, index)
    {
      var me := AddNode("T", Some(parent));
      ok := Scan("V", grammar.variables, me);
      if ok {
        return;
      }
      ClearChildren(me);
      ok := Scan("C", grammar.constants, me);
    }

    /** `start`: S -> P | U S | ( A | Q V S, the alternatives tried in this
        order on the lookahead; none fits: a syntax error is logged and the
        result is falsy. A well-typed formula spelled from the index is read
        to its end. The node's first child shows which alternative was taken. */
    method Start(parent: Option<nat>, ghost expected: Option<Formula>) returns (ok: bool)
      requires Valid() && !crashed && IsParent(nodes, parent)
      modifies this
      decreases |formula| - index, 4
      ensures Valid() && Grew(old(nodes), nodes, parent, "S")
      ensures parent.Some? ==> Keeps(old(nodes), nodes, parent.value)
      ensures old(log) <= log && (!crashed ==> index >= old(index))
      ensures ok <==> IsStarter(grammar, old(lookahead))
      ensures ok && !crashed ==> index > old(index)
      ensures !ok ==> && !crashed && index == old(index) && lookahead == old(lookahead)
                      && log == old(log) + [SyntaxError(old(lookahead), old(index))]
      ensures expected.Some? && Spells(grammar, formula, old(index), expected.value) ==>
        && ok && !crashed && index == old(index) + |Tokens(grammar, expected.value)|
        && log == old(log) + SuccessAt(|formula|, index)
      ensures FirstChild(nodes, old(|nodes|)) ==
        if old(lookahead) in Names(grammar) then Some(Inner("P", [])) else OtherFirst(grammar, old(lookahead))
    {
      var me := AddNode("S", parent);
      ghost var added := nodes;
      ok := StartBody(me, expected);
      Settle(old(nodes), added, nodes, parent, "S");
    }

    /** The alternatives of `start` below its node: the predicate first, the
        others once it has failed. */
    method StartBody(me: nat, ghost expected: Option<Formula>) returns (ok: bool)
      requires Valid() && !crashed && IsParent(nodes, Some(me))
      modifies this
      decreases |formula| - index, 3
      ensures Valid() && Keeps(old(nodes), nodes, me)
      ensures old(log) <= log && (!crashed ==> index >= old(index))
      ensures ok <==> IsStarter(grammar, old(lookahead))
      ensures ok && !crashed ==> index > old(index)
      ensures !ok ==> && !crashed && index == old(index) && lookahead == old(lookahead)
                      && log == old(log) + [SyntaxError(old(lookahead), old(index))]
      ensures expected.Some? && Spells(grammar, formula, old(index), expected.value) ==>
        && ok && !crashed && index == old(index) + |Tokens(grammar, expected.value)|
        && log == old(log) + SuccessAt(|formula|, index)
      ensures old(nodes[me].children) == [] ==>
        FirstChild(nodes, me) == (if old(lookahead) in Names(grammar) then Some(Inner("P", [])) else OtherFirst(grammar, old(lookahead)))
    {
      ghost var args := if expected.Some? && expected.value.Atomic? then expected.value.args else [];
      if expected.Some? && Spells(grammar, formula, index, expected.value) {
        if expected.value.Atomic? {
          AtomicSpelled(grammar, formula, index, expected.value.name, args);
        } else {
          NotAtomicSpelled(grammar, formula, index, expected.value);
        }
      }
      ok := Predicate(me, args);
      ghost var n1 := nodes;
      GrewFirst(old(nodes), n1, me, "P");
      if !crashed && !ok {
        ClearChildren(me);
        KeepsTrans(old(nodes), n1, nodes, me);
        ghost var n2 := nodes;
        ok := StartOther(me, expected);
        KeepsTrans(old(nodes), n2, nodes, me);
      }
    }

    /** The start handler once the predicate alternative has failed (the
        node's children are cleared once: nothing is attached between the
        later tests). */
    method StartOther(me: nat, ghost expected: Option<Formula>) returns (ok: bool)
      requires Valid() && !crashed && IsParent(nodes, Some(me))
      modifies this
      decreases |formula| - index, 2
      ensures Valid() && Keeps(old(nodes), nodes, me)
      ensures old(log) <= log && (!crashed ==> index >= old(index))
      ensures ok <==> old(lookahead) == Unary(grammar) || old(lookahead) == "(" || old(lookahead) in grammar.quantifiers
      ensures ok && !crashed ==> index > old(index)
      ensures !ok ==> && !crashed && index == old(index) && lookahead == old(lookahead)
                      && log == old(log) + [SyntaxError(old(lookahead), old(index))]
      ensures expected.Some? && !expected.value.Atomic? && Spells(grammar, formula, old(index), expected.value) ==>
        && ok && !crashed && index == old(index) + |Tokens(grammar, expected.value)|
        && log == old(log) + SuccessAt(|formula|, index)
      ensures old(nodes[me].children) == [] ==> FirstChild(nodes, me) == OtherFirst(grammar, old(lookahead))
    {
      ghost var complete := expected.Some? && !expected.value.Atomic? && Spells(grammar, formula, index, expected.value);
      if complete {
        match expected.value
        case Negated(body) => NegatedSpelled(grammar, formula, index, body);
        case Bracketed(inner) => BracketedSpelled(grammar, formula, index, inner);
        case Quantified(q, v, body) => QuantifiedSpelled(grammar, formula, index, q, v, body);
      }
      if lookahead == Unary(grammar) {
        if complete {
          assert expected.value.Negated?;
        }
        StartNegated(me, if expected.Some? && expected.value.Negated? then Some(expected.value.body) else None);
        ok := true;
      } else {
        if complete {
          assert !expected.value.Negated?;
        }
        ok := StartNotNegated(me, expected);
      }
    }

    /** The bracket and quantifier alternatives of the start handler, tried
        once the lookahead is not the unary connective. */
    method StartNotNegated(me: nat, ghost expected: Option<Formula>) returns (ok: bool)
      requires Valid() && !crashed && IsParent(nodes, Some(me)) && lookahead != Unary(grammar)
      modifies this
      decreases |formula| - index, 1
      ensures Valid() && Keeps(old(nodes), nodes, me)
      ensures old(log) <= log && (!crashed ==> index >= old(index))
      ensures ok <==> old(lookahead) == "(" || old(lookahead) in grammar.quantifiers
      ensures ok && !crashed ==> index > old(index)
      ensures !ok ==> && !crashed && index == old(index) && lookahead == old(lookahead)
                      && log == old(log) + [SyntaxError(old(lookahead), old(index))]
      ensures && expected.Some? && (expected.value.Bracketed? || expected.value.Quantified?)
              && Spells(grammar, formula, old(index), expected.value) ==>
        && ok && !crashed && index == old(index) + |Tokens(grammar, expected.value)|
        && log == old(log) + SuccessAt(|formula|, index)
      ensures old(nodes[me].children) == [] ==> FirstChild(nodes, me) == OtherFirst(grammar, old(lookahead))
    {
      ghost var complete := && expected.Some? && (expected.value.Bracketed? || expected.value.Quantified?)
                            && Spells(grammar, formula, index, expected.value);
      if complete {
        match expected.value
        case Bracketed(inner) => BracketedSpelled(grammar, formula, index, inner);
        case Quantified(q, v, body) => QuantifiedSpelled(grammar, formula, index, q, v, body);
      }
      if lookahead == "(" {
        assert OtherFirst(grammar, lookahead) == Some(Leaf(Label("(")));
        if complete {
          assert expected.value.Bracketed?;
        }
        StartBracketed(me, if expected.Some? && expected.value.Bracketed? then Some(expected.value.inner) else None);
        ok := true;
      } else {
        assert OtherFirst(grammar, lookahead) == Some(Inner("Q", []));
        if complete {
          assert expected.value.Quantified?;
        }
        ok := StartQuantified(me, if expected.Some? && expected.value.Quantified? then Some(expected.value.body) else None);
      }
    }

    /** S -> U S */
    method StartNegated(me: nat, ghost body: Option<Formula>)
      requires Valid() && !crashed && IsParent(nodes, Some(me)) && lookahead == Unary(grammar)
      modifies this
      decreases |formula| - index, 0
      ensures Valid() && Keeps(old(nodes), nodes, me)
      ensures old(log) <= log && (!crashed ==> index > old(index))
      ensures body.Some? && Spells(grammar, formula, old(index) + 1, body.value) ==>
        && !crashed && index == old(index) + 1 + |Tokens(grammar, body.value)|
        && log == old(log) + SuccessAt(|formula|, index)
      ensures old(nodes[me].children) == [] ==>
        FirstChild(nodes, me) == (if Unary(grammar) == "" then None else Some(Leaf(Label(Unary(grammar)))))
    {
      ghost var s := index;
      ghost var complete := body.Some? && Spells(grammar, formula, s + 1, body.value);
      if complete {
        assert s + 1 < |formula| && Unary(grammar) != "";
      }
      Match(Unary(grammar), me);
      if complete {
        assert !crashed && index == s + 1 && log == old(log);
      }
      ghost var n1 := nodes;
      if !crashed {
        var _ := Start(Some(me), body);
        GrewFirst(n1, nodes, me, "S");
        KeepsTrans(old(nodes), n1, nodes, me);
      }
    }

    /** S -> ( A */
    method StartBracketed(me: nat, ghost inner: Option<Compound>)
      requires Valid() && !crashed && IsParent(nodes, Some(me)) && lookahead == "("
      modifies this
      decreases |formula| - index, 0
      ensures Valid() && Keeps(old(nodes), nodes, me)
      ensures old(log) <= log && (!crashed ==> index > old(index))
      ensures inner.Some? && SpellsCompound(grammar, formula, old(index) + 1, inner.value) ==>
        && !crashed && index == old(index) + 1 + |CompoundTokens(grammar, inner.value)|
        && log == old(log) + SuccessAt(|formula|, index)
      ensures old(nodes[me].children) == [] ==> FirstChild(nodes, me) == Some(Leaf(Label("(")))
    {
      ghost var s := index;
      ghost var complete := inner.Some? && SpellsCompound(grammar, formula, s + 1, inner.value);
      if complete {
        assert s + 1 < |formula|;
      }
      Match("(", me);
      if complete {
        assert !crashed && index == s + 1 && log == old(log);
      }
      ghost var n1 := nodes;
      if !crashed {
        var _ := Atom(me, inner);
        GrewFirst(n1, nodes, me, "A");
        KeepsTrans(old(nodes), n1, nodes, me);
      }
      if complete {
        assert index == s + 1 + |CompoundTokens(grammar, inner.value)|;
      }
    }

    /** S -> Q V S; the variable and the body are read whatever the
        variable handler answers. No quantifier: the syntax error of the
        start handler. */
    method StartQuantified(me: nat, ghost body: Option<Formula>) returns (ok: bool)
      requires Valid() && !crashed && IsParent(nodes, Some(me))
      modifies this
      decreases |formula| - index, 0
      ensures Valid() && Keeps(old(nodes), nodes, me)
      ensures old(log) <= log && (!crashed ==> index >= old(index))
      ensures ok <==> old(lookahead) in grammar.quantifiers
      ensures ok && !crashed ==> index > old(index)
      ensures !ok ==> && !crashed && index == old(index) && lookahead == old(lookahead)
                      && log == old(log) + [SyntaxError(old(lookahead), old(index))]
      ensures && body.Some? && old(lookahead) in grammar.quantifiers && old(index) + 1 < |formula|
              && formula[old(index) + 1] in grammar.variables && Spells(grammar, formula, old(index) + 2, body.value) ==>
        && !crashed && index == old(index) + 2 + |Tokens(grammar, body.value)|
        && log == old(log) + SuccessAt(|formula|, index)
      ensures old(nodes[me].children) == [] ==> FirstChild(nodes, me) == Some(Inner("Q", []))
    {
      ghost var s := index;
      ok := Scan("Q", grammar.quantifiers, me);
      ghost var n1 := nodes;
      GrewFirst(old(nodes), n1, me, "Q");
      if !ok {
        log := log + [SyntaxError(lookahead, index)];
      } else if !crashed {
        assert index == s + 1 && log == old(log) + SuccessAt(|formula|, index);
        QuantifiedRest(me, body);
        KeepsTrans(old(nodes), n1, nodes, me);
      }
    }

    /** V S of S -> Q V S. */
    method QuantifiedRest(me: nat, ghost body: Option<Formula>)
      requires Valid() && !crashed && IsParent(nodes, Some(me))
      modifies this
      decreases |formula| - index, 5
      ensures Valid() && Keeps(old(nodes), nodes, me)
      ensures old(log) <= log && (!crashed ==> index >= old(index))
      ensures && body.Some? && old(index) < |formula| && old(lookahead) in grammar.variables
              && Spells(grammar, formula, old(index) + 1, body.value) ==>
        && !crashed && index == old(index) + 1 + |Tokens(grammar, body.value)|
        && log == old(log) + SuccessAt(|formula|, index)
      ensures FirstChild(old(nodes), me).Some? ==> FirstChild(nodes, me) == FirstChild(old(nodes), me)
    {
      ghost var s := index;
      ghost var complete := && body.Some? && s < |formula| && lookahead in grammar.variables
                            && Spells(grammar, formula, s + 1, body.value);
      if complete {
        assert s + 1 < |formula| && lookahead != "" by {
          SpelledIndex(formula, s + 1, Tokens(grammar, body.value), 0);
        }
      }
      var _ := Scan("V", grammar.variables, me);
      GrewFirst(old(nodes), nodes, me, "V");
      if complete {
        assert !crashed && index == s + 1 && log == old(log);
      }
      ghost var n1 := nodes;
      if !crashed {
        var _ := Start(Some(me), body);
        KeepsTrans(old(nodes), n1, nodes, me);
      }
    }

    /** `atom`: A -> T E T ) | S J S ), the second tried when the lookahead
        is not a term; neither fits: falsy, after the start handler has
        logged its syntax error. */
    method Atom(parent: nat, ghost expected: Option<Compound>) returns (ok: bool)
      requires Valid() && !crashed && IsParent(nodes, Some(parent))
      modifies this
      decreases |formula| - index, 7
      ensures Valid() && Grew(old(nodes), nodes, Some(parent), "A") && Keeps(old(nodes), nodes, parent)
      ensures old(log) <= log && (!crashed ==> index >= old(index))
      ensures ok <==> IsTerm(grammar, old(lookahead)) || IsStarter(grammar, old(lookahead))
      ensures ok && !crashed ==> index > old(index)
      ensures !ok ==> && !crashed && index == old(index) && lookahead == old(lookahead)
                      && log == old(log) + [SyntaxError(old(lookahead), old(index))]
      ensures expected.Some? && SpellsCompound(grammar, formula, old(index), expected.value) ==>
        && ok && !crashed && index == old(index) + |CompoundTokens(grammar, expected.value)|
        && log == old(log) + SuccessAt(|formula|, index)
      ensures FirstChild(nodes, old(|nodes|)) == Some(Inner(if IsTerm(grammar, old(lookahead)) then "T" else "S", []))
    {
      var me := AddNode("A", Some(parent));
      ghost var added := nodes;
      ok := AtomBody(me, expected);
      Settle(old(nodes), added, nodes, Some(parent), "A");
    }

    /** The alternatives of `atom` below its node. */
    method AtomBody(me: nat, ghost expected: Option<Compound>) returns (ok: bool)
      requires Valid() && !crashed && IsParent(nodes, Some(me))
      modifies this
      decreases |formula| - index, 6
      ensures Valid() && Keeps(old(nodes), nodes, me)
      ensures old(log) <= log && (!crashed ==> index >= old(index))
      ensures ok <==> IsTerm(grammar, old(lookahead)) || IsStarter(grammar, old(lookahead))
      ensures ok && !crashed ==> index > old(index)
      ensures !ok ==> && !crashed && index == old(index) && lookahead == old(lookahead)
                      && log == old(log) + [SyntaxError(old(lookahead), old(index))]
      ensures expected.Some? && SpellsCompound(grammar, formula, old(index), expected.value) ==>
        && ok && !crashed && index == old(index) + |CompoundTokens(grammar, expected.value)|
        && log == old(log) + SuccessAt(|formula|, index)
      ensures old(nodes[me].children) == [] ==>
        FirstChild(nodes, me) == Some(Inner(if IsTerm(grammar, old(lookahead)) then "T" else "S", []))
    {
      if expected.Some? && SpellsCompound(grammar, formula, index, expected.value) {
        match expected.value
        case Equation(l, r) => EquationSpelled(grammar, formula, index, l, r);
        case Binary(l, j, r) => BinarySpelled(grammar, formula, index, l, j, r);
      }
      ok := Term(me);
      ghost var n1 := nodes;
      GrewFirst(old(nodes), n1, me, "T");
      if ok {
        if !crashed {
          AtomEquation(me);
          KeepsTrans(old(nodes), n1, nodes, me);
        }
      } else {
        ok := AtomBinary(me, expected);
        KeepsTrans(old(nodes), n1, nodes, me);
      }
    }

    /** The rest of A -> T E T ): each handler runs whatever the previous
        one answered. */
    method AtomEquation(me: nat)
      requires Valid() && !crashed && IsParent(nodes, Some(me))
      modifies this
      ensures Valid() && Keeps(old(nodes), nodes, me)
      ensures old(log) <= log && (!crashed ==> index >= old(index))
      ensures && NonEmptyTerminals(grammar) && old(index) + 2 < |formula| && old(lookahead) == grammar.equality[0]
              && IsTerm(grammar, formula[old(index) + 1]) && formula[old(index) + 2] == ")" ==>
        && !crashed && index == old(index) + 3
        && log == old(log) + SuccessAt(|formula|, index)
      ensures FirstChild(old(nodes), me).Some? ==> FirstChild(nodes, me) == FirstChild(old(nodes), me)
    {
      ghost var s := index;
      ghost var complete := && NonEmptyTerminals(grammar) && s + 2 < |formula| && lookahead == grammar.equality[0]
                            && IsTerm(grammar, formula[s + 1]) && formula[s + 2] == ")";
      var _ := Scan("E", [grammar.equality[0]], me);
      GrewFirst(old(nodes), nodes, me, "E");
      if complete {
        assert !crashed && index == s + 1 && log == old(log) && lookahead == formula[s + 1];
      }
      ghost var n1 := nodes;
      if !crashed {
        TermThenClose(me);
        KeepsTrans(old(nodes), n1, nodes, me);
      }
    }

    /** T ) of A -> T E T ). */
    method TermThenClose(me: nat)
      requires Valid() && !crashed && IsParent(nodes, Some(me))
      modifies this
      ensures Valid() && Keeps(old(nodes), nodes, me)
      ensures old(log) <= log && (!crashed ==> index >= old(index))
      ensures && old(index) + 1 < |formula| && IsTerm(grammar, old(lookahead)) && old(lookahead) != ""
              && formula[old(index) + 1] == ")" ==>
        && !crashed && index == old(index) + 2
        && log == old(log) + SuccessAt(|formula|, index)
      ensures FirstChild(old(nodes), me).Some? ==> FirstChild(nodes, me) == FirstChild(old(nodes), me)
    {
      ghost var s := index;
      ghost var complete := s + 1 < |formula| && IsTerm(grammar, lookahead) && lookahead != "" && formula[s + 1] == ")";
      var _ := Term(me);
      GrewFirst(old(nodes), nodes, me, "T");
      if complete {
        assert !crashed && index == s + 1 && log == old(log) && lookahead == formula[s + 1];
      }
      ghost var n1 := nodes;
      if !crashed {
        Match(")", me);
        KeepsTrans(old(nodes), n1, nodes, me);
      }
    }

    /** A -> S J S ), tried after the term alternative failed: the node's
        children are cleared first; the connective, the second formula and
        `)` are read once the first formula was recognised, whatever each
        answers. */
    method AtomBinary(me: nat, ghost expected: Option<Compound>) returns (ok: bool)
      requires Valid() && !crashed && IsParent(nodes, Some(me))
      modifies this
      decreases |formula| - index, 5
      ensures Valid() && Keeps(old(nodes), nodes, me)
      ensures old(log) <= log && (!crashed ==> index >= old(index))
      ensures ok <==> IsStarter(grammar, old(lookahead))
      ensures ok && !crashed ==> index > old(index)
      ensures !ok ==> && !crashed && index == old(index) && lookahead == old(lookahead)
                      && log == old(log) + [SyntaxError(old(lookahead), old(index))]
      ensures expected.Some? && expected.value.Binary? && SpellsCompound(grammar, formula, old(index), expected.value) ==>
        && ok && !crashed && index == old(index) + |CompoundTokens(grammar, expected.value)|
        && log == old(log) + SuccessAt(|formula|, index)
      ensures FirstChild(nodes, me) == Some(Inner("S", []))
    {
      ghost var lhs := if expected.Some? && expected.value.Binary? then Some(expected.value.lhs) else None;
      ghost var rhs := if expected.Some? && expected.value.Binary? then Some(expected.value.rhs) else None;
      ghost var s := index;
      ghost var complete := expected.Some? && expected.value.Binary? && SpellsCompound(grammar, formula, index, expected.value);
      if complete {
        var Binary(l, j, r) := expected.value;
        BinarySpelled(grammar, formula, index, l, j, r);
      }
      ClearChildren(me);
      ghost var n0 := nodes;
      ok := Start(Some(me), lhs);
      ghost var n1 := nodes;
      GrewFirst(n0, n1, me, "S");
      KeepsTrans(old(nodes), n0, n1, me);
      if ok && !crashed {
        if complete {
          var toks := [expected.value.connective] + (Tokens(grammar, rhs.value) + [")"]);
          assert index == s + |Tokens(grammar, lhs.value)| && log == old(log) && lookahead == formula[index];
          assert lookahead == formula[index + 0] == toks[0];
        }
        AtomSecond(me, rhs);
        KeepsTrans(old(nodes), n1, nodes, me);
      }
    }

    /** J S ) of A -> S J S ). */
    method AtomSecond(me: nat, ghost rhs: Option<Formula>)
      requires Valid() && !crashed && IsParent(nodes, Some(me))
      modifies this
      decreases |formula| - index, 6
      ensures Valid() && Keeps(old(nodes), nodes, me)
      ensures old(log) <= log && (!crashed ==> index >= old(index))
      ensures && rhs.Some? && Deterministic(grammar) && WellTyped(grammar, rhs.value) && old(lookahead) in grammar.connectives
              && SpelledAt(formula, old(index), [old(lookahead)] + (Tokens(grammar, rhs.value) + [")"])) ==>
        && !crashed && index == old(index) + |Tokens(grammar, rhs.value)| + 2
        && log == old(log) + SuccessAt(|formula|, index)
      ensures FirstChild(old(nodes), me).Some? ==> FirstChild(nodes, me) == FirstChild(old(nodes), me)
    {
      ghost var s := index;
      ghost var complete := && rhs.Some? && Deterministic(grammar) && WellTyped(grammar, rhs.value) && lookahead in grammar.connectives
                            && SpelledAt(formula, index, [lookahead] + (Tokens(grammar, rhs.value) + [")"]));
      if complete {
        SecondSpelled(grammar, formula, index, lookahead, rhs.value);
      }
      var _ := Scan("J", grammar.connectives, me);
      GrewFirst(old(nodes), nodes, me, "J");
      if complete {
        assert !crashed && index == s + 1 && log == old(log);
      }
      ghost var n1 := nodes;
      if !crashed {
        StartThenClose(me, rhs);
        KeepsTrans(old(nodes), n1, nodes, me);
      }
    }

    /** The second formula of a binary formula and its closing bracket. */
    method StartThenClose(me: nat, ghost rhs: Option<Formula>)
      requires Valid() && !crashed && IsParent(nodes, Some(me))
      modifies this
      decreases |formula| - index, 5
      ensures Valid() && Keeps(old(nodes), nodes, me)
      ensures old(log) <= log && (!crashed ==> index >= old(index))
      ensures && rhs.Some? && Spells(grammar, formula, old(index), rhs.value)
              && old(index) + |Tokens(grammar, rhs.value)| < |formula| && formula[old(index) + |Tokens(grammar, rhs.value)|] == ")" ==>
        && !crashed && index == old(index) + |Tokens(grammar, rhs.value)| + 1
        && log == old(log) + SuccessAt(|formula|, index)
      ensures FirstChild(old(nodes), me).Some? ==> FirstChild(nodes, me) == FirstChild(old(nodes), me)
    {
      ghost var s := index;
      ghost var complete := && rhs.Some? && Spells(grammar, formula, s, rhs.value)
                            && s + |Tokens(grammar, rhs.value)| < |formula| && formula[s + |Tokens(grammar, rhs.value)|] == ")";
      var _ := Start(Some(me), rhs);
      GrewFirst(old(nodes), nodes, me, "S");
      if complete {
        assert !crashed && index == s + |Tokens(grammar, rhs.value)| && log == old(log) && lookahead == ")";
      }
      ghost var n1 := nodes;
      if !crashed {
        Match(")", me);
        KeepsTrans(old(nodes), n1, nodes, me);
      }
    }

    /** `parse`: read the first token, then the start symbol. An empty
        formula fails on `formula[0]`. The tokens of a well-typed formula,
        for a grammar whose first-token tests are disjoint, parse without a
        syntax error and log one success. */
    method Parse(ghost expected: Formula)
      requires WellFormed(grammar) && index == 0 && nodes == [] && log == [] && !crashed
      modifies this
      ensures Valid()
      ensures |formula| == 0 ==> crashed
      ensures |formula| > 0 ==> |nodes| > 0 && nodes[0].Inner? && nodes[0].symbol == "S"
      ensures Deterministic(grammar) && WellTyped(grammar, expected) && formula == Tokens(grammar, expected) ==>
        !crashed && index == |formula| && log == [Succeeded]
    {
      if |formula| == 0 {
        crashed := true;
        return;
      }
      lookahead := formula[0];
      if formula == Tokens(grammar, expected) {
        assert SpelledAt(formula, 0, Tokens(grammar, expected));
      }
      var _ := Start(None, Some(expected));
    }
  }
}
