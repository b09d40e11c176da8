/** The concrete syntax of `depends` expressions (specification/scripts/parse_dependency.py). */
module DependencySyntax {
  import opened Wrappers
  import opened Sequences

  /** '+' and ',' */
  datatype BoolOp = And | Or

  datatype Token = Word(name: string) | Op(op: BoolOp) | LPar | RPar

  // ----- characters to tokens -----

  predicate IsLetter(c: char) {
    'a' <= c <= 'z' || 'A' <= c <= 'Z'
  }

  predicate IsWordChar(c: char) {
    IsLetter(c) || '0' <= c <= '9' || c == '_'
  }

  predicate IsSpace(c: char) {
    c == ' ' || c == '\n' || c == '\t' || c == '\r'
  }

  predicate IsWord(s: string) {
    s != "" && forall i :: 0 <= i < |s| ==> IsWordChar(s[i])
  }

  function WordLength(s: string): (n: nat)
    ensures n <= |s|
    ensures forall i :: 0 <= i < n ==> IsWordChar(s[i])
    ensures n < |s| ==> !IsWordChar(s[n])
  {
    if s == "" || !IsWordChar(s[0]) then 0 else 1 + WordLength(s[1..])
  }

  function Prepend(t: Token, o: Option<seq<Token>>): Option<seq<Token>> {
    match o case None => None case Some(ts) => Some([t] + ts)
  }

  /** Identifiers are maximal runs of word characters; spaces between tokens are skipped. */
  function Lex(s: string): Option<seq<Token>> {
    if s == "" then Some([])
    else if IsSpace(s[0]) then Lex(s[1..])
    else if IsWordChar(s[0]) then Prepend(Word(s[..WordLength(s)]), Lex(s[WordLength(s)..]))
    else if s[0] == '+' then Prepend(Op(And), Lex(s[1..]))
    else if s[0] == ',' then Prepend(Op(Or), Lex(s[1..]))
    else if s[0] == '(' then Prepend(LPar, Lex(s[1..]))
    else if s[0] == ')' then Prepend(RPar, Lex(s[1..]))
    else None
  }

  lemma {:induction false} LexedNamesAreWords(s: string)
    ensures Lex(s).Some? ==> forall t :: t in Lex(s).value && t.Word? ==> IsWord(t.name)
  {
    if s != "" {
      LexedNamesAreWords(s[1..]);
      LexedNamesAreWords(s[(if IsWordChar(s[0]) then WordLength(s) else 1)..]);
    }
  }

  // ----- the grammar -----

  /** atom: operators that are read and dropped, then a name or a parenthesized expression. */
  datatype Atom =
    | NameAtom(dropped: seq<BoolOp>, name: string)
    | GroupAtom(dropped: seq<BoolOp>, inner: Chain)

  /** expr: atoms joined by operators. */
  datatype Chain = Single(atom: Atom) | Snoc(init: Chain, op: BoolOp, atom: Atom)

  /** An expression as a tree: what it means, without its spelling. */
  datatype Expr = Leaf(name: string) | Bin(op: BoolOp, left: Expr, right: Expr)

  function Ops(ops: seq<BoolOp>): (ts: seq<Token>)
    ensures |ts| == |ops| && forall i :: 0 <= i < |ts| ==> ts[i] == Op(ops[i])
  {
    if ops == [] then [] else [Op(ops[0])] + Ops(ops[1..])
  }

  function SpellAtom(a: Atom): seq<Token> {
    match a
    case NameAtom(dropped, name) => Ops(dropped) + [Word(name)]
    case GroupAtom(dropped, inner) => Ops(dropped) + [LPar] + SpellChain(inner) + [RPar]
  }

  function SpellChain(c: Chain): seq<Token> {
    match c
    case Single(a) => SpellAtom(a)
    case Snoc(init, op, a) => SpellChain(init) + [Op(op)] + SpellAtom(a)
  }

  /** Both operators have the same precedence and associate to the left. */
  function AtomTree(a: Atom): Expr {
    match a
    case NameAtom(_, name) => Leaf(name)
    case GroupAtom(_, inner) => ChainTree(inner)
  }

  function ChainTree(c: Chain): Expr {
    match c
    case Single(a) => AtomTree(a)
    case Snoc(init, op, a) => Bin(op, ChainTree(init), AtomTree(a))
  }

  // ----- the parser -----

  function LeadingOps(ts: seq<Token>): (ops: seq<BoolOp>)
    ensures |ops| <= |ts| && ts == Ops(ops) + ts[|ops|..]
    ensures |ops| < |ts| ==> !ts[|ops|].Op?
  {
    if ts == [] || !ts[0].Op? then []
    else
      var more := LeadingOps(ts[1..]);
      assert ts == [Op(ts[0].op)] + (Ops(more) + ts[1..][|more|..]);
      [ts[0].op] + more
  }

  /** A greedy reading of an atom, with what is left of the input. */
  function ParseAtom(ts: seq<Token>): (r: Option<(Atom, seq<Token>)>)
    ensures r.Some? ==> |r.value.1| < |ts|
    decreases |ts|, 1
  {
    var ops := LeadingOps(ts);
    ParseAfter(ops, ts[|ops|..])
  }

  function ParseAfter(ops: seq<BoolOp>, rest: seq<Token>): (r: Option<(Atom, seq<Token>)>)
    ensures r.Some? ==> |r.value.1| < |rest|
    decreases |rest|, 0
  {
    if rest == [] then None
    else if rest[0].Word? then Some((NameAtom(ops, rest[0].name), rest[1..]))
    else if rest[0].LPar? then
      match ParseChain(rest[1..])
      case None => None
      case Some((inner, after)) =>
        if after != [] && after[0].RPar? then Some((GroupAtom(ops, inner), after[1..])) else None
    else None
  }

  function ParseChain(ts: seq<Token>): (r: Option<(Chain, seq<Token>)>)
    ensures r.Some? ==> |r.value.1| < |ts|
    decreases |ts|, 2
  {
    match ParseAtom(ts)
    case None => None
    case Some((a, rest)) => ParseMore(Single(a), rest)
  }

  /** Extend c as long as an operator follows. An operator that no atom follows can be consumed by
      nothing else, so the whole parse fails. */
  function ParseMore(c: Chain, ts: seq<Token>): (r: Option<(Chain, seq<Token>)>)
    ensures r.Some? ==> |r.value.1| <= |ts|
    decreases |ts|, 1
  {
    if ts == [] || !ts[0].Op? then Some((c, ts))
    else
      match ParseAtom(ts[1..])
      case None => None
      case Some((a, rest)) => ParseMore(Snoc(c, ts[0].op, a), rest)
  }

  /** The parse of a whole text. */
  function ParseTokens(ts: seq<Token>): Option<Chain> {
    match ParseChain(ts)
    case None => None
    case Some((c, rest)) => if rest == [] then Some(c) else None
  }

  function Parse(s: string): Option<Expr> {
    match Lex(s)
    case None => None
    case Some(ts) =>
      match ParseTokens(ts)
      case None => None
      case Some(c) => Some(ChainTree(c))
  }

  // ----- the parser accepts exactly the grammar -----

  lemma {:induction false} ParseAtomSound(ts: seq<Token>)
    ensures var r := ParseAtom(ts); r.Some? ==> SpellAtom(r.value.0) + r.value.1 == ts
    decreases |ts|, 1
  {
    var ops := LeadingOps(ts);
    ParseAfterSound(ops, ts[|ops|..]);
  }

  lemma {:induction false} ParseAfterSound(ops: seq<BoolOp>, rest: seq<Token>)
    ensures var r := ParseAfter(ops, rest); r.Some? ==> SpellAtom(r.value.0) + r.value.1 == Ops(ops) + rest
    decreases |rest|, 0
  {
    hide ParseChain, ParseAtom, SpellChain, Ops;
    var r := ParseAfter(ops, rest);
    if r.Some? {
      if rest[0].Word? {
        assert rest == [rest[0]] + rest[1..];
        Associative(Ops(ops), [rest[0]], rest[1..]);
      } else {
        ParseChainSound(rest[1..]);
        var (inner, after) := ParseChain(rest[1..]).value;
        assert rest == [LPar] + rest[1..] && after == [RPar] + after[1..];
        SplitSpelling(Ops(ops), [LPar], SpellChain(inner), [RPar], after[1..]);
      }
    }
  }

  lemma SplitSpelling(a: seq<Token>, b: seq<Token>, c: seq<Token>, d: seq<Token>, e: seq<Token>)
    ensures a + b + c + d + e == a + (b + (c + (d + e)))
  {
  }

  lemma {:induction false} ParseChainSound(ts: seq<Token>)
    ensures var r := ParseChain(ts); r.Some? ==> SpellChain(r.value.0) + r.value.1 == ts
    decreases |ts|, 2
  {
    ParseAtomSound(ts);
    var r := ParseAtom(ts);
    if r.Some? {
      ParseMoreSound(Single(r.value.0), r.value.1);
    }
  }

  lemma {:induction false} ParseMoreSound(c: Chain, ts: seq<Token>)
    ensures var r := ParseMore(c, ts); r.Some? ==> SpellChain(r.value.0) + r.value.1 == SpellChain(c) + ts
    decreases |ts|, 1
  {
    if ts != [] && ts[0].Op? {
      ParseAtomSound(ts[1..]);
      var r := ParseAtom(ts[1..]);
      if r.Some? {
        var longer := Snoc(c, ts[0].op, r.value.0);
        SpellSnoc(c, r.value.0, r.value.1, ts);
        ParseMoreSound(longer, r.value.1);
      }
    }
  }

  lemma SpellSnoc(c: Chain, a: Atom, rest: seq<Token>, ts: seq<Token>)
    requires ts != [] && ts[0].Op? && SpellAtom(a) + rest == ts[1..]
    ensures SpellChain(Snoc(c, ts[0].op, a)) + rest == SpellChain(c) + ts
  {
    assert ts == [ts[0]] + ts[1..];
    Associative(SpellChain(c), [ts[0]], ts[1..]);
    Associative(SpellChain(c) + [ts[0]], SpellAtom(a), rest);
  }

  lemma {:induction false} LeadingOpsComplete(ops: seq<BoolOp>, ts: seq<Token>)
    requires ts == [] || !ts[0].Op?
    ensures LeadingOps(Ops(ops) + ts) == ops
    ensures ParseAtom(Ops(ops) + ts) == ParseAfter(ops, ts)
  {
    if ops == [] {
      assert Ops(ops) + ts == ts;
    } else {
      assert (Ops(ops) + ts)[1..] == Ops(ops[1..]) + ts;
      LeadingOpsComplete(ops[1..], ts);
    }
    assert (Ops(ops) + ts)[|ops|..] == ts;
  }

  lemma {:induction false} ParseAtomComplete(a: Atom, rest: seq<Token>)
    ensures ParseAtom(SpellAtom(a) + rest) == Some((a, rest))
    decreases a, 0
  {
    match a {
      case NameAtom(dropped, name) =>
        assert SpellAtom(a) + rest == Ops(dropped) + ([Word(name)] + rest);
        LeadingOpsComplete(dropped, [Word(name)] + rest);
      case GroupAtom(dropped, inner) =>
        ParseGroupComplete(dropped, inner, rest);
        SplitSpelling(Ops(dropped), [LPar], SpellChain(inner), [RPar], rest);
        LeadingOpsComplete(dropped, [LPar] + (SpellChain(inner) + ([RPar] + rest)));
    }
  }

  lemma {:induction false} ParseGroupComplete(dropped: seq<BoolOp>, inner: Chain, rest: seq<Token>)
    ensures ParseAfter(dropped, [LPar] + (SpellChain(inner) + ([RPar] + rest)))
            == Some((GroupAtom(dropped, inner), rest))
    decreases inner, 2
  {
    var tail := [LPar] + (SpellChain(inner) + ([RPar] + rest));
    assert tail[1..] == SpellChain(inner) + ([RPar] + rest);
    ParseChainComplete(inner, [RPar] + rest);
  }

  /** Reading the spelling of a chain arrives at that chain, ready to go on. */
  lemma {:induction false} ParseChainComplete(c: Chain, rest: seq<Token>)
    ensures ParseChain(SpellChain(c) + rest) == ParseMore(c, rest)
    decreases c, 1
  {
    match c {
      case Single(a) =>
        ParseAtomComplete(a, rest);
      case Snoc(init, op, a) =>
        var tail := [Op(op)] + (SpellAtom(a) + rest);
        assert SpellChain(c) + rest == SpellChain(init) + tail;
        ParseChainComplete(init, tail);
        assert tail[1..] == SpellAtom(a) + rest;
        ParseAtomComplete(a, rest);
    }
  }

  /** A token list is accepted, as c, exactly if it is a spelling of c. */
  lemma ParserIsGrammar(ts: seq<Token>, c: Chain)
    ensures ParseTokens(ts) == Some(c) <==> SpellChain(c) == ts
  {
    ParseChainSound(ts);
    ParseChainComplete(c, []);
    assert SpellChain(c) + [] == SpellChain(c);
    if ParseChain(ts).Some? {
      assert ParseChain(ts).value.1 == [] ==> SpellChain(ParseChain(ts).value.0) == ts;
    }
  }
}
