/** Printing dependency expressions, and reading the printed text back: with the parser of this
    language, and with the precedence of C. */
module DependencyPrinting {
  import opened Wrappers
  import opened Sequences
  import opened DependencySyntax
  import opened DependencyMeaning

  type Markup = string -> string
  type OpMarkup = BoolOp -> string

  /** The translation of an expression; only operands of another operator are parenthesized. */
  function Print(e: Expr, leafMarkup: Markup, opMarkup: OpMarkup, parenthesize: bool, root: bool): string {
    match e
    case Leaf(n) => leafMarkup(n)
    case Bin(op, l, r) =>
      var body := Print(l, leafMarkup, opMarkup, parenthesize, false) + " " + opMarkup(op) + " "
                  + Print(r, leafMarkup, opMarkup, parenthesize, false);
      if parenthesize && !root then "(" + body + ")" else body
  }

  function Same(name: string): string {
    name
  }

  function OpText(op: BoolOp): string {
    match op case And => "+" case Or => ","
  }

  /** The printed text as tokens. */
  function PrintTokens(e: Expr, parenthesize: bool, root: bool): seq<Token> {
    match e
    case Leaf(n) => [Word(n)]
    case Bin(op, l, r) =>
      var body := PrintTokens(l, parenthesize, false) + [Op(op)] + PrintTokens(r, parenthesize, false);
      if parenthesize && !root then [LPar] + body + [RPar] else body
  }

  function SpellToken(t: Token, leafMarkup: Markup, opMarkup: OpMarkup): string {
    match t
    case Word(n) => leafMarkup(n)
    case Op(op) => " " + opMarkup(op) + " "
    case LPar => "("
    case RPar => ")"
  }

  function Spell(ts: seq<Token>, leafMarkup: Markup, opMarkup: OpMarkup): string {
    if ts == [] then "" else SpellToken(ts[0], leafMarkup, opMarkup) + Spell(ts[1..], leafMarkup, opMarkup)
  }

  lemma {:induction false} SpellAppend(a: seq<Token>, b: seq<Token>, leafMarkup: Markup, opMarkup: OpMarkup)
    ensures Spell(a + b, leafMarkup, opMarkup) == Spell(a, leafMarkup, opMarkup) + Spell(b, leafMarkup, opMarkup)
  {
    if a == [] {
      assert a + b == b;
    } else {
      assert (a + b)[1..] == a[1..] + b;
      SpellAppend(a[1..], b, leafMarkup, opMarkup);
    }
  }

  lemma SpellOne(t: Token, leafMarkup: Markup, opMarkup: OpMarkup)
    ensures Spell([t], leafMarkup, opMarkup) == SpellToken(t, leafMarkup, opMarkup)
  {
  }

  lemma SpellInfix(l: seq<Token>, op: BoolOp, r: seq<Token>, leafMarkup: Markup, opMarkup: OpMarkup)
    ensures Spell(l + [Op(op)] + r, leafMarkup, opMarkup)
            == Spell(l, leafMarkup, opMarkup) + " " + opMarkup(op) + " " + Spell(r, leafMarkup, opMarkup)
  {
    SpellAppend(l + [Op(op)], r, leafMarkup, opMarkup);
    SpellAppend(l, [Op(op)], leafMarkup, opMarkup);
    SpellOne(Op(op), leafMarkup, opMarkup);
    Associative(Spell(l, leafMarkup, opMarkup), " " + opMarkup(op), " ");
    Associative(Spell(l, leafMarkup, opMarkup), " ", opMarkup(op));
  }

  lemma SpellParenthesized(ts: seq<Token>, leafMarkup: Markup, opMarkup: OpMarkup)
    ensures Spell([LPar] + ts + [RPar], leafMarkup, opMarkup) == "(" + Spell(ts, leafMarkup, opMarkup) + ")"
  {
    SpellAppend([LPar] + ts, [RPar], leafMarkup, opMarkup);
    SpellAppend([LPar], ts, leafMarkup, opMarkup);
    SpellOne(LPar, leafMarkup, opMarkup);
    SpellOne(RPar, leafMarkup, opMarkup);
  }

  /** Whatever the markup, the text is the spelling of the tokens. */
  lemma {:induction false} PrintIsSpelling(
    e: Expr, leafMarkup: Markup, opMarkup: OpMarkup, parenthesize: bool, root: bool)
    ensures Print(e, leafMarkup, opMarkup, parenthesize, root)
            == Spell(PrintTokens(e, parenthesize, root), leafMarkup, opMarkup)
  {
    if e.Bin? {
      PrintIsSpelling(e.left, leafMarkup, opMarkup, parenthesize, false);
      PrintIsSpelling(e.right, leafMarkup, opMarkup, parenthesize, false);
      var l, r := PrintTokens(e.left, parenthesize, false), PrintTokens(e.right, parenthesize, false);
      SpellInfix(l, e.op, r, leafMarkup, opMarkup);
      SpellParenthesized(l + [Op(e.op)] + r, leafMarkup, opMarkup);
    } else {
      SpellOne(Word(e.name), leafMarkup, opMarkup);
    }
  }

  // ----- the text reads back as the same tokens -----

  predicate Readable(ts: seq<Token>) {
    && (forall t :: t in ts && t.Word? ==> IsWord(t.name))
    && (forall i :: 0 <= i < |ts| - 1 ==> !(ts[i].Word? && ts[i + 1].Word?))
  }

  lemma {:induction false} WordLengthOfWord(w: string, rest: string)
    requires forall i :: 0 <= i < |w| ==> IsWordChar(w[i])
    requires rest == "" || !IsWordChar(rest[0])
    ensures WordLength(w + rest) == |w|
  {
    if w == "" {
      assert w + rest == rest;
    } else {
      assert (w + rest)[1..] == w[1..] + rest;
      WordLengthOfWord(w[1..], rest);
    }
  }

  lemma LexOp(op: BoolOp, rest: string)
    ensures Lex(" " + OpText(op) + " " + rest) == Prepend(Op(op), Lex(rest))
  {
    var s := " " + OpText(op) + " " + rest;
    assert s[1..] == OpText(op) + " " + rest;
    assert s[1..][1..] == " " + rest;
    assert s[1..][1..][1..] == rest;
    assert Lex(s) == Lex(s[1..]);
    assert Lex(s[1..]) == Prepend(Op(op), Lex(s[1..][1..]));
  }

  lemma LexToken(t: Token, rest: string)
    requires t.Word? ==> IsWord(t.name) && (rest == "" || !IsWordChar(rest[0]))
    ensures Lex(SpellToken(t, Same, OpText) + rest) == Prepend(t, Lex(rest))
  {
    var s := SpellToken(t, Same, OpText) + rest;
    match t {
      case Word(n) =>
        WordLengthOfWord(n, rest);
        assert s[..|n|] == n && s[|n|..] == rest && s[0] == n[0];
      case Op(op) =>
        LexOp(op, rest);
      case LPar =>
        assert s[1..] == rest;
      case RPar =>
        assert s[1..] == rest;
    }
  }

  lemma {:induction false} LexSpell(ts: seq<Token>)
    requires Readable(ts)
    ensures Lex(Spell(ts, Same, OpText)) == Some(ts)
  {
    if ts != [] {
      LexSpell(ts[1..]);
      assert ts[0] in ts && ts == [ts[0]] + ts[1..];
      LexToken(ts[0], Spell(ts[1..], Same, OpText));
    }
  }

  lemma {:induction false} PrintedReadable(e: Expr, parenthesize: bool, root: bool)
    requires forall n :: n in NamesOf(e) ==> IsWord(n)
    ensures Readable(PrintTokens(e, parenthesize, root))
    ensures PrintTokens(e, parenthesize, root) != []
  {
    if e.Bin? {
      PrintedReadable(e.left, parenthesize, false);
      PrintedReadable(e.right, parenthesize, false);
    }
  }

  // ----- parenthesized text -----

  /** The chain that the parenthesized text spells. */
  function ChainOf(e: Expr): Chain {
    match e
    case Leaf(n) => Single(NameAtom([], n))
    case Bin(op, l, r) => Snoc(Single(AtomOf(l)), op, AtomOf(r))
  }

  function AtomOf(e: Expr): Atom {
    match e
    case Leaf(n) => NameAtom([], n)
    case Bin(op, l, r) => GroupAtom([], Snoc(Single(AtomOf(l)), op, AtomOf(r)))
  }

  lemma {:induction false} ChainOfSpells(e: Expr)
    ensures SpellChain(ChainOf(e)) == PrintTokens(e, true, true) && ChainTree(ChainOf(e)) == e
    ensures SpellAtom(AtomOf(e)) == PrintTokens(e, true, false) && AtomTree(AtomOf(e)) == e
  {
    if e.Bin? {
      ChainOfSpells(e.left);
      ChainOfSpells(e.right);
      assert SpellChain(ChainOf(e)) == PrintTokens(e, true, true);
    }
  }

  /** Parenthesized text parses to the very expression that was printed. */
  lemma ReparseParenthesized(e: Expr)
    requires forall n :: n in NamesOf(e) ==> IsWord(n)
    ensures Parse(Print(e, Same, OpText, true, true)) == Some(e)
  {
    PrintIsSpelling(e, Same, OpText, true, true);
    PrintedReadable(e, true, true);
    LexSpell(PrintTokens(e, true, true));
    ChainOfSpells(e);
    ParserIsGrammar(PrintTokens(e, true, true), ChainOf(e));
  }

  // ----- text without parentheses -----

  /** The leaves of e in order, as one chain. */
  function FlatChain(e: Expr): Chain {
    match e
    case Leaf(n) => Single(NameAtom([], n))
    case Bin(op, l, r) => Join(FlatChain(l), op, FlatChain(r))
  }

  function Join(c: Chain, op: BoolOp, d: Chain): Chain {
    match d
    case Single(a) => Snoc(c, op, a)
    case Snoc(init, last, a) => Snoc(Join(c, op, init), last, a)
  }

  lemma {:induction false} SpellJoin(c: Chain, op: BoolOp, d: Chain)
    ensures SpellChain(Join(c, op, d)) == SpellChain(c) + [Op(op)] + SpellChain(d)
  {
    if d.Snoc? {
      SpellJoin(c, op, d.init);
    }
  }

  lemma {:induction false} FlatChainSpells(e: Expr)
    ensures SpellChain(FlatChain(e)) == PrintTokens(e, false, true) == PrintTokens(e, false, false)
  {
    if e.Bin? {
      FlatChainSpells(e.left);
      FlatChainSpells(e.right);
      SpellJoin(FlatChain(e.left), e.op, FlatChain(e.right));
    }
  }

  /** Every right operand is a name. */
  predicate RightOperandsAreNames(e: Expr) {
    e.Bin? ==> e.right.Leaf? && RightOperandsAreNames(e.left)
  }

  predicate AtomsAreNames(c: Chain) {
    match c
    case Single(a) => a.NameAtom?
    case Snoc(init, _, a) => a.NameAtom? && AtomsAreNames(init)
  }

  lemma {:induction false} JoinOfNames(c: Chain, op: BoolOp, d: Chain)
    requires AtomsAreNames(c) && AtomsAreNames(d)
    ensures AtomsAreNames(Join(c, op, d))
  {
    if d.Snoc? {
      JoinOfNames(c, op, d.init);
    }
  }

  lemma {:induction false} FlatChainOfNames(e: Expr)
    ensures AtomsAreNames(FlatChain(e))
  {
    if e.Bin? {
      FlatChainOfNames(e.left);
      FlatChainOfNames(e.right);
      JoinOfNames(FlatChain(e.left), e.op, FlatChain(e.right));
    }
  }

  lemma {:induction false} TreeOfNames(c: Chain)
    requires AtomsAreNames(c)
    ensures RightOperandsAreNames(ChainTree(c))
  {
    if c.Snoc? {
      TreeOfNames(c.init);
    }
  }

  lemma {:induction false} FlatTree(e: Expr)
    requires RightOperandsAreNames(e)
    ensures ChainTree(FlatChain(e)) == e
  {
    if e.Bin? {
      FlatTree(e.left);
    }
  }

  /** Without parentheses the text reads as the names and operators in a row. */
  lemma ReparseFlat(e: Expr)
    requires forall n :: n in NamesOf(e) ==> IsWord(n)
    ensures Parse(Print(e, Same, OpText, false, true)) == Some(ChainTree(FlatChain(e)))
  {
    PrintIsSpelling(e, Same, OpText, false, true);
    PrintedReadable(e, false, true);
    LexSpell(PrintTokens(e, false, true));
    FlatChainSpells(e);
    ParserIsGrammar(PrintTokens(e, false, true), FlatChain(e));
  }

  /** Without parentheses the text parses to the same stack exactly if every right operand is a name. */
  lemma ReparseUnparenthesized(e: Expr)
    requires forall n :: n in NamesOf(e) ==> IsWord(n)
    ensures var again := Parse(Print(e, Same, OpText, false, true));
            again.Some? && (Postfix(again.value) == Postfix(e) <==> RightOperandsAreNames(e))
  {
    ReparseFlat(e);
    FlatChainOfNames(e);
    TreeOfNames(FlatChain(e));
    PostfixInjective(ChainTree(FlatChain(e)), e);
    if RightOperandsAreNames(e) {
      FlatTree(e);
    }
  }

  /** When it does not, the meaning can change: a+(b,c) without parentheses is (a+b),c. */
  lemma UnparenthesizedChangesMeaning()
    ensures var e := Bin(And, Leaf("a"), Bin(Or, Leaf("b"), Leaf("c")));
            var again := Parse(Print(e, Same, OpText, false, true));
            again.Some? && exists f: string -> bool :: Value(e, f) != Value(again.value, f)
  {
    var e := Bin(And, Leaf("a"), Bin(Or, Leaf("b"), Leaf("c")));
    ReparseFlat(e);
    var flat := Bin(Or, Bin(And, Leaf("a"), Leaf("b")), Leaf("c"));
    assert FlatChain(e.right) == Snoc(Single(NameAtom([], "b")), Or, NameAtom([], "c"));
    assert ChainTree(FlatChain(e)) == flat;
    var f := (n: string) => n == "c";
    assert f("c") && !f("a");
    assert !Value(e, f) && Value(flat, f);
  }

  // ----- the precedence of C -----

  function COr(ts: seq<Token>): (r: Option<(Expr, seq<Token>)>)
    ensures r.Some? ==> |r.value.1| < |ts|
    decreases |ts|, 4
  {
    match CAnd(ts)
    case None => None
    case Some((e, rest)) => COrMore(e, rest)
  }

  function COrMore(e: Expr, ts: seq<Token>): (r: Option<(Expr, seq<Token>)>)
    ensures r.Some? ==> |r.value.1| <= |ts|
    decreases |ts|, 3
  {
    if ts == [] || ts[0] != Op(Or) then Some((e, ts))
    else
      match CAnd(ts[1..])
      case None => None
      case Some((d, rest)) => COrMore(Bin(Or, e, d), rest)
  }

  function CAnd(ts: seq<Token>): (r: Option<(Expr, seq<Token>)>)
    ensures r.Some? ==> |r.value.1| < |ts|
    decreases |ts|, 2
  {
    match CPrimary(ts)
    case None => None
    case Some((e, rest)) => CAndMore(e, rest)
  }

  function CAndMore(e: Expr, ts: seq<Token>): (r: Option<(Expr, seq<Token>)>)
    ensures r.Some? ==> |r.value.1| <= |ts|
    decreases |ts|, 1
  {
    if ts == [] || ts[0] != Op(And) then Some((e, ts))
    else
      match CPrimary(ts[1..])
      case None => None
      case Some((d, rest)) => CAndMore(Bin(And, e, d), rest)
  }

  function CPrimary(ts: seq<Token>): (r: Option<(Expr, seq<Token>)>)
    ensures r.Some? ==> |r.value.1| < |ts|
    decreases |ts|, 0
  {
    if ts == [] then None
    else if ts[0].Word? then Some((Leaf(ts[0].name), ts[1..]))
    else if ts[0].LPar? then
      match COr(ts[1..])
      case None => None
      case Some((e, rest)) => if rest != [] && rest[0].RPar? then Some((e, rest[1..])) else None
    else None
  }

  lemma {:induction false} CReadsOperand(e: Expr, rest: seq<Token>)
    ensures CPrimary(PrintTokens(e, true, false) + rest) == Some((e, rest))
    decreases e, 1
  {
    var ts := PrintTokens(e, true, false) + rest;
    match e {
      case Leaf(_) =>
        assert ts[1..] == rest;
      case Bin(_, _, _) =>
        assert ts == [LPar] + (PrintTokens(e, true, true) + ([RPar] + rest));
        assert ts[1..] == PrintTokens(e, true, true) + ([RPar] + rest);
        CReadsRoot(e, [RPar] + rest);
        assert ([RPar] + rest)[1..] == rest;
    }
  }

  lemma {:induction false} CReadsRoot(e: Expr, rest: seq<Token>)
    requires rest == [] || !rest[0].Op?
    ensures COr(PrintTokens(e, true, true) + rest) == Some((e, rest))
    decreases e, 0
  {
    var ts := PrintTokens(e, true, true) + rest;
    match e {
      case Leaf(_) =>
        assert ts[1..] == rest;
        assert CAnd(ts) == Some((e, rest));
      case Bin(op, l, r) =>
        var tail := [Op(op)] + (PrintTokens(r, true, false) + rest);
        assert ts == PrintTokens(l, true, false) + tail;
        CReadsOperand(l, tail);
        assert tail[1..] == PrintTokens(r, true, false) + rest;
        CReadsOperand(r, rest);
        if op == And {
          assert CAnd(ts) == CAndMore(Bin(And, l, r), rest);
        } else {
          assert CAnd(ts) == Some((l, tail));
          assert CAnd(tail[1..]) == Some((r, rest));
          assert COr(ts) == COrMore(l, tail) == COrMore(Bin(Or, l, r), rest);
        }
    }
  }

  /** The parenthesized text means the same under the precedence of C, since no nesting level holds two
      operators: reading `+` as && and `,` as || gives back the expression. */
  lemma CReadsPrinted(e: Expr)
    ensures COr(PrintTokens(e, true, true)) == Some((e, []))
  {
    assert PrintTokens(e, true, true) + [] == PrintTokens(e, true, true);
    CReadsRoot(e, []);
  }
}
