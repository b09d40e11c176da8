/** Dependency expressions from their characters: which texts are read, as what, and which are not
    (specification/scripts/parse_dependency.py). Names, operators and spaces are written out here. */
module DependencyText {
  import opened Wrappers
  import opened Sequences
  import opened DependencySyntax
  import opened DependencyMeaning
  import opened DependencyPrinting
  import opened Dependency

  predicate NameText(a: string) {
    && a != ""
    && forall i :: 0 <= i < |a| ==>
         'a' <= a[i] <= 'z' || 'A' <= a[i] <= 'Z' || '0' <= a[i] <= '9' || a[i] == '_'
  }

  predicate Blank(sp: string) {
    forall i :: 0 <= i < |sp| ==> sp[i] == ' ' || sp[i] == '\t' || sp[i] == '\n' || sp[i] == '\r'
  }

  predicate BeginsWithLetter(a: string) {
    a != "" && ('a' <= a[0] <= 'z' || 'A' <= a[0] <= 'Z')
  }

  /** The operator between two operands. */
  function Sign(op: BoolOp): string {
    if op == And then "+" else ","
  }

  // ----- lexing -----

  function Joined(a: Option<seq<Token>>, b: Option<seq<Token>>): Option<seq<Token>> {
    if a.Some? && b.Some? then Some(a.value + b.value) else None
  }

  lemma {:induction false} WordLengthAppend(s: string, t: string)
    requires t == "" || !IsWordChar(t[0])
    ensures WordLength(s + t) == WordLength(s)
  {
    if s == "" {
      assert s + t == t;
    } else {
      assert (s + t)[1..] == s[1..] + t;
      WordLengthAppend(s[1..], t);
    }
  }

  lemma JoinedLater(t: Token, a: Option<seq<Token>>, b: Option<seq<Token>>)
    ensures Joined(Prepend(t, a), b) == Prepend(t, Joined(a, b))
  {
    if a.Some? && b.Some? {
      Associative([t], a.value, b.value);
    }
  }

  /** A text can be cut where no name is cut. */
  lemma {:induction false} LexAppend(s: string, t: string)
    requires t == "" || !IsWordChar(t[0])
    ensures Lex(s + t) == Joined(Lex(s), Lex(t))
    decreases |s|
  {
    if s == "" {
      assert s + t == t;
      if Lex(t).Some? {
        assert [] + Lex(t).value == Lex(t).value;
      }
    } else {
      WordLengthAppend(s, t);
      var n := if IsWordChar(s[0]) then WordLength(s) else 1;
      assert (s + t)[..n] == s[..n] && (s + t)[n..] == s[n..] + t;
      LexAppend(s[n..], t);
      var token := if IsWordChar(s[0]) then Word(s[..n]) else if s[0] == '+' then Op(And)
                   else if s[0] == ',' then Op(Or) else if s[0] == '(' then LPar else RPar;
      JoinedLater(token, Lex(s[n..]), Lex(t));
    }
  }

  lemma {:induction false} LexBlank(sp: string)
    requires Blank(sp)
    ensures Lex(sp) == Some([])
  {
    if sp != "" {
      LexBlank(sp[1..]);
    }
  }

  lemma PrependLast(t: Token)
    ensures Prepend(t, Some([])) == Some([t])
  {
    assert [t] + [] == [t];
  }

  lemma LexName(a: string)
    requires NameText(a)
    ensures Lex(a) == Some([Word(a)])
  {
    assert a + "" == a;
    WordLengthOfWord(a, "");
    assert a[..|a|] == a && a[|a|..] == "";
    PrependLast(Word(a));
  }

  lemma LexSign(op: BoolOp)
    ensures Lex(Sign(op)) == Some([Op(op)])
  {
    assert Sign(op)[1..] == "" && Lex("") == Some([]);
    assert "+"[0] == '+' && ","[0] == ',';
    PrependLast(Op(op));
  }

  lemma LexParentheses()
    ensures Lex("(") == Some([LPar]) && Lex(")") == Some([RPar])
  {
    assert "("[1..] == "" && ")"[1..] == "" && Lex("") == Some([]);
    assert "("[0] == '(' && ")"[0] == ')';
    PrependLast(LPar);
    PrependLast(RPar);
  }

  /** Blanks before and after a text do not matter. */
  lemma LexWithin(sp: string, s: string, sp': string)
    requires Blank(sp) && Blank(sp')
    ensures Lex(sp + s + sp') == Lex(s)
  {
    LexBlank(sp');
    LexAppend(sp + s, sp');
    LexAfterBlank(sp, s);
    if Lex(s).Some? {
      assert Lex(s).value + [] == Lex(s).value;
    }
  }

  lemma {:induction false} LexAfterBlank(sp: string, s: string)
    requires Blank(sp)
    ensures Lex(sp + s) == Lex(s)
  {
    if sp == "" {
      assert sp + s == s;
    } else {
      assert (sp + s)[1..] == sp[1..] + s;
      LexAfterBlank(sp[1..], s);
    }
  }

  /** s, an operator, and t. */
  lemma LexInfix(s: string, sp: string, op: BoolOp, sp': string, t: string)
    requires Blank(sp) && Blank(sp')
    ensures Lex(s + sp + Sign(op) + (sp' + t)) == Joined(Joined(Lex(s), Some([Op(op)])), Lex(t))
  {
    var left, right := s + sp, sp' + t;
    LexAfterBlank(sp', t);
    LexAfterBlank("", s);
    LexWithin("", s, sp);
    assert "" + s + sp == left;
    assert "+"[0] == '+' && ","[0] == ',' && !IsWordChar(Sign(op)[0]);
    LexSign(op);
    LexAppend(left, Sign(op));
    LexAfterSign(left + Sign(op), left, op, right);
  }

  /** After an operator a name can follow directly. */
  lemma LexAfterSign(s: string, left: string, op: BoolOp, right: string)
    requires s == left + Sign(op)
    ensures Lex(s + right) == Joined(Lex(s), Lex(right))
  {
    var tail := Sign(op) + right;
    assert s + right == left + tail && tail[0] == Sign(op)[0] && tail[1..] == right;
    assert "+"[0] == '+' && ","[0] == ',' && !IsWordChar(Sign(op)[0]);
    LexAppend(left, tail);
    LexSign(op);
    LexAppend(left, Sign(op));
    assert Lex(tail) == Prepend(Op(op), Lex(right));
    if Lex(left).Some? && Lex(right).Some? {
      Associative(Lex(left).value, [Op(op)], Lex(right).value);
    }
  }

  lemma LexGroup(s: string)
    ensures Lex("(" + s + ")") == Joined(Joined(Some([LPar]), Lex(s)), Some([RPar]))
  {
    LexParentheses();
    assert ")"[0] == ')' && "("[0] == '(';
    LexAppend("(" + s, ")");
    assert ("(" + s)[1..] == s;
    assert Lex("(" + s) == Prepend(LPar, Lex(s));
  }

  // ----- parsing -----

  lemma ParsedAs(s: string) returns (c: Chain)
    requires Parse(s).Some?
    ensures Lex(s) == Some(SpellChain(c)) && ChainTree(c) == Parse(s).value
  {
    c := ParseTokens(Lex(s).value).value;
    ParserIsGrammar(Lex(s).value, c);
  }

  lemma ParseSpelled(s: string, c: Chain)
    requires Lex(s) == Some(SpellChain(c))
    ensures Parse(s) == Some(ChainTree(c))
  {
    ParserIsGrammar(SpellChain(c), c);
  }

  /** A name, with any blanks around it, is read as itself. */
  lemma ReadsName(sp: string, a: string, sp': string)
    requires Blank(sp) && NameText(a) && Blank(sp')
    ensures Parse(sp + a + sp') == Some(Leaf(a))
  {
    LexName(a);
    LexWithin(sp, a, sp');
    assert Ops([]) + [Word(a)] == [Word(a)];
    ParseSpelled(sp + a + sp', Single(NameAtom([], a)));
  }

  /** After anything that is read, an operator and a name join that name. */
  lemma ReadsJoined(s: string, sp: string, op: BoolOp, sp': string, a: string)
    requires Parse(s).Some? && Blank(sp) && Blank(sp') && NameText(a)
    ensures Parse(s + sp + Sign(op) + (sp' + a)) == Some(Bin(op, Parse(s).value, Leaf(a)))
  {
    var c := ParsedAs(s);
    LexName(a);
    LexInfix(s, sp, op, sp', a);
    var longer := Snoc(c, op, NameAtom([], a));
    assert SpellAtom(NameAtom([], a)) == [Word(a)];
    ParseSpelled(s + sp + Sign(op) + (sp' + a), longer);
  }

  /** An operator and a text in parentheses join what is read in them. */
  lemma ReadsJoinedGroup(s: string, sp: string, op: BoolOp, sp': string, t: string)
    requires Parse(s).Some? && Parse(t).Some? && Blank(sp) && Blank(sp')
    ensures Parse(s + sp + Sign(op) + (sp' + ("(" + t + ")"))) == Some(Bin(op, Parse(s).value, Parse(t).value))
  {
    var c := ParsedAs(s);
    var d := ParsedAs(t);
    LexGroup(t);
    LexInfix(s, sp, op, sp', "(" + t + ")");
    var longer := Snoc(c, op, GroupAtom([], d));
    assert SpellAtom(GroupAtom([], d)) == [LPar] + SpellChain(d) + [RPar] by {
      assert Ops([]) + [LPar] == [LPar];
    }
    ParseSpelled(s + sp + Sign(op) + (sp' + ("(" + t + ")")), longer);
  }

  /** Parentheses around a text, and blanks around that, change nothing. */
  lemma ReadsGroup(sp: string, s: string, sp': string)
    requires Parse(s).Some? && Blank(sp) && Blank(sp')
    ensures Parse(sp + ("(" + s + ")") + sp') == Parse(s)
  {
    var c := ParsedAs(s);
    LexGroup(s);
    LexWithin(sp, "(" + s + ")", sp');
    assert Ops([]) + [LPar] == [LPar];
    ParseSpelled(sp + ("(" + s + ")") + sp', Single(GroupAtom([], c)));
  }

  lemma ReadsWithin(sp: string, s: string, sp': string)
    requires Blank(sp) && Blank(sp')
    ensures Parse(sp + s + sp') == Parse(s)
  {
    LexWithin(sp, s, sp');
  }

  /** Two names with an operator between them, no blanks: conjunction and disjunction. */
  lemma ReadsTwo(a: string, b: string)
    requires NameText(a) && NameText(b)
    ensures Parse(a) == Some(Leaf(a))
    ensures Parse(a + "+" + b) == Some(Bin(And, Leaf(a), Leaf(b)))
    ensures Parse(a + "," + b) == Some(Bin(Or, Leaf(a), Leaf(b)))
  {
    ReadsName("", a, "");
    assert "" + a + "" == a;
    ReadsJoined(a, "", And, "", b);
    ReadsJoined(a, "", Or, "", b);
    assert a + "" == a && "" + b == b;
  }

  // ----- what the entry points return for them -----

  /** A name stands for its support, is translated by the markup, and is the one name in the text; if it does
      not begin with a letter it is an error. */
  lemma NameOutcome(sp: string, a: string, sp': string, f: string -> bool, leaf: Markup, opMarkup: OpMarkup, par: bool)
    requires Blank(sp) && NameText(a) && Blank(sp')
    ensures var s := sp + a + sp';
            if BeginsWithLetter(a) then
              && Outcome(s, e => Value(e, f)) == Ok(f(a))
              && Outcome(s, e => Print(e, leaf, opMarkup, par, true)) == Ok(leaf(a))
              && Outcome(s, NamesOf) == Ok({a})
            else
              && Outcome(s, e => Value(e, f)) == Err(InvalidName)
              && Outcome(s, e => Print(e, leaf, opMarkup, par, true)) == Err(InvalidName)
              && Outcome(s, NamesOf) == Err(InvalidName)
  {
    ReadsName(sp, a, sp');
    LeafWellNamed(a);
  }

  lemma JoinedWellNamed(s: Expr, op: BoolOp, t: Expr)
    ensures WellNamed(Bin(op, s, t)) <==> WellNamed(s) && WellNamed(t)
  {
    WellNamedParts(op, s, t);
  }

  /** Two texts, the second in parentheses: `+` is conjunction and `,` is disjunction, the names are those of
      both, and the translation has the operator between them. */
  lemma JoinedOutcome(
    s: string, sp: string, op: BoolOp, sp': string, t: string, f: string -> bool, leaf: Markup, opMarkup: OpMarkup)
    requires Parse(s).Some? && Parse(t).Some? && Blank(sp) && Blank(sp')
    ensures var both := s + sp + Sign(op) + (sp' + ("(" + t + ")"));
            var u, v := Outcome(s, e => Value(e, f)), Outcome(t, e => Value(e, f));
            && Outcome(both, e => Value(e, f)) ==
                 (if u.Ok? && v.Ok? then Ok(if op == And then u.value && v.value else u.value || v.value)
                  else Err(InvalidName))
            && Outcome(both, NamesOf) ==
                 (if u.Ok? && v.Ok? then Ok(NamesOf(Parse(s).value) + NamesOf(Parse(t).value)) else Err(InvalidName))
    ensures var both := s + sp + Sign(op) + (sp' + ("(" + t + ")"));
            var u, v := Outcome(s, e => Print(e, leaf, opMarkup, false, true)),
                        Outcome(t, e => Print(e, leaf, opMarkup, false, true));
            Outcome(both, e => Print(e, leaf, opMarkup, false, true)) ==
              if u.Ok? && v.Ok? then Ok(u.value + " " + opMarkup(op) + " " + v.value) else Err(InvalidName)
  {
    ReadsJoinedGroup(s, sp, op, sp', t);
    JoinedWellNamed(Parse(s).value, op, Parse(t).value);
    PrintUnparenthesized(Parse(s).value, leaf, opMarkup);
    PrintUnparenthesized(Parse(t).value, leaf, opMarkup);
    hide WellNamed, Parse;
  }

  lemma PrintUnparenthesized(e: Expr, leaf: Markup, opMarkup: OpMarkup)
    ensures Print(e, leaf, opMarkup, false, true) == Print(e, leaf, opMarkup, false, false)
  {
  }

  /** With parentheses asked for, an operand that is not a name is printed in them. */
  lemma ParenthesizedText(op: BoolOp, l: Expr, r: Expr, leaf: Markup, opMarkup: OpMarkup)
    ensures Print(Bin(op, l, r), leaf, opMarkup, true, true)
            == Operand(l, leaf, opMarkup) + " " + opMarkup(op) + " " + Operand(r, leaf, opMarkup)
  {
    OperandPrinted(l, leaf, opMarkup);
    OperandPrinted(r, leaf, opMarkup);
  }

  function Operand(e: Expr, leaf: Markup, opMarkup: OpMarkup): string {
    if e.Leaf? then leaf(e.name) else "(" + Print(e, leaf, opMarkup, true, true) + ")"
  }

  lemma OperandPrinted(e: Expr, leaf: Markup, opMarkup: OpMarkup)
    ensures Print(e, leaf, opMarkup, true, false) == Operand(e, leaf, opMarkup)
  {
  }

  /** Names that are joined without parentheses. */
  lemma ChainedOutcome(s: string, sp: string, op: BoolOp, sp': string, a: string, f: string -> bool)
    requires Parse(s).Some? && Blank(sp) && Blank(sp') && NameText(a)
    ensures var both := s + sp + Sign(op) + (sp' + a);
            var u := Outcome(s, e => Value(e, f));
            Outcome(both, e => Value(e, f)) ==
              if u.Ok? && BeginsWithLetter(a) then Ok(if op == And then u.value && f(a) else u.value || f(a))
              else Err(InvalidName)
  {
    ReadsJoined(s, sp, op, sp', a);
    JoinedWellNamed(Parse(s).value, op, Leaf(a));
    LeafWellNamed(a);
    var e, both := Parse(s).value, s + sp + Sign(op) + (sp' + a);
    assert Parse(both) == Some(Bin(op, e, Leaf(a)));
    assert Value(Bin(op, e, Leaf(a)), f) == if op == And then Value(e, f) && f(a) else Value(e, f) || f(a);
    hide WellNamed, Parse, Value;
  }

  lemma LeafWellNamed(a: string)
    ensures WellNamed(Leaf(a)) <==> BeginsWithLetter(a)
  {
    assert a in NamesOf(Leaf(a));
  }

  /** Two names that begin with a letter: both have to be supported, or one of them. */
  lemma TwoNamesOutcome(a: string, b: string, f: string -> bool)
    requires NameText(a) && NameText(b) && BeginsWithLetter(a) && BeginsWithLetter(b)
    ensures Outcome(a + "+" + b, e => Value(e, f)) == Ok(f(a) && f(b))
    ensures Outcome(a + "," + b, e => Value(e, f)) == Ok(f(a) || f(b))
    ensures Outcome(a + "+" + b, NamesOf) == Outcome(a + "," + b, NamesOf) == Ok({a, b})
  {
    ReadsTwo(a, b);
    LeafWellNamed(a);
    LeafWellNamed(b);
    OutcomeOfTwo(a + "+" + b, a, And, b, f);
    OutcomeOfTwo(a + "," + b, a, Or, b, f);
  }

  lemma OutcomeOfTwo(s: string, a: string, op: BoolOp, b: string, f: string -> bool)
    requires Parse(s) == Some(Bin(op, Leaf(a), Leaf(b))) && WellNamed(Leaf(a)) && WellNamed(Leaf(b))
    ensures Outcome(s, e => Value(e, f)) == Ok(if op == And then f(a) && f(b) else f(a) || f(b))
    ensures Outcome(s, NamesOf) == Ok({a, b})
  {
    JoinedWellNamed(Leaf(a), op, Leaf(b));
    var e := Bin(op, Leaf(a), Leaf(b));
    assert Value(e, f) == if op == And then f(a) && f(b) else f(a) || f(b);
    assert NamesOf(e) == {a, b};
    hide WellNamed, Parse, Value, NamesOf;
  }

  // ----- what is not read -----

  /** Only these characters occur in a text that is read. */
  predicate Legal(c: char) {
    || 'a' <= c <= 'z' || 'A' <= c <= 'Z' || '0' <= c <= '9'
    || c in {'_', '+', ',', '(', ')', ' ', '\t', '\n', '\r'}
  }

  lemma {:induction false} OnlyLegal(s: string)
    ensures Lex(s).Some? <==> forall i :: 0 <= i < |s| ==> Legal(s[i])
    decreases |s|
  {
    if s != "" {
      var n := if IsWordChar(s[0]) then WordLength(s) else 1;
      OnlyLegal(s[n..]);
      assert s == s[..n] + s[n..];
      assert forall i :: 0 <= i < |s| ==> s[i] == if i < n then s[..n][i] else s[n..][i - n];
      assert forall i :: n <= i < |s| ==> s[i] == s[n..][i - n];
      LexOnce(s, n);
    }
  }

  lemma LexOnce(s: string, n: nat)
    requires s != "" && n == (if IsWordChar(s[0]) then WordLength(s) else 1)
    ensures n >= 1 && (forall i :: 1 <= i < n ==> Legal(s[i]))
    ensures Lex(s).Some? <==> Legal(s[0]) && Lex(s[n..]).Some?
  {
  }

  /** A text with any other character, a blank text, two expressions side by side and an operator at the end
      are parse errors. */
  lemma NotRead(s: string, sp: string, t: string, op: BoolOp)
    requires Blank(sp)
    ensures (exists i :: 0 <= i < |s| && !Legal(s[i])) ==> Parse(s).None?
    ensures Parse(sp).None?
    ensures Parse(s).Some? ==> Parse(s + sp + Sign(op)).None?
    ensures Parse(s).Some? && Parse("(" + t + ")").Some? ==> Parse(s + sp + ("(" + t + ")")).None?
  {
    OnlyLegal(s);
    LexBlank(sp);
    if Parse(s).Some? {
      Dangling(s, sp, op);
      if Parse("(" + t + ")").Some? {
        SideBySide(s, sp, t);
      }
    }
  }

  lemma Dangling(s: string, sp: string, op: BoolOp)
    requires Parse(s).Some? && Blank(sp)
    ensures Parse(s + sp + Sign(op)).None?
  {
    var c := ParsedAs(s);
    LexSign(op);
    assert "+"[0] == '+' && ","[0] == ',' && !IsWordChar(Sign(op)[0]);
    LexAppend(s + sp, Sign(op));
    LexWithin("", s, sp);
    assert "" + s + sp == s + sp;
    ParseChainComplete(c, [Op(op)]);
    assert [Op(op)][1..] == [];
  }

  lemma SideBySide(s: string, sp: string, t: string)
    requires Parse(s).Some? && Parse("(" + t + ")").Some? && Blank(sp)
    ensures Parse(s + sp + ("(" + t + ")")).None?
  {
    var c := ParsedAs(s);
    var group := "(" + t + ")";
    assert group[0] == '(';
    LexAppend(s + sp, group);
    LexWithin("", s, sp);
    assert "" + s + sp == s + sp;
    LexGroup(t);
    var ts := Lex(group).value;
    assert ts[0] == LPar;
    ParseChainComplete(c, ts);
  }
}
