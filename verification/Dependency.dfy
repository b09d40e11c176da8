/** Parsing dependency expressions onto a stack, and consuming the stack by evaluating it, printing it
    or collecting its names (specification/scripts/parse_dependency.py). */
module Dependency {
  import opened Wrappers
  import opened Sequences
  import opened DependencySyntax
  import opened DependencyMeaning
  import opened DependencyPrinting

  datatype Error = ParseError | InvalidName

  class Stack {
    var items: seq<Item>

    constructor (items: seq<Item>)
      ensures this.items == items
    {
      this.items := items;
    }

    /** The parse action push_first. */
    method Push(item: Item)
      modifies this
      ensures items == old(items) + [item]
    {
      items := items + [item];
    }

    method Pop() returns (item: Item)
      requires items != []
      modifies this
      ensures item == old(items)[|old(items)| - 1]
      ensures items == old(items)[..|old(items)| - 1]
    {
      item := items[|items| - 1];
      items := items[..|items| - 1];
    }

    // ----- parsing -----

    /** Read an atom, pushing its postfix form. The result is what is left of the input. */
    method ReadAtom(ts: seq<Token>) returns (rest: Option<seq<Token>>)
      modifies this
      ensures rest.Some? <==> ParseAtom(ts).Some?
      ensures rest.Some? ==> var (a, left) := ParseAtom(ts).value;
                             rest.value == left && items == old(items) + Postfix(AtomTree(a))
      decreases |ts|, 0
    {
      var ops := LeadingOps(ts);
      var after := ts[|ops|..];
      if after == [] {
        return None;
      }
      if after[0].Word? {
        Push(Name(after[0].name));
        return Some(after[1..]);
      }
      if after[0].LPar? {
        var inner := ReadExpr(after[1..]);
        if inner.Some? && inner.value != [] && inner.value[0].RPar? {
          return Some(inner.value[1..]);
        }
      }
      return None;
    }

    /** Read an expression: each operator is pushed after both of its operands. */
    method ReadExpr(ts: seq<Token>) returns (rest: Option<seq<Token>>)
      modifies this
      ensures rest.Some? <==> ParseChain(ts).Some?
      ensures rest.Some? ==> var (c, left) := ParseChain(ts).value;
                             rest.value == left && items == old(items) + Postfix(ChainTree(c))
      decreases |ts|, 1
    {
      rest := ReadAtom(ts);
      if rest.None? {
        return None;
      }
      ghost var c := Single(ParseAtom(ts).value.0);
      while rest.value != [] && rest.value[0].Op?
        invariant rest.Some? && |rest.value| < |ts|
        invariant ParseChain(ts) == ParseMore(c, rest.value)
        invariant items == old(items) + Postfix(ChainTree(c))
        decreases |rest.value|
      {
        var op := rest.value[0].op;
        var next := ReadAtom(rest.value[1..]);
        if next.None? {
          return None;
        }
        Push(Operator(op));
        ghost var a := ParseAtom(rest.value[1..]).value.0;
        PostfixSnoc(old(items), c, op, a);
        c := Snoc(c, op, a);
        rest := next;
      }
    }

    // ----- consuming the stack -----
    // In each case the stack ends in the postfix form of some expression e, above some other items;
    // exactly the items of e are consumed.

    method Evaluate(isSupported: string -> bool, ghost e: Expr, ghost below: seq<Item>)
      returns (r: Result<bool, Error>)
      requires items == below + Postfix(e)
      modifies this
      ensures r == if WellNamed(e) then Ok(Value(e, isSupported)) else Err(InvalidName)
      ensures r.Ok? ==> items == below
      decreases e
    {
      Ends(e, below);
      var op := Pop();
      match op {
        case Operator(o) =>
          var op2 := Evaluate(isSupported, e.right, below + Postfix(e.left));
          if op2.Err? {
            return op2;
          }
          var op1 := Evaluate(isSupported, e.left, below);
          if op1.Err? {
            return op1;
          }
          return Ok(if o == And then op1.value && op2.value else op1.value || op2.value);
        case Name(n) =>
          return if IsName(n) then Ok(isSupported(n)) else Err(InvalidName);
      }
    }

    method Language(leafMarkup: Markup, opMarkup: OpMarkup, parenthesize: bool, root: bool,
                    ghost e: Expr, ghost below: seq<Item>)
      returns (r: Result<string, Error>)
      requires items == below + Postfix(e)
      modifies this
      ensures r == if WellNamed(e) then Ok(Print(e, leafMarkup, opMarkup, parenthesize, root))
                   else Err(InvalidName)
      ensures r.Ok? ==> items == below
      decreases e
    {
      Ends(e, below);
      var op := Pop();
      match op {
        case Operator(o) =>
          var rhs := Language(leafMarkup, opMarkup, parenthesize, false, e.right, below + Postfix(e.left));
          if rhs.Err? {
            return rhs;
          }
          var opname := opMarkup(o);
          var lhs := Language(leafMarkup, opMarkup, parenthesize, false, e.left, below);
          if lhs.Err? {
            return lhs;
          }
          if parenthesize && !root {
            return Ok("(" + (lhs.value + " " + opname + " " + rhs.value) + ")");
          } else {
            return Ok(lhs.value + " " + opname + " " + rhs.value);
          }
        case Name(n) =>
          return if IsName(n) then Ok(leafMarkup(n)) else Err(InvalidName);
      }
    }

    method CollectNames(ghost e: Expr, ghost below: seq<Item>) returns (r: Result<set<string>, Error>)
      requires items == below + Postfix(e)
      modifies this
      ensures r == if WellNamed(e) then Ok(NamesOf(e)) else Err(InvalidName)
      ensures r.Ok? ==> items == below
      decreases e
    {
      Ends(e, below);
      var op := Pop();
      match op {
        case Operator(_) =>
          var right := CollectNames(e.right, below + Postfix(e.left));
          if right.Err? {
            return right;
          }
          var left := CollectNames(e.left, below);
          if left.Err? {
            return left;
          }
          assert right.value + left.value == NamesOf(e);
          return Ok(right.value + left.value);
        case Name(n) =>
          return if IsName(n) then Ok({n}) else Err(InvalidName);
      }
    }
  }

  /** What is under the last item of a stack that ends in e. */
  ghost function Under(e: Expr, below: seq<Item>): seq<Item> {
    match e
    case Leaf(_) => below
    case Bin(_, l, r) => (below + Postfix(l)) + Postfix(r)
  }

  /** The last item tells an operator from a name, and what is below it. */
  lemma Ends(e: Expr, below: seq<Item>)
    ensures var stack := below + Postfix(e);
            && stack != []
            && stack[|stack| - 1] == (match e case Leaf(n) => Name(n) case Bin(op, _, _) => Operator(op))
            && stack[..|stack| - 1] == Under(e, below)
    ensures e.Bin? ==> (WellNamed(e) <==> WellNamed(e.left) && WellNamed(e.right))
  {
    match e {
      case Leaf(n) =>
        SplitLast(below + Postfix(e), below, Name(n));
      case Bin(op, l, r) =>
        Associative(below, Postfix(l) + Postfix(r), [Operator(op)]);
        Associative(below, Postfix(l), Postfix(r));
        SplitLast(below + Postfix(e), Under(e, below), Operator(op));
        WellNamedParts(op, l, r);
    }
  }

  lemma WellNamedParts(op: BoolOp, l: Expr, r: Expr)
    ensures WellNamed(Bin(op, l, r)) <==> WellNamed(l) && WellNamed(r)
  {
    assert forall n :: n in NamesOf(Bin(op, l, r)) <==> n in NamesOf(l) || n in NamesOf(r);
  }

  lemma PostfixSnoc(below: seq<Item>, c: Chain, op: BoolOp, a: Atom)
    ensures below + Postfix(ChainTree(c)) + Postfix(AtomTree(a)) + [Operator(op)]
            == below + Postfix(ChainTree(Snoc(c, op, a)))
  {
  }

  // ----- the entry points -----

  /** Parse onto a fresh stack. */
  method ParseString(dependency: string) returns (ok: bool, stack: Stack)
    ensures fresh(stack)
    ensures ok <==> Parse(dependency).Some?
    ensures ok ==> stack.items == Postfix(Parse(dependency).value)
  {
    stack := new Stack([]);
    match Lex(dependency) {
      case None =>
        ok := false;
      case Some(ts) =>
        var rest := stack.ReadExpr(ts);
        ok := rest == Some([]);
    }
  }

  ghost function Outcome<T>(dependency: string, meaning: Expr -> T): Result<T, Error> {
    match Parse(dependency)
    case None => Err(ParseError)
    case Some(e) => if WellNamed(e) then Ok(meaning(e)) else Err(InvalidName)
  }

  method EvaluateDependency(dependency: string, isSupported: string -> bool) returns (r: Result<bool, Error>)
    ensures r == Outcome(dependency, e => Value(e, isSupported))
  {
    var ok, exprStack := ParseString(dependency);
    if !ok {
      return Err(ParseError);
    }
    var copy := new Stack(exprStack.items);
    r := copy.Evaluate(isSupported, Parse(dependency).value, []);
  }

  method DependencyLanguage(dependency: string, leafMarkup: Markup, opMarkup: OpMarkup, parenthesize: bool)
    returns (r: Result<string, Error>)
    ensures r == Outcome(dependency, e => Print(e, leafMarkup, opMarkup, parenthesize, true))
  {
    var ok, exprStack := ParseString(dependency);
    if !ok {
      return Err(ParseError);
    }
    r := exprStack.Language(leafMarkup, opMarkup, parenthesize, true, Parse(dependency).value, []);
  }

  method DependencyNames(dependency: string) returns (r: Result<set<string>, Error>)
    ensures r == Outcome(dependency, NamesOf)
  {
    var ok, exprStack := ParseString(dependency);
    if !ok {
      return Err(ParseError);
    }
    r := exprStack.CollectNames(Parse(dependency).value, []);
  }

  // ----- laws of the entry points -----

  lemma {:induction false} SpelledNames(c: Chain)
    ensures forall n :: n in NamesOf(ChainTree(c)) ==> Word(n) in SpellChain(c)
    decreases c
  {
    match c {
      case Single(a) =>
        SpelledNamesOfAtom(a);
      case Snoc(init, _, a) =>
        SpelledNames(init);
        SpelledNamesOfAtom(a);
    }
  }

  lemma {:induction false} SpelledNamesOfAtom(a: Atom)
    ensures forall n :: n in NamesOf(AtomTree(a)) ==> Word(n) in SpellAtom(a)
    decreases a
  {
    if a.GroupAtom? {
      SpelledNames(a.inner);
    }
  }

  lemma ParsedNamesAreWords(dependency: string)
    requires Parse(dependency).Some?
    ensures forall n :: n in NamesOf(Parse(dependency).value) ==> IsWord(n)
  {
    var ts := Lex(dependency).value;
    var c := ParseTokens(ts).value;
    ParserIsGrammar(ts, c);
    LexedNamesAreWords(dependency);
    SpelledNames(c);
  }

  /** Printing a parsed expression in parentheses and parsing the text again changes nothing. */
  lemma PrintReparse(dependency: string)
    requires Parse(dependency).Some?
    ensures Parse(Print(Parse(dependency).value, Same, OpText, true, true)) == Parse(dependency)
  {
    ParsedNamesAreWords(dependency);
    ReparseParenthesized(Parse(dependency).value);
  }
}
