/** What `depends` expressions mean, and what depends on which names. */
module DependencyMeaning {
  import opened DependencySyntax

  /** One entry of the expression stack. */
  datatype Item = Name(name: string) | Operator(op: BoolOp)

  /** The stack that parsing leaves: operands before their operator. */
  function Postfix(e: Expr): seq<Item> {
    match e
    case Leaf(n) => [Name(n)]
    case Bin(op, l, r) => Postfix(l) + Postfix(r) + [Operator(op)]
  }

  function Value(e: Expr, isSupported: string -> bool): bool {
    match e
    case Leaf(n) => isSupported(n)
    case Bin(And, l, r) => Value(l, isSupported) && Value(r, isSupported)
    case Bin(Or, l, r) => Value(l, isSupported) || Value(r, isSupported)
  }

  function NamesOf(e: Expr): set<string> {
    match e
    case Leaf(n) => {n}
    case Bin(_, l, r) => NamesOf(l) + NamesOf(r)
  }

  /** Evaluation accepts a name only if its first character is a letter, which the grammar does not
      ask for. */
  predicate IsName(n: string) {
    n != "" && IsLetter(n[0])
  }

  predicate WellNamed(e: Expr) {
    forall n :: n in NamesOf(e) ==> IsName(n)
  }

  /** The value grows with the support of the names that occur, and depends on nothing else. */
  lemma {:induction false} ValueMonotone(e: Expr, f: string -> bool, g: string -> bool)
    requires forall n :: n in NamesOf(e) && f(n) ==> g(n)
    ensures Value(e, f) ==> Value(e, g)
  {
    if e.Bin? {
      ValueMonotone(e.left, f, g);
      ValueMonotone(e.right, f, g);
    }
  }

  lemma ValueDependsOnNames(e: Expr, f: string -> bool, g: string -> bool)
    requires forall n :: n in NamesOf(e) ==> f(n) == g(n)
    ensures Value(e, f) == Value(e, g)
  {
    ValueMonotone(e, f, g);
    ValueMonotone(e, g, f);
  }

  /** Conversely, supporting every name that occurs suffices ... */
  lemma {:induction false} AllNamesSuffice(e: Expr, f: string -> bool)
    requires forall n :: n in NamesOf(e) ==> f(n)
    ensures Value(e, f)
  {
    if e.Bin? {
      AllNamesSuffice(e.left, f);
      AllNamesSuffice(e.right, f);
    }
  }

  predicate HasOr(e: Expr) {
    e.Bin? && (e.op.Or? || HasOr(e.left) || HasOr(e.right))
  }

  /** ... and without ',' it is also necessary. */
  lemma {:induction false} WithoutOrAllNeeded(e: Expr, f: string -> bool)
    requires !HasOr(e) && Value(e, f)
    ensures forall n :: n in NamesOf(e) ==> f(n)
  {
    if e.Bin? {
      WithoutOrAllNeeded(e.left, f);
      WithoutOrAllNeeded(e.right, f);
    }
  }

  /** Reading one expression off the top of a stack, with what is left below it. */
  function Pop(stack: seq<Item>): (r: (Expr, seq<Item>))
    ensures |r.1| <= |stack| && (stack != [] ==> |r.1| < |stack|)
    decreases |stack|
  {
    if stack == [] then (Leaf(""), [])
    else
      var top, below := stack[|stack| - 1], stack[..|stack| - 1];
      match top
      case Name(n) => (Leaf(n), below)
      case Operator(op) =>
        var (right, rest) := Pop(below);
        var (left, rest') := Pop(rest);
        (Bin(op, left, right), rest')
  }

  lemma {:induction false} PopPostfix(below: seq<Item>, e: Expr)
    ensures Pop(below + Postfix(e)) == (e, below)
    decreases e
  {
    var stack := below + Postfix(e);
    match e {
      case Leaf(n) =>
        assert stack[..|stack| - 1] == below;
      case Bin(op, l, r) =>
        assert stack[..|stack| - 1] == (below + Postfix(l)) + Postfix(r);
        PopPostfix(below + Postfix(l), r);
        PopPostfix(below, l);
    }
  }

  /** A stack determines the expression it was built from. */
  lemma PostfixInjective(d: Expr, e: Expr)
    ensures Postfix(d) == Postfix(e) <==> d == e
  {
    PopPostfix([], d);
    PopPostfix([], e);
  }
}
