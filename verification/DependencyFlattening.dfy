/** When a dependency expression printed without parentheses keeps its meaning
    (specification/scripts/parse_dependency.py). */
module DependencyFlattening {
  import opened Wrappers
  import opened DependencySyntax
  import opened DependencyMeaning
  import opened DependencyPrinting

  function Apply(op: BoolOp, a: bool, b: bool): bool {
    match op case And => a && b case Or => a || b
  }

  /** What the printed expression is read as. */
  function Flat(e: Expr): Expr {
    ChainTree(FlatChain(e))
  }

  predicate OnlyOps(e: Expr, op: BoolOp) {
    e.Bin? ==> e.op == op && OnlyOps(e.left, op) && OnlyOps(e.right, op)
  }

  predicate ChainOps(c: Chain, op: BoolOp) {
    c.Snoc? ==> c.op == op && ChainOps(c.init, op)
  }

  /** No right operand mixes another operator into that of its parent. */
  predicate KeepsMeaning(e: Expr) {
    e.Bin? ==> KeepsMeaning(e.left) && OnlyOps(e.right, e.op)
  }

  /** No name occurs twice. */
  predicate DistinctNames(e: Expr) {
    e.Bin? ==> DistinctNames(e.left) && DistinctNames(e.right) && NamesOf(e.left) !! NamesOf(e.right)
  }

  lemma {:induction false} JoinOps(c: Chain, op: BoolOp, d: Chain, o: BoolOp)
    ensures ChainOps(Join(c, op, d), o) <==> op == o && ChainOps(c, o) && ChainOps(d, o)
  {
    if d.Snoc? {
      JoinOps(c, op, d.init, o);
    }
  }

  lemma {:induction false} FlatOps(e: Expr, op: BoolOp)
    ensures ChainOps(FlatChain(e), op) <==> OnlyOps(e, op)
  {
    if e.Bin? {
      FlatOps(e.left, op);
      FlatOps(e.right, op);
      JoinOps(FlatChain(e.left), e.op, FlatChain(e.right), op);
    }
  }

  lemma {:induction false} JoinNames(c: Chain, op: BoolOp, d: Chain)
    ensures NamesOf(ChainTree(Join(c, op, d))) == NamesOf(ChainTree(c)) + NamesOf(ChainTree(d))
  {
    if d.Snoc? {
      JoinNames(c, op, d.init);
    }
  }

  lemma {:induction false} FlatNames(e: Expr)
    ensures NamesOf(Flat(e)) == NamesOf(e)
  {
    if e.Bin? {
      FlatNames(e.left);
      FlatNames(e.right);
      JoinNames(FlatChain(e.left), e.op, FlatChain(e.right));
    } else {
      assert ChainTree(FlatChain(e)) == AtomTree(NameAtom([], e.name)) == e;
    }
  }

  lemma {:induction false} JoinValue(c: Chain, op: BoolOp, d: Chain, f: string -> bool)
    requires ChainOps(d, op)
    ensures Value(ChainTree(Join(c, op, d)), f) == Apply(op, Value(ChainTree(c), f), Value(ChainTree(d), f))
  {
    if d.Snoc? {
      JoinValue(c, op, d.init, f);
    }
  }

  lemma {:induction false} OnlyOpsKeep(e: Expr, op: BoolOp)
    requires OnlyOps(e, op)
    ensures KeepsMeaning(e)
  {
    if e.Bin? {
      OnlyOpsKeep(e.left, op);
    }
  }

  /** Such an expression means the same whatever is supported. */
  lemma {:induction false} FlatSame(e: Expr, f: string -> bool)
    requires KeepsMeaning(e)
    ensures Value(Flat(e), f) == Value(e, f)
  {
    if e.Bin? {
      FlatSame(e.left, f);
      OnlyOpsKeep(e.right, e.op);
      FlatSame(e.right, f);
      FlatOps(e.right, e.op);
      JoinValue(FlatChain(e.left), e.op, FlatChain(e.right), f);
    } else {
      assert ChainTree(FlatChain(e)) == AtomTree(NameAtom([], e.name)) == e;
    }
  }

  // ----- any other expression does not -----

  lemma {:induction false} Uniform(e: Expr, f: string -> bool, b: bool)
    requires forall n :: n in NamesOf(e) ==> f(n) == b
    ensures Value(e, f) == b
  {
    if e.Bin? {
      Uniform(e.left, f, b);
      Uniform(e.right, f, b);
    }
  }

  /** Operands of value b, joined by an operator of which some operator among them is the other one: from
      there on the value is b. */
  lemma {:induction false} JoinForced(c: Chain, op: BoolOp, d: Chain, f: string -> bool, b: bool)
    requires !ChainOps(d, op) && b == op.And?
    requires forall n :: n in NamesOf(ChainTree(d)) ==> f(n) == b
    ensures Value(ChainTree(Join(c, op, d)), f) == b
  {
    Uniform(AtomTree(d.atom), f, b);
    if d.op == op {
      JoinForced(c, op, d.init, f, b);
    }
  }

  lemma {:induction false} FlatDiffers(e: Expr) returns (f: string -> bool)
    requires DistinctNames(e) && !KeepsMeaning(e)
    ensures Value(Flat(e), f) != Value(e, f)
  {
    var op, l, r := e.op, e.left, e.right;
    FlatNames(l);
    FlatNames(r);
    FlatOps(r, op);
    if !OnlyOps(r, op) {
      f := (n: string) => (n in NamesOf(r)) == op.And?;
      JoinForced(FlatChain(l), op, FlatChain(r), f, op.And?);
      Uniform(l, f, !op.And?);
    } else {
      var g := FlatDiffers(l);
      f := (n: string) => if n in NamesOf(r) then op.And? else g(n);
      ValueDependsOnNames(l, f, g);
      ValueDependsOnNames(Flat(l), f, g);
      Uniform(r, f, op.And?);
      Uniform(Flat(r), f, op.And?);
      JoinValue(FlatChain(l), op, FlatChain(r), f);
    }
  }

  /** The text without parentheses means the same, whatever is supported, if no right operand mixes in
      another operator; and if no name occurs twice, only then. */
  lemma UnparenthesizedMeaning(e: Expr)
    requires forall n :: n in NamesOf(e) ==> IsWord(n)
    ensures var again := Parse(Print(e, Same, OpText, false, true));
            && again.Some?
            && (KeepsMeaning(e) ==> forall f: string -> bool :: Value(again.value, f) == Value(e, f))
            && (DistinctNames(e) && !KeepsMeaning(e) ==>
                  exists f: string -> bool :: Value(again.value, f) != Value(e, f))
  {
    ReparseFlat(e);
    if KeepsMeaning(e) {
      forall f: string -> bool
        ensures Value(Flat(e), f) == Value(e, f)
      {
        FlatSame(e, f);
      }
    } else if DistinctNames(e) {
      var f := FlatDiffers(e);
      assert Value(Flat(e), f) != Value(e, f);
    }
  }

  /** With a name that occurs twice it can mean the same all the same: a+(a,a). */
  lemma RepeatedName()
    ensures var a := Leaf("a");
            var e := Bin(And, a, Bin(Or, a, a));
            !KeepsMeaning(e) && forall f: string -> bool :: Value(Flat(e), f) == Value(e, f)
  {
    var a := Leaf("a");
    var e := Bin(And, a, Bin(Or, a, a));
    assert FlatChain(e.right) == Snoc(Single(NameAtom([], "a")), Or, NameAtom([], "a"));
    assert Flat(e) == Bin(Or, Bin(And, a, a), a);
  }
}
