/** Finite directed graphs, given by the successor set of each node.
    Reachability is the least set closed under successors; acyclicity is stated through it. */
module Graphs {

  type Graph<K> = map<K, set<K>>

  ghost predicate Edge<K(!new)>(g: Graph<K>, x: K, y: K) {
    x in g && y in g && y in g[x]
  }

  ghost predicate Closed<K(!new)>(g: Graph<K>, S: set<K>) {
    forall x, y {:trigger Edge(g, x, y)} :: x in S && Edge(g, x, y) ==> y in S
  }

  ghost predicate ClosedFrom<K(!new)>(g: Graph<K>, S: set<K>, R: set<K>) {
    S * g.Keys <= R && Closed(g, R)
  }

  /** R is the least set that holds the nodes of S and is closed under successors. */
  ghost predicate IsLeastClosed<K(!new)>(g: Graph<K>, S: set<K>, R: set<K>) {
    && R <= g.Keys
    && ClosedFrom(g, S, R)
    && forall T :: ClosedFrom(g, S, T) ==> R <= T
  }

  /** The nodes of g reachable from S in any number of steps, including none.
      Names in S or in successor sets that are not nodes of g are ignored. */
  ghost function Reach<K(!new)>(g: Graph<K>, S: set<K>): (R: set<K>)
    ensures IsLeastClosed(g, S, R)
  {
    SaturateIsLeast(g, S);
    var R :| IsLeastClosed(g, S, R);
    R
  }

  // ----- least closed sets exist: add successors until nothing new turns up -----

  ghost function Successors<K(!new)>(g: Graph<K>, S: set<K>): set<K> {
    set y | y in g.Keys && exists x :: x in S && Edge(g, x, y)
  }

  ghost function Saturate<K(!new)>(g: Graph<K>, S: set<K>): (r: set<K>)
    requires S <= g.Keys
    ensures S <= r <= g.Keys
    decreases g.Keys - S
  {
    var more := S + Successors(g, S);
    if more == S then S else Saturate(g, more)
  }

  lemma {:induction false} SaturateClosed<K(!new)>(g: Graph<K>, S: set<K>)
    requires S <= g.Keys
    ensures Closed(g, Saturate(g, S))
    decreases g.Keys - S
  {
    var more := S + Successors(g, S);
    if more == S {
      forall x, y | x in S && Edge(g, x, y)
        ensures y in S
      {
        assert y in Successors(g, S);
      }
    } else {
      SaturateClosed(g, more);
    }
  }

  lemma {:induction false} SaturateLeast<K(!new)>(g: Graph<K>, S: set<K>, T: set<K>)
    requires S <= g.Keys && S <= T && Closed(g, T)
    ensures Saturate(g, S) <= T
    decreases g.Keys - S
  {
    var more := S + Successors(g, S);
    if more != S {
      SaturateLeast(g, more, T);
    }
  }

  lemma SaturateIsLeast<K(!new)>(g: Graph<K>, S: set<K>)
    ensures exists R :: IsLeastClosed(g, S, R)
  {
    var R := Saturate(g, S * g.Keys);
    SaturateClosed(g, S * g.Keys);
    forall T | ClosedFrom(g, S, T)
      ensures R <= T
    {
      SaturateLeast(g, S * g.Keys, T);
    }
    assert IsLeastClosed(g, S, R);
  }

  // ----- laws of reachability -----

  lemma ReachLeast<K(!new)>(g: Graph<K>, S: set<K>, T: set<K>)
    requires S * g.Keys <= T && Closed(g, T)
    ensures Reach(g, S) <= T
  {
    assert ClosedFrom(g, S, T);
  }

  lemma ReachNothing<K(!new)>(g: Graph<K>, S: set<K>)
    requires S * g.Keys == {}
    ensures Reach(g, S) == {}
  {
    ReachLeast(g, S, {});
  }

  lemma ReachMonotone<K(!new)>(g: Graph<K>, S: set<K>, T: set<K>)
    requires S <= T
    ensures Reach(g, S) <= Reach(g, T)
  {
    ReachLeast(g, S, Reach(g, T));
  }

  lemma ReachUnion<K(!new)>(g: Graph<K>, S: set<K>, T: set<K>)
    ensures Reach(g, S + T) == Reach(g, S) + Reach(g, T)
  {
    ReachMonotone(g, S, S + T);
    ReachMonotone(g, T, S + T);
    ReachLeast(g, S + T, Reach(g, S) + Reach(g, T));
  }

  /** What a node reaches is itself and what its successors reach. */
  lemma ReachUnfold<K(!new)>(g: Graph<K>, k: K)
    requires k in g
    ensures Reach(g, {k}) == {k} + Reach(g, g[k])
  {
    assert k in {k} * g.Keys;
    assert forall y :: y in g[k] * g.Keys ==> Edge(g, k, y);
    ReachLeast(g, g[k], Reach(g, {k}));
    ReachLeast(g, {k}, {k} + Reach(g, g[k]));
  }

  lemma ReachStep<K(!new)>(g: Graph<K>, S: set<K>, x: K, y: K)
    requires x in Reach(g, S) && y in g[x] && y in g
    ensures y in Reach(g, S)
  {
    assert Edge(g, x, y);
  }

  lemma ReachTransitive<K(!new)>(g: Graph<K>, S: set<K>, T: set<K>)
    requires T * g.Keys <= Reach(g, S)
    ensures Reach(g, T) <= Reach(g, S)
  {
    ReachLeast(g, T, Reach(g, S));
  }

  // ----- reaching from the elements of a list -----

  ghost function Elements<T>(s: seq<T>): set<T> {
    set x | x in s
  }

  lemma ReachFirst<K(!new)>(g: Graph<K>, s: seq<K>)
    ensures Reach(g, Elements(s[..0])) == {}
    ensures s[..|s|] == s
  {
    ReachNothing(g, Elements(s[..0]));
  }

  lemma ReachNext<K(!new)>(g: Graph<K>, s: seq<K>, i: nat)
    requires i < |s|
    ensures Reach(g, Elements(s[..i + 1])) == Reach(g, Elements(s[..i])) + Reach(g, {s[i]})
  {
    assert Elements(s[..i + 1]) == Elements(s[..i]) + {s[i]};
    ReachUnion(g, Elements(s[..i]), {s[i]});
  }

  // ----- cycles -----

  /** Some way leads from k back to k. */
  ghost predicate OnCycle<K(!new)>(g: Graph<K>, k: K)
    requires k in g
  {
    k in Reach(g, g[k])
  }

  /** No node that is reachable from S lies on a cycle. */
  ghost predicate NoCycleFrom<K(!new)>(g: Graph<K>, S: set<K>) {
    forall k :: k in Reach(g, S) ==> !OnCycle(g, k)
  }

  /** As Acyclic, but an edge from a node to itself is allowed. */
  ghost predicate AcyclicButLoops<K(!new)>(g: Graph<K>) {
    forall k {:trigger Reach(g, g[k] - {k})} :: k in g ==> k !in Reach(g, g[k] - {k})
  }

  /** How many nodes lie strictly below k: a termination measure for recursion along edges. */
  ghost function Rank<K(!new)>(g: Graph<K>, k: K): nat {
    if k in g then 1 + |Reach(g, g[k])| else 0
  }

  lemma RankDecreases<K(!new)>(g: Graph<K>, k: K, d: K)
    requires k in g && d in g[k] && (d in g ==> !OnCycle(g, d))
    ensures Rank(g, d) < Rank(g, k)
  {
    if d in g {
      assert d in g[k] * g.Keys;
      assert forall y :: y in g[d] * g.Keys ==> Edge(g, d, y);
      ReachTransitive(g, g[k], g[d]);
      assert d !in Reach(g, g[d]) && d in Reach(g, g[k]);
      SmallerSubset(Reach(g, g[d]), Reach(g, g[k]));
    }
  }

  lemma NoCycleFewer<K(!new)>(g: Graph<K>, S: set<K>, T: set<K>)
    requires NoCycleFrom(g, S) && T <= S
    ensures NoCycleFrom(g, T)
  {
    ReachMonotone(g, T, S);
  }

  /** Going on from k along an edge stays clear of cycles, and comes closer to the end. */
  lemma NoCycleStep<K(!new)>(g: Graph<K>, k: K, d: K)
    requires k in g && d in g[k] && NoCycleFrom(g, {k})
    ensures NoCycleFrom(g, {d})
    ensures Rank(g, d) < Rank(g, k)
  {
    ReachUnfold(g, k);
    ReachMonotone(g, {d}, g[k]);
    if d in g {
      ReachUnfold(g, d);
    }
    RankDecreases(g, k, d);
  }

  // ----- recursion along edges halts -----

  /** A recursion that calls itself for every successor of k, and ignores what is not a node, returns
      within the given depth. */
  ghost predicate HaltsWithin<K(!new)>(g: Graph<K>, k: K, depth: nat) {
    k in g ==> depth > 0 && forall d :: d in g[k] ==> HaltsWithin(g, d, depth - 1)
  }

  ghost predicate Halts<K(!new)>(g: Graph<K>, k: K) {
    exists depth: nat :: HaltsWithin(g, k, depth)
  }

  lemma {:induction false} HaltsDeeper<K(!new)>(g: Graph<K>, k: K, m: nat, n: nat)
    requires HaltsWithin(g, k, m) && m <= n
    ensures HaltsWithin(g, k, n)
    decreases m
  {
    if k in g {
      forall d | d in g[k]
        ensures HaltsWithin(g, d, n - 1)
      {
        HaltsDeeper(g, d, m - 1, n - 1);
      }
    }
  }

  lemma {:induction false} HaltsWithinRank<K(!new)>(g: Graph<K>, k: K)
    requires NoCycleFrom(g, {k})
    ensures HaltsWithin(g, k, Rank(g, k))
    decreases Rank(g, k)
  {
    if k in g {
      forall d | d in g[k]
        ensures HaltsWithin(g, d, Rank(g, k) - 1)
      {
        NoCycleStep(g, k, d);
        HaltsWithinRank(g, d);
        HaltsDeeper(g, d, Rank(g, d), Rank(g, k) - 1);
      }
    }
  }

  /** What is reachable from several nodes is reachable from one of them. */
  lemma ReachFromOne<K(!new)>(g: Graph<K>, S: set<K>, x: K) returns (s: K)
    requires x in Reach(g, S)
    ensures s in S && x in Reach(g, {s})
  {
    var T := set y, r | r in S && y in Reach(g, {r}) :: y;
    forall y | y in S * g.Keys
      ensures y in T
    {
      assert y in {y} * g.Keys;
      assert y in Reach(g, {y});
    }
    ReachLeast(g, S, T);
    s :| s in S && x in Reach(g, {s});
  }

  lemma {:induction false} HaltingMeetsNoCycle<K(!new)>(g: Graph<K>, k: K, depth: nat)
    requires HaltsWithin(g, k, depth)
    ensures NoCycleFrom(g, {k})
    decreases depth
  {
    if k !in g {
      ReachNothing(g, {k});
    } else {
      ReachUnfold(g, k);
      forall x | x in Reach(g, {k})
        ensures !OnCycle(g, x)
      {
        if x in Reach(g, g[k]) {
          var d := ReachFromOne(g, g[k], x);
          HaltingMeetsNoCycle(g, d, depth - 1);
        }
      }
    }
  }

  /** The recursion halts if and only if it does not come upon a cycle. */
  lemma HaltsExactly<K(!new)>(g: Graph<K>, k: K)
    ensures Halts(g, k) <==> NoCycleFrom(g, {k})
  {
    if NoCycleFrom(g, {k}) {
      HaltsWithinRank(g, k);
    }
    if Halts(g, k) {
      var depth: nat :| HaltsWithin(g, k, depth);
      HaltingMeetsNoCycle(g, k, depth);
    }
  }

  lemma SmallerSubset<K>(A: set<K>, B: set<K>)
    requires A < B
    ensures |A| < |B|
  {
    var rest := B - A;
    assert B == A + rest && A !! rest;
    assert rest != {};
  }
}
