/** Which handle two or more handle parameters have in common (getUnnamedCommonParentOfParams in
    specification/scripts/validitygenerator.py, iterateHandleAncestors in generator.py). */
module HandleParents {
  import opened Wrappers
  import opened Sequences
  import opened Graphs

  /** The parent attribute of each type that has one. */
  type Parents = map<string, string>

  ghost function ParentGraph(parents: Parents): Graph<string> {
    map t | t in parents.Keys + parents.Values :: if t in parents then {parents[t]} else {}
  }

  /** The walk up from t comes to an end: by Graphs.HaltsExactly, exactly if it meets no cycle. */
  ghost predicate Rooted(parents: Parents, t: string) {
    NoCycleFrom(ParentGraph(parents), {t})
  }

  lemma Upwards(parents: Parents, t: string)
    requires Rooted(parents, t) && t in parents
    ensures Rooted(parents, parents[t])
    ensures Rank(ParentGraph(parents), parents[t]) < Rank(ParentGraph(parents), t)
  {
    NoCycleStep(ParentGraph(parents), t, parents[t]);
  }

  /** The ancestors of a rooted type, nearest first. */
  ghost function Ancestors(parents: Parents, t: string): seq<string>
    decreases Rank(ParentGraph(parents), t)
  {
    if Rooted(parents, t) && t in parents then
      Upwards(parents, t);
      [parents[t]] + Ancestors(parents, parents[t])
    else []
  }

  /** iterateHandleAncestors */
  method HandleAncestors(parents: Parents, typename: string) returns (ancestors: seq<string>)
    requires Rooted(parents, typename)
    ensures ancestors == Ancestors(parents, typename)
  {
    ancestors := [];
    var current := typename;
    while current in parents
      invariant Rooted(parents, current)
      invariant Ancestors(parents, typename) == ancestors + Ancestors(parents, current)
      decreases Rank(ParentGraph(parents), current)
    {
      Upwards(parents, current);
      ancestors := ancestors + [parents[current]];
      current := parents[current];
    }
  }

  // ----- the hierarchy -----

  /** Beyond an ancestor come the ancestors of that ancestor. */
  lemma {:induction false} AncestorsBeyond(parents: Parents, t: string, i: nat)
    requires i < |Ancestors(parents, t)|
    ensures Ancestors(parents, t)[i + 1..] == Ancestors(parents, Ancestors(parents, t)[i])
    ensures Rank(ParentGraph(parents), Ancestors(parents, t)[i]) < Rank(ParentGraph(parents), t)
    decreases i
  {
    Upwards(parents, t);
    if i > 0 {
      AncestorsBeyond(parents, parents[t], i - 1);
    }
  }

  lemma AncestorsTransitive(parents: Parents, a: string, b: string, t: string)
    requires b in Ancestors(parents, t) && a in Ancestors(parents, b)
    ensures a in Ancestors(parents, t)
  {
    var i :| 0 <= i < |Ancestors(parents, t)| && Ancestors(parents, t)[i] == b;
    AncestorsBeyond(parents, t, i);
  }

  lemma NotOwnAncestor(parents: Parents, t: string)
    ensures t !in Ancestors(parents, t)
  {
    if i :| 0 <= i < |Ancestors(parents, t)| && Ancestors(parents, t)[i] == t {
      AncestorsBeyond(parents, t, i);
    }
  }

  // ----- the common parent -----

  /** A handle parameter: an element and its type. */
  datatype Handle = Handle(element: nat, typ: string)

  function WithoutRepeats(hs: seq<Handle>): (r: seq<Handle>)
    ensures forall h :: h in r <==> h in hs
    ensures |r| <= |hs|
  {
    if hs == [] then []
    else
      var earlier := WithoutRepeats(hs[..|hs| - 1]);
      var last := hs[|hs| - 1];
      if last in earlier then earlier else earlier + [last]
  }

  /** No ancestor of h is itself the type of one of the handles. */
  ghost predicate TopLevel(parents: Parents, hs: seq<Handle>, h: Handle)
  {
    forall g :: g in hs ==> g.typ !in Ancestors(parents, h.typ)
  }

  ghost function TopLevelHandles(parents: Parents, hs: seq<Handle>, from: seq<Handle>): (r: seq<Handle>)
    ensures |r| <= |from|
  {
    if from == [] then []
    else (if TopLevel(parents, hs, from[0]) then [from[0]] else []) + TopLevelHandles(parents, hs, from[1..])
  }

  lemma {:induction false} TopLevelHandlesAreTop(parents: Parents, hs: seq<Handle>, from: seq<Handle>)
    ensures forall h :: h in TopLevelHandles(parents, hs, from) <==> h in from && TopLevel(parents, hs, h)
  {
    if from != [] {
      TopLevelHandlesAreTop(parents, hs, from[1..]);
      assert from == [from[0]] + from[1..];
    }
  }

  lemma TopLevelStep(parents: Parents, hs: seq<Handle>, from: seq<Handle>, i: nat)
    requires i < |from|
    ensures TopLevelHandles(parents, hs, from[i..])
            == (if TopLevel(parents, hs, from[i]) then [from[i]] else []) + TopLevelHandles(parents, hs, from[i + 1..])
  {
    assert from[i..][1..] == from[i + 1..];
  }

  /** The elements of a that are in b, in the order of a. */
  function OrderedIntersection(a: seq<string>, b: seq<string>): (r: seq<string>)
    ensures forall x :: x in r <==> x in a && x in b
  {
    if a == [] then []
    else (if a[0] in b then [a[0]] else []) + OrderedIntersection(a[1..], b)
  }

  ghost function CommonAncestors(parents: Parents, acc: seq<string>, hs: seq<Handle>): (r: seq<string>)
    ensures forall x :: x in r <==> x in acc && forall h :: h in hs ==> x in Ancestors(parents, h.typ)
    decreases hs
  {
    if hs == [] then acc
    else CommonAncestors(parents, OrderedIntersection(acc, Ancestors(parents, hs[0].typ)), hs[1..])
  }

  /** c is a common ancestor of all handles, and every other one is an ancestor of c. */
  ghost predicate NearestCommonAncestor(parents: Parents, hs: seq<Handle>, c: string)
  {
    CommonAncestor(parents, hs, c) &&
    forall a :: CommonAncestor(parents, hs, a) ==> a == c || a in Ancestors(parents, c)
  }

  ghost predicate CommonAncestor(parents: Parents, hs: seq<Handle>, c: string)
  {
    forall h :: h in hs ==> c in Ancestors(parents, h.typ)
  }

  /** Every later element is an ancestor of every earlier one. */
  ghost predicate Rising(parents: Parents, s: seq<string>)
  {
    s == [] || ((forall x :: x in s[1..] ==> x in Ancestors(parents, s[0])) && Rising(parents, s[1..]))
  }

  lemma {:induction false} AncestorsRise(parents: Parents, t: string)
    ensures Rising(parents, Ancestors(parents, t))
    decreases Rank(ParentGraph(parents), t)
  {
    if Rooted(parents, t) && t in parents {
      Upwards(parents, t);
      AncestorsRise(parents, parents[t]);
    }
  }

  lemma {:induction false} IntersectionRises(parents: Parents, a: seq<string>, b: seq<string>)
    requires Rising(parents, a)
    ensures Rising(parents, OrderedIntersection(a, b))
  {
    if a != [] {
      IntersectionRises(parents, a[1..], b);
      var rest := OrderedIntersection(a[1..], b);
      if a[0] in b {
        assert OrderedIntersection(a, b)[1..] == rest;
      } else {
        assert OrderedIntersection(a, b) == rest;
      }
    }
  }

  lemma {:induction false} CommonRises(parents: Parents, acc: seq<string>, hs: seq<Handle>)
    requires Rising(parents, acc)
    ensures Rising(parents, CommonAncestors(parents, acc, hs))
    decreases hs
  {
    if hs != [] {
      IntersectionRises(parents, acc, Ancestors(parents, hs[0].typ));
      CommonRises(parents, OrderedIntersection(acc, Ancestors(parents, hs[0].typ)), hs[1..]);
    }
  }

  /** From every handle one gets up to a top-level handle, within the given ones. */
  lemma {:induction false} TopLevelAbove(parents: Parents, hs: seq<Handle>, h: Handle) returns (top: Handle)
    requires h in hs
    ensures top in hs && TopLevel(parents, hs, top)
    ensures top == h || top.typ in Ancestors(parents, h.typ)
    decreases Rank(ParentGraph(parents), h.typ)
  {
    if TopLevel(parents, hs, h) {
      top := h;
    } else {
      var g :| g in hs && g.typ in Ancestors(parents, h.typ);
      var i :| 0 <= i < |Ancestors(parents, h.typ)| && Ancestors(parents, h.typ)[i] == g.typ;
      AncestorsBeyond(parents, h.typ, i);
      top := TopLevelAbove(parents, hs, g);
      if top != g {
        AncestorsTransitive(parents, top.typ, g.typ, h.typ);
      }
    }
  }

  /** A type above all top-level handles is above all handles. */
  lemma TopLevelDecide(parents: Parents, hs: seq<Handle>, tops: seq<Handle>, c: string)
    requires forall h :: h in tops <==> h in hs && TopLevel(parents, hs, h)
    ensures CommonAncestor(parents, tops, c) <==> CommonAncestor(parents, hs, c)
  {
    if CommonAncestor(parents, tops, c) {
      forall h | h in hs
        ensures c in Ancestors(parents, h.typ)
      {
        var top := TopLevelAbove(parents, hs, h);
        if top != h {
          AncestorsTransitive(parents, c, top.typ, h.typ);
        }
      }
    }
  }

  /** The top-level handles of a list of parameters, each once, in order. */
  ghost function Tops(parents: Parents, hs: seq<Handle>): seq<Handle>
  {
    TopLevelHandles(parents, hs, WithoutRepeats(hs))
  }

  ghost predicate AllDifferent(hs: seq<Handle>) {
    forall i, j :: 0 <= i < j < |hs| ==> hs[i] != hs[j]
  }

  lemma {:induction false} RepeatsDropped(hs: seq<Handle>)
    ensures AllDifferent(WithoutRepeats(hs))
  {
    if hs != [] {
      RepeatsDropped(hs[..|hs| - 1]);
    }
  }

  lemma DifferentFirst(h: Handle, hs: seq<Handle>)
    ensures AllDifferent([h] + hs) <==> AllDifferent(hs) && h !in hs
  {
    var all := [h] + hs;
    assert forall i :: 0 <= i < |hs| ==> all[i + 1] == hs[i];
    if AllDifferent(all) {
      assert all[0] == h;
    }
  }

  lemma {:induction false} TopsDiffer(parents: Parents, hs: seq<Handle>, from: seq<Handle>)
    requires AllDifferent(from)
    ensures AllDifferent(TopLevelHandles(parents, hs, from))
  {
    if from != [] {
      var rest := TopLevelHandles(parents, hs, from[1..]);
      assert from == [from[0]] + from[1..];
      DifferentFirst(from[0], from[1..]);
      TopsDiffer(parents, hs, from[1..]);
      TopLevelHandlesAreTop(parents, hs, from[1..]);
      DifferentFirst(from[0], rest);
      assert [] + rest == rest;
    }
  }

  /** The top-level handles are those of which no ancestor is supplied, each once; so there are fewer than
      two exactly if no two different handles are top-level. */
  lemma TopsAre(parents: Parents, hs: seq<Handle>)
    ensures var tops := Tops(parents, hs);
            && (forall h :: h in tops <==> h in hs && forall g :: g in hs ==> g.typ !in Ancestors(parents, h.typ))
            && AllDifferent(tops)
            && (|tops| < 2 <==> forall g, h :: g in tops && h in tops ==> g == h)
  {
    TopLevelHandlesAreTop(parents, hs, WithoutRepeats(hs));
    RepeatsDropped(hs);
    TopsDiffer(parents, hs, WithoutRepeats(hs));
    FewDiffer(Tops(parents, hs));
    hide Ancestors, TopLevelHandles, WithoutRepeats, AllDifferent;
  }

  lemma FewDiffer(tops: seq<Handle>)
    requires AllDifferent(tops)
    ensures |tops| < 2 <==> forall g, h :: g in tops && h in tops ==> g == h
  {
    if |tops| >= 2 {
      assert tops[0] in tops && tops[1] in tops && tops[0] != tops[1];
    }
  }

  /** The intersection of the ancestor chains of the top-level handles. */
  ghost function CommonOfTops(parents: Parents, hs: seq<Handle>): seq<string>
    requires Tops(parents, hs) != []
  {
    var tops := Tops(parents, hs);
    CommonAncestors(parents, Ancestors(parents, tops[0].typ), tops[1..])
  }

  lemma CommonOfTopsIsCommon(parents: Parents, hs: seq<Handle>, c: string)
    requires Tops(parents, hs) != []
    ensures c in CommonOfTops(parents, hs) <==> CommonAncestor(parents, hs, c)
  {
    var tops := Tops(parents, hs);
    assert tops == [tops[0]] + tops[1..];
    TopLevelHandlesAreTop(parents, hs, WithoutRepeats(hs));
    TopLevelDecide(parents, hs, tops, c);
  }

  /** The first common ancestor found is the nearest; if none is found there is none. */
  lemma FirstCommonIsNearest(parents: Parents, hs: seq<Handle>)
    requires Tops(parents, hs) != []
    ensures var common := CommonOfTops(parents, hs);
            if common == [] then forall c :: !CommonAncestor(parents, hs, c)
            else NearestCommonAncestor(parents, hs, common[0])
  {
    var common := CommonOfTops(parents, hs);
    var tops := Tops(parents, hs);
    AncestorsRise(parents, tops[0].typ);
    CommonRises(parents, Ancestors(parents, tops[0].typ), tops[1..]);
    forall c
      ensures c in common <==> CommonAncestor(parents, hs, c)
    {
      CommonOfTopsIsCommon(parents, hs, c);
    }
    if common != [] {
      HeadIsNearest(parents, hs, common);
    }
  }

  lemma HeadIsNearest(parents: Parents, hs: seq<Handle>, common: seq<string>)
    requires common != [] && Rising(parents, common)
    requires forall c :: c in common <==> CommonAncestor(parents, hs, c)
    ensures NearestCommonAncestor(parents, hs, common[0])
  {
    assert common == [common[0]] + common[1..];
    assert common[0] in common;
  }

  /** There is at most one nearest common ancestor. */
  lemma NearestIsUnique(parents: Parents, hs: seq<Handle>, c: string, d: string)
    requires NearestCommonAncestor(parents, hs, c) && NearestCommonAncestor(parents, hs, d)
    ensures c == d
  {
    if c != d {
      AncestorsTransitive(parents, c, d, c);
      NotOwnAncestor(parents, c);
    }
  }

  ghost predicate AllRooted(parents: Parents, hs: seq<Handle>) {
    forall h :: h in hs ==> Rooted(parents, h.typ)
  }

  /** getUnnamedCommonParentOfParams: the nearest common ancestor of all handles, those below others
      included, as soon as at least two of them are not below others. */
  method UnnamedCommonParent(parents: Parents, handles: seq<Handle>) returns (r: Option<string>)
    requires |handles| >= 2 ==> AllRooted(parents, handles)
    ensures r.Some? ==> NearestCommonAncestor(parents, handles, r.value)
    ensures r.None? <==> |Tops(parents, handles)| < 2 || forall c :: !CommonAncestor(parents, handles, c)
  {
    hide Ancestors, Rooted, TopLevel, TopLevelHandles, WithoutRepeats, CommonAncestor;
    if |handles| < 2 {
      FewTops(parents, handles);
      return None;
    }
    var tops := SelectTops(parents, handles);
    TopLevelHandlesAreTop(parents, handles, WithoutRepeats(handles));
    assert forall h :: h in tops ==> Rooted(parents, h.typ);
    if |tops| <= 1 {
      return None;
    }
    var common := HandleAncestors(parents, tops[0].typ);
    for i := 1 to |tops|
      invariant CommonOfTops(parents, handles) == CommonAncestors(parents, common, tops[i..])
    {
      var ancestors := HandleAncestors(parents, tops[i].typ);
      common := OrderedIntersection(common, ancestors);
    }
    FirstCommonIsNearest(parents, handles);
    if common == [] {
      return None;
    }
    assert CommonAncestor(parents, handles, common[0]);
    return Some(common[0]);
  }

  /** Keep the handles none of whose ancestors is also supplied. */
  method SelectTops(parents: Parents, handles: seq<Handle>) returns (tops: seq<Handle>)
    requires AllRooted(parents, handles)
    ensures tops == Tops(parents, handles)
  {
    var keys := WithoutRepeats(handles);
    var types := set h | h in handles :: h.typ;
    tops := [];
    for i := 0 to |keys|
      invariant tops + TopLevelHandles(parents, handles, keys[i..]) == Tops(parents, handles)
    {
      var top := IsDisjointFromTypes(parents, handles, types, keys[i]);
      TopLevelStep(parents, handles, keys, i);
      Associative(tops, if top then [keys[i]] else [], TopLevelHandles(parents, handles, keys[i + 1..]));
      if top {
        tops := tops + [keys[i]];
      } else {
        assert tops + [] == tops;
      }
    }
    assert keys[|keys|..] == [] && tops + [] == tops;
  }

  /** _genericIsDisjoint, of the ancestors of a handle and the types of all handles. */
  method IsDisjointFromTypes(parents: Parents, handles: seq<Handle>, types: set<string>, h: Handle)
    returns (disjoint: bool)
    requires Rooted(parents, h.typ) && types == set g | g in handles :: g.typ
    ensures disjoint <==> TopLevel(parents, handles, h)
  {
    var ancestors := HandleAncestors(parents, h.typ);
    for i := 0 to |ancestors|
      invariant forall j :: 0 <= j < i ==> ancestors[j] !in types
    {
      if ancestors[i] in types {
        return false;
      }
    }
    assert forall g :: g in handles ==> g.typ in types;
    return true;
  }

  lemma FewTops(parents: Parents, hs: seq<Handle>)
    requires |hs| < 2
    ensures |Tops(parents, hs)| < 2
  {
    assert |WithoutRepeats(hs)| < 2;
  }

  // ----- the parent among the parameters -----

  /** The parents that the walk passes over, because no parameter has their type. */
  ghost function Unsupplied(parents: Parents, types: set<string>): Parents {
    map t | t in parents && parents[t] !in types :: parents[t]
  }

  /** The ancestor walk of makeHandleValidityParent: past the ancestors that no parameter has, up to the
      first that one has. It comes to an end if it meets no cycle before that. */
  method ParentAmongParams(parents: Parents, paramtype: string, types: set<string>) returns (r: Option<string>)
    requires Rooted(Unsupplied(parents, types), paramtype)
    ensures var passed := [paramtype] + Ancestors(Unsupplied(parents, types), paramtype);
            var last := passed[|passed| - 1];
            r == if last in parents then Some(parents[last]) else None
    ensures r.Some? ==> r.value in types
    ensures forall a :: a in Ancestors(Unsupplied(parents, types), paramtype) ==> a !in types
  {
    ghost var passing := Unsupplied(parents, types);
    var current := paramtype;
    ghost var passed: seq<string> := [];
    while current in parents
      invariant Rooted(passing, current)
      invariant Ancestors(passing, paramtype) == passed + Ancestors(passing, current)
      invariant current == ([paramtype] + passed)[|passed|]
      invariant forall a :: a in passed ==> a !in types
      decreases Rank(ParentGraph(passing), current)
    {
      var handleparent := parents[current];
      if handleparent in types {
        assert passed + [] == passed;
        return Some(handleparent);
      }
      Upwards(passing, current);
      passed := passed + [handleparent];
      current := handleparent;
    }
    assert passed + [] == passed;
    return None;
  }
}
