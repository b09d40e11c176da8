/** Which extensions an extension needs (specification/scripts/extdependency.py): a graph of the names
    in `depends` expressions, and the nodes reachable in it. */
module ExtDependency {
  import opened Wrappers
  import opened Graphs
  import opened DependencySyntax
  import opened DependencyMeaning
  import opened Dependency

  /** A directed graph with in-place insertion. Every edge leads to a node. */
  class DiGraph {
    var nodes: Graph<string>

    ghost predicate Valid()
      reads this
    {
      forall n :: n in nodes ==> nodes[n] <= nodes.Keys
    }

    constructor ()
      ensures Valid() && nodes == map[]
    {
      nodes := map[];
    }

    method AddNode(node: string)
      requires Valid()
      modifies this
      ensures Valid()
      ensures nodes == if node in old(nodes) then old(nodes) else old(nodes)[node := {}]
    {
      if node !in nodes {
        nodes := nodes[node := {}];
      }
    }

    /** The edge is added; missing end points become nodes; nothing else changes. */
    method AddEdge(src: string, dest: string)
      requires Valid()
      modifies this
      ensures Valid()
      ensures Extends(old(nodes), nodes, src, {dest}) && dest in nodes
    {
      AddNode(src);
      AddNode(dest);
      nodes := nodes[src := nodes[src] + {dest}];
    }

    /** The nodes reachable from a node, each once and without the node itself, even on cycles. The
        order is arbitrary, as the iteration order of the adjacency sets is. */
    method Descendants(node: string) returns (found: seq<string>)
      requires Valid() && node in nodes
      ensures Elements(found) == Reach(nodes, {node}) - {node}
      ensures Distinct(found)
    {
      found := [];
      var seen := {node};
      var visitMe: seq<string> := [];
      NodeReached(nodes, node);
      SuccessorsReached(nodes, node, node);
      seen, visitMe := Visit(nodes[node], seen, visitMe, found);
      while visitMe != []
        invariant seen == {node} + Elements(found) + Elements(visitMe)
        invariant seen <= Reach(nodes, {node})
        invariant forall x, y :: x in nodes && (x == node || x in found) && y in nodes[x] ==> y in seen
        invariant node !in found + visitMe && Distinct(found + visitMe)
        decreases Reach(nodes, {node}) - Elements(found)
      {
        var x := visitMe[|visitMe| - 1];
        assert found + visitMe == found + visitMe[..|visitMe| - 1] + [x];
        assert x in visitMe && x in seen;
        visitMe := visitMe[..|visitMe| - 1];
        MoveLast(found, visitMe, x);
        SuccessorsReached(nodes, node, x);
        found := found + [x];
        seen, visitMe := Visit(nodes[x], seen, visitMe, found);
      }
      assert found + visitMe == found;
      assert forall x, y :: x in seen && Edge(nodes, x, y) ==> y in nodes[x];
      ReachLeast(nodes, {node}, seen);
    }
  }

  /** after is before with more edges out of src. */
  ghost predicate Extends(before: Graph<string>, after: Graph<string>, src: string, more: set<string>) {
    && before.Keys <= after.Keys
    && src in after
    && forall n :: n in after ==>
         after[n] == (if n in before then before[n] else {}) + (if n == src then more else {})
  }

  lemma ExtendsMore(g: Graph<string>, h: Graph<string>, k: Graph<string>, src: string, a: set<string>, b: set<string>)
    requires Extends(g, h, src, a) && Extends(h, k, src, b)
    ensures Extends(g, k, src, a + b)
  {
  }

  ghost predicate Distinct<T>(s: seq<T>) {
    forall i, j :: 0 <= i < j < |s| ==> s[i] != s[j]
  }

  lemma MoveLast(found: seq<string>, visitMe: seq<string>, x: string)
    requires Distinct(found + visitMe + [x])
    ensures Distinct(found + [x] + visitMe)
    ensures x !in found && Elements(found + [x]) == Elements(found) + {x}
    ensures Elements(visitMe + [x]) == Elements(visitMe) + {x}
  {
    var s, t := found + visitMe + [x], found + [x] + visitMe;
    var n := |found|;
    assert s[|s| - 1] == x && forall i :: 0 <= i < n ==> s[i] == found[i];
    assert forall i :: 0 <= i < |t| ==> t[i] == s[if i < n then i else if i == n then |s| - 1 else i - 1];
  }

  lemma NodeReached(g: Graph<string>, node: string)
    requires node in g
    ensures node in Reach(g, {node})
  {
    ReachUnfold(g, node);
  }

  lemma SuccessorsReached(g: Graph<string>, node: string, x: string)
    requires x in g && x in Reach(g, {node}) && g[x] <= g.Keys
    ensures g[x] <= Reach(g, {node})
  {
    forall y | y in g[x]
      ensures y in Reach(g, {node})
    {
      ReachStep(g, {node}, x, y);
    }
  }

  /** Put the unseen neighbours of a node on the list of nodes to visit. */
  method Visit(adj: set<string>, seen: set<string>, visitMe: seq<string>, ghost found: seq<string>)
    returns (seen': set<string>, visitMe': seq<string>)
    requires Distinct(found + visitMe) && Elements(found) + Elements(visitMe) <= seen
    ensures seen' == seen + adj
    ensures Elements(visitMe') == Elements(visitMe) + (adj - seen)
    ensures Distinct(found + visitMe')
  {
    seen', visitMe' := seen, visitMe;
    var todo := adj;
    while todo != {}
      invariant todo <= adj
      invariant seen' == seen + (adj - todo)
      invariant Elements(visitMe') == Elements(visitMe) + (adj - todo - seen)
      invariant Distinct(found + visitMe')
    {
      var y :| y in todo;
      todo := todo - {y};
      if y !in seen' {
        assert y !in found && y !in visitMe';
        assert found + (visitMe' + [y]) == found + visitMe' + [y];
        assert Elements(visitMe' + [y]) == Elements(visitMe') + {y};
        seen' := seen' + {y};
        visitMe' := visitMe' + [y];
      }
    }
  }

  // ----- the dependencies of a registry -----

  /** A <feature> or <extension>; supported says whether it is for the API being generated. */
  datatype Element = Element(name: string, supported: bool, depends: Option<string>)

  type VersionTest = string -> bool

  /** An empty attribute counts as none. */
  predicate HasDepends(e: Element) {
    e.depends.Some? && e.depends.value != ""
  }

  /** The names that the depends attribute leads to; version names only count for features. */
  ghost function Leads(e: Element): set<string> {
    if e.supported && e.depends.Some? && Parse(e.depends.value).Some?
    then NamesOf(Parse(e.depends.value).value) else {}
  }

  ghost function Needs(features: seq<Element>, exts: seq<Element>, isVersion: VersionTest, n: string): set<string> {
    (set f, d | f in features && f.name == n && d in Leads(f) :: d)
    + (set x, d | x in exts && x.name == n && d in Leads(x) && !isVersion(d) :: d)
  }

  ghost function Kept(names: set<string>, keepVersions: bool, isVersion: VersionTest): set<string> {
    set d | d in names && (keepVersions || !isVersion(d))
  }

  ghost function SupportedNames(es: seq<Element>): set<string> {
    set e | e in es && e.supported :: e.name
  }

  /** Every supported element can be read. */
  ghost predicate Readable(es: seq<Element>) {
    forall e :: e in es && e.supported && HasDepends(e) ==>
      Parse(e.depends.value).Some? && WellNamed(Parse(e.depends.value).value)
  }

  ghost predicate IsDependencyGraph(
    g: Graph<string>, features: seq<Element>, exts: seq<Element>, isVersion: VersionTest)
  {
    && SupportedNames(features) + SupportedNames(exts) <= g.Keys
    && forall n :: n in g ==> g[n] == Needs(features, exts, isVersion, n) && g[n] <= g.Keys
  }

  class ApiDependencies {
    var allExts: set<string>
    var versions: set<string>
    const graph: DiGraph

    constructor ()
      ensures allExts == {} && versions == {} && graph.nodes == map[] && graph.Valid()
      ensures fresh(graph)
    {
      allExts, versions := {}, {};
      graph := new DiGraph();
    }

    /** Enter one element and edges to the names it depends on. */
    method Enter(e: Element, keepVersions: bool, isVersion: VersionTest) returns (ok: bool)
      requires graph.Valid()
      modifies graph
      ensures ok <==> Readable([e])
      ensures ok && !e.supported ==> graph.nodes == old(graph.nodes)
      ensures ok ==> graph.Valid()
      ensures ok && e.supported ==>
        Extends(old(graph.nodes), graph.nodes, e.name, Kept(Leads(e), keepVersions, isVersion))
    {
      var names := ReadNames(e);
      if names.Err? {
        return false;
      }
      if e.supported {
        graph.AddNode(e.name);
        AddEdges(e.name, names.value, keepVersions, isVersion);
      }
      return true;
    }

    /** Read a registry. It fails only if a supported element's depends attribute cannot be read. */
    method Load(features: seq<Element>, exts: seq<Element>, isVersion: VersionTest) returns (ok: bool)
      requires graph.Valid() && graph.nodes == map[] && allExts == {} && versions == {}
      modifies this, graph
      ensures ok <==> Readable(features) && Readable(exts)
      ensures ok ==> graph.Valid() && IsDependencyGraph(graph.nodes, features, exts, isVersion)
      ensures ok ==> allExts == SupportedNames(exts) && versions == SupportedNames(features)
    {
      for i := 0 to |features|
        invariant graph.Valid() && Readable(features[..i])
        invariant IsDependencyGraph(graph.nodes, features[..i], [], isVersion)
        invariant versions == SupportedNames(features[..i]) && allExts == {}
      {
        ReadableNext(features, i);
        ghost var before := graph.nodes;
        ok := Enter(features[i], true, isVersion);
        if !ok {
          return;
        }
        FeatureEntered(before, graph.nodes, features, i, isVersion);
        if features[i].supported {
          versions := versions + {features[i].name};
        }
      }
      assert features[..|features|] == features;
      for i := 0 to |exts|
        invariant graph.Valid() && Readable(exts[..i])
        invariant IsDependencyGraph(graph.nodes, features, exts[..i], isVersion)
        invariant versions == SupportedNames(features) && allExts == SupportedNames(exts[..i])
      {
        ReadableNext(exts, i);
        ghost var before := graph.nodes;
        ok := Enter(exts[i], false, isVersion);
        if !ok {
          return;
        }
        ExtensionEntered(before, graph.nodes, features, exts, i, isVersion);
        if exts[i].supported {
          allExts := allExts + {exts[i].name};
        }
      }
      assert exts[..|exts|] == exts;
      return true;
    }

    /** The dependencies of an extension; an extension that is not in the graph is an error. */
    method Children(extension: string) returns (r: Option<set<string>>)
      requires graph.Valid() && allExts <= graph.nodes.Keys
      ensures r == if extension in allExts then Some(Reach(graph.nodes, {extension}) - {extension}) else None
    {
      if extension !in allExts {
        return None;
      }
      var found := graph.Descendants(extension);
      return Some(set d | d in found);
    }

    method AddEdges(name: string, names: set<string>, keepVersions: bool, isVersion: VersionTest)
      requires graph.Valid() && name in graph.nodes
      modifies graph
      ensures graph.Valid()
      ensures Extends(old(graph.nodes), graph.nodes, name, Kept(names, keepVersions, isVersion))
    {
      var todo := names;
      while todo != {}
        invariant todo <= names && graph.Valid()
        invariant Extends(old(graph.nodes), graph.nodes, name, Kept(names - todo, keepVersions, isVersion))
      {
        var dep :| dep in todo;
        ghost var sofar := Kept(names - todo, keepVersions, isVersion);
        todo := todo - {dep};
        if keepVersions || !isVersion(dep) {
          ghost var between := graph.nodes;
          graph.AddEdge(name, dep);
          ExtendsMore(old(graph.nodes), between, graph.nodes, name, sofar, {dep});
          assert Kept(names - todo, keepVersions, isVersion) == sofar + {dep};
        } else {
          assert Kept(names - todo, keepVersions, isVersion) == sofar;
        }
      }
    }
  }

  /** The names in the depends attribute of a supported element, if there is one. */
  method ReadNames(e: Element) returns (names: Result<set<string>, Error>)
    ensures names.Ok? <==> Readable([e])
    ensures names.Ok? ==> names.value == Leads(e)
  {
    assert e in [e];
    if !e.supported || !HasDepends(e) {
      return Ok({});
    }
    names := DependencyNames(e.depends.value);
  }

  lemma ReadableNext(es: seq<Element>, i: nat)
    requires i < |es|
    ensures Readable(es[..i + 1]) <==> Readable(es[..i]) && Readable([es[i]])
    ensures Readable(es) ==> Readable([es[i]])
    ensures SupportedNames(es[..i + 1]) == SupportedNames(es[..i]) + if es[i].supported then {es[i].name} else {}
  {
    assert es[..i + 1] == es[..i] + [es[i]];
  }

  lemma NeedsNextFeature(features: seq<Element>, i: nat, isVersion: VersionTest, n: string)
    requires i < |features|
    ensures Needs(features[..i + 1], [], isVersion, n)
            == Needs(features[..i], [], isVersion, n)
               + if n == features[i].name then Kept(Leads(features[i]), true, isVersion) else {}
  {
    assert features[..i + 1] == features[..i] + [features[i]];
  }

  lemma NeedsNextExtension(
    features: seq<Element>, exts: seq<Element>, i: nat, isVersion: VersionTest, n: string)
    requires i < |exts|
    ensures Needs(features, exts[..i + 1], isVersion, n)
            == Needs(features, exts[..i], isVersion, n)
               + if n == exts[i].name then Kept(Leads(exts[i]), false, isVersion) else {}
  {
    assert exts[..i + 1] == exts[..i] + [exts[i]];
  }

  lemma FeatureEntered(
    g: Graph<string>, h: Graph<string>, features: seq<Element>, i: nat, isVersion: VersionTest)
    requires i < |features| && IsDependencyGraph(g, features[..i], [], isVersion)
    requires forall n :: n in h ==> h[n] <= h.Keys
    requires if features[i].supported
             then Extends(g, h, features[i].name, Kept(Leads(features[i]), true, isVersion)) else g == h
    ensures IsDependencyGraph(h, features[..i + 1], [], isVersion)
  {
    ReadableNext(features, i);
    hide Needs, Kept, Leads, Readable, SupportedNames;
    forall n | n in h
      ensures h[n] == Needs(features[..i + 1], [], isVersion, n)
    {
      NeedsNextFeature(features, i, isVersion, n);
      NoEdges(g, features[..i], [], isVersion, n);
    }
  }

  lemma ExtensionEntered(
    g: Graph<string>, h: Graph<string>, features: seq<Element>, exts: seq<Element>, i: nat, isVersion: VersionTest)
    requires i < |exts| && IsDependencyGraph(g, features, exts[..i], isVersion)
    requires forall n :: n in h ==> h[n] <= h.Keys
    requires if exts[i].supported
             then Extends(g, h, exts[i].name, Kept(Leads(exts[i]), false, isVersion)) else g == h
    ensures IsDependencyGraph(h, features, exts[..i + 1], isVersion)
  {
    ReadableNext(exts, i);
    hide Needs, Kept, Leads, Readable, SupportedNames;
    forall n | n in h
      ensures h[n] == Needs(features, exts[..i + 1], isVersion, n)
    {
      NeedsNextExtension(features, exts, i, isVersion, n);
      NoEdges(g, features, exts[..i], isVersion, n);
    }
  }

  /** A name without a node leads nowhere. */
  lemma NoEdges(g: Graph<string>, features: seq<Element>, exts: seq<Element>, isVersion: VersionTest, n: string)
    requires IsDependencyGraph(g, features, exts, isVersion)
    ensures n !in g ==> Needs(features, exts, isVersion, n) == {}
  {
    assert forall f :: f in features && Leads(f) != {} ==> f.name in SupportedNames(features);
    assert forall x :: x in exts && Leads(x) != {} ==> x.name in SupportedNames(exts);
  }

  // ----- the closure is sufficient, and least -----

  /** Extension x is usable when exactly the names in S, and all versions, are supported. */
  ghost predicate Usable(x: Element, S: set<string>, isVersion: VersionTest) {
    x.depends.Some? && Parse(x.depends.value).Some? ==>
      Value(Parse(x.depends.value).value, n => n in S || isVersion(n))
  }

  ghost predicate SelfSufficient(S: set<string>, exts: seq<Element>, isVersion: VersionTest) {
    forall x :: x in exts && x.supported && x.name in S ==> Usable(x, S, isVersion)
  }

  /** An extension together with its children needs nothing else. */
  lemma ChildrenSuffice(
    g: Graph<string>, features: seq<Element>, exts: seq<Element>, isVersion: VersionTest, ext: string)
    requires IsDependencyGraph(g, features, exts, isVersion) && ext in g
    ensures SelfSufficient(Reach(g, {ext}), exts, isVersion)
  {
    var S := Reach(g, {ext});
    forall x | x in exts && x.supported && x.name in S && x.depends.Some? && Parse(x.depends.value).Some?
      ensures Usable(x, S, isVersion)
    {
      var e := Parse(x.depends.value).value;
      forall n | n in NamesOf(e) && !isVersion(n)
        ensures n in S
      {
        assert n in Leads(x) && n in Needs(features, exts, isVersion, x.name);
        ReachStep(g, {ext}, x.name, n);
      }
      AllNamesSuffice(e, n => n in S || isVersion(n));
    }
  }

  ghost predicate NoAlternatives(exts: seq<Element>) {
    forall x :: x in exts && x.supported && x.depends.Some? && Parse(x.depends.value).Some? ==>
      !HasOr(Parse(x.depends.value).value)
  }

  /** If no expression offers alternatives, every self-sufficient set with the extension in it holds all
      its children. (Names of features are version names, and those of extensions are not.) */
  lemma ChildrenNeeded(
    g: Graph<string>, features: seq<Element>, exts: seq<Element>, isVersion: VersionTest, ext: string, T: set<string>)
    requires IsDependencyGraph(g, features, exts, isVersion) && ext in T
    requires NoAlternatives(exts) && SelfSufficient(T, exts, isVersion)
    requires !isVersion(ext) && forall f :: f in features && f.supported ==> isVersion(f.name)
    ensures Reach(g, {ext}) <= T
  {
    var U := set n | n in T && !isVersion(n);
    forall x, y | x in U && Edge(g, x, y)
      ensures y in U
    {
      assert y in Needs(features, exts, isVersion, x);
      assert forall f :: f in features && f.name == x ==> Leads(f) == {};
      var e :| e in exts && e.name == x && y in Leads(e) && !isVersion(y);
      assert Usable(e, T, isVersion);
      WithoutOrAllNeeded(Parse(e.depends.value).value, n => n in T || isVersion(n));
    }
    ReachLeast(g, {ext}, U);
  }
}
