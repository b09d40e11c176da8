/** What the passes of the registry come to, in terms of the attributes and tags of the elements alone
    (specification/scripts/reg.py). */
module RegistryMeaning {
  import opened Wrappers
  import opened Graphs
  import opened RegistryModel

  // ----- passes 1 and 2 -----

  /** An element's attribute or nested tag names d, and requiring the element requires d as well. */
  predicate Needs(e: Elem, o: GenOpts, k: Key, d: Key) {
    match k
    case Ty(_) =>
      (match d
       case Ty(n) => n in e.subtypes || (n != "" && Some(n) in {e.requiresAttr, e.alias, e.bitvalues})
       case En(n) => n in e.subenums
       case Cm(_) => false)
    case En(_) => d.En? && d.name != "" && e.alias == Some(d.name)
    case Cm(_) =>
      (match d
       case Ty(n) => n in e.subtypes
       case En(_) => false
       case Cm(n) => o.requireCommandAliases && n != "" && e.alias == Some(n))
  }

  /** Removing the element removes d as well: aliases only, and nothing with a type. */
  predicate TakesAlong(e: Elem, o: GenOpts, k: Key, d: Key) {
    && !k.Ty? && d.name != "" && e.alias == Some(d.name)
    && (if k.En? then d.En? else d.Cm? && o.requireCommandAliases)
  }

  predicate Follows(e: Elem, o: GenOpts, removing: bool, k: Key, d: Key) {
    if removing then TakesAlong(e, o, k, d) else Needs(e, o, k, d)
  }

  /** The tag refers to k. */
  predicate RefersTo(b: Block, k: Key) {
    match k
    case Ty(n) => exists r :: r in b.types && r.name == n
    case En(n) => exists r :: r in b.enums && r.name == n
    case Cm(n) => exists r :: r in b.commands && r.name == n
  }

  /** A tag that matches the API and profile refers to k: a <remove> or a <require>. */
  ghost predicate Asked(fs: seq<Feature>, removing: bool, k: Key) {
    exists f, b :: f in fs && b in (if removing then f.removeTags else f.requireTags) && b.matches && RefersTo(b, k)
  }

  /** S has all defined items that the tags refer to, and all defined items that follow from those in S. */
  ghost predicate Complete(cat: Catalog, o: GenOpts, fs: seq<Feature>, removing: bool, S: set<Key>) {
    && (forall k :: k in cat && Asked(fs, removing, k) ==> k in S)
    && (forall k, d :: k in S && k in cat && d in cat && Follows(cat[k], o, removing, k, d) ==> d in S)
  }

  ghost predicate IsLeastComplete(cat: Catalog, o: GenOpts, fs: seq<Feature>, removing: bool, S: set<Key>) {
    S <= cat.Keys && Complete(cat, o, fs, removing, S) && forall T :: Complete(cat, o, fs, removing, T) ==> S <= T
  }

  /** What the graphs of the two passes lead to. */
  lemma MarkEdges(cat: Catalog, o: GenOpts, k: Key, d: Key)
    requires k in cat && d != k
    ensures d in MarkGraph(cat, o)[k] <==> Needs(cat[k], o, k, d)
    ensures d in UnmarkGraph(cat, o)[k] <==> TakesAlong(cat[k], o, k, d)
  {
    CallsNeed(cat[k], o, k, d);
    hide MarkCalls, UnmarkCalls, Needs, TakesAlong;
  }

  lemma CallsNeed(e: Elem, o: GenOpts, k: Key, d: Key)
    ensures d != k ==> (d in MarkCalls(e, o, k) <==> Needs(e, o, k, d))
    ensures d in UnmarkCalls(e, o, k) <==> TakesAlong(e, o, k, d)
  {
    NamesOne(e.requiresAttr, d.name);
    NamesOne(e.alias, d.name);
    NamesOne(e.bitvalues, d.name);
    hide Names, TypeCalls, EnumCalls, CommandCalls, Without;
    var some := Names(e.requiresAttr) + Names(e.alias) + e.subtypes;
    assert d.name in some <==> d.name in Names(e.requiresAttr) || d.name in Names(e.alias) || d.name in e.subtypes;
  }

  lemma NamesOne(attribute: Option<string>, n: string)
    ensures n in Names(attribute) <==> n != "" && attribute == Some(n)
  {
  }

  lemma RootsAsked(fs: seq<Feature>, k: Key)
    ensures k in RequireRoots(fs) <==> Asked(fs, false, k)
    ensures k in RemoveRoots(fs) <==> Asked(fs, true, k)
  {
    forall b: Block
      ensures k in BlockCalls(b) <==> RefersTo(b, k)
    {
      CallsRefer(b, k);
    }
    hide BlockCalls, RefersTo;
    if Asked(fs, false, k) {
      var f, b :| f in fs && b in f.requireTags && b.matches && RefersTo(b, k);
      assert k in TagKeys(b) && k in MatchingKeys(f.requireTags);
    }
    if Asked(fs, true, k) {
      var f, b :| f in fs && b in f.removeTags && b.matches && RefersTo(b, k);
      assert k in TagKeys(b) && k in MatchingKeys(f.removeTags);
    }
  }

  lemma CallsRefer(b: Block, k: Key)
    ensures k in BlockCalls(b) <==> RefersTo(b, k)
  {
    var types, enums, commands := RefNames(b.types), EnumNames(b.enums), RefNames(b.commands);
    assert forall i :: 0 <= i < |types| ==> types[i] == b.types[i].name;
    assert forall r :: r in b.types ==> r.name in types by {
      assert forall i :: 0 <= i < |b.types| ==> b.types[i].name == types[i];
    }
    assert forall r :: r in b.enums ==> r.name in enums by {
      assert forall i :: 0 <= i < |b.enums| ==> b.enums[i].name == enums[i];
    }
    assert forall r :: r in b.commands ==> r.name in commands by {
      assert forall i :: 0 <= i < |b.commands| ==> b.commands[i].name == commands[i];
    }
  }

  lemma ReachIsLeastComplete(cat: Catalog, o: GenOpts, fs: seq<Feature>, removing: bool)
    ensures IsLeastComplete(cat, o, fs, removing,
                            if removing then Reach(UnmarkGraph(cat, o), RemoveRoots(fs))
                            else Reach(MarkGraph(cat, o), RequireRoots(fs)))
  {
    var g := if removing then UnmarkGraph(cat, o) else MarkGraph(cat, o);
    var roots := if removing then RemoveRoots(fs) else RequireRoots(fs);
    forall k
      ensures k in roots <==> Asked(fs, removing, k)
    {
      RootsAsked(fs, k);
    }
    forall k, d | k in cat && d in cat && d != k
      ensures Edge(g, k, d) <==> Follows(cat[k], o, removing, k, d)
    {
      MarkEdges(cat, o, k, d);
    }
    LeastClosedIsComplete(cat, o, fs, removing, g, roots, Reach(g, roots));
  }

  lemma LeastClosedIsComplete(
    cat: Catalog, o: GenOpts, fs: seq<Feature>, removing: bool, g: Graph<Key>, roots: set<Key>, S: set<Key>)
    requires g.Keys == cat.Keys && IsLeastClosed(g, roots, S)
    requires forall k :: k in roots <==> Asked(fs, removing, k)
    requires forall k, d :: k in cat && d in cat && d != k ==> (Edge(g, k, d) <==> Follows(cat[k], o, removing, k, d))
    ensures IsLeastComplete(cat, o, fs, removing, S)
  {
    hide Follows, Asked, Edge;
    forall k, d | k in S && k in cat && d in cat && Follows(cat[k], o, removing, k, d)
      ensures d in S
    {
      assert d != k ==> Edge(g, k, d);
    }
    forall T | Complete(cat, o, fs, removing, T)
      ensures S <= T
    {
      var U := T * cat.Keys;
      forall x, y | x in U && Edge(g, x, y)
        ensures y in U
      {
        EdgeInside(g, x, y);
        assert x != y ==> Follows(cat[x], o, removing, x, y);
      }
      assert ClosedFrom(g, roots, U);
    }
  }

  lemma EdgeInside(g: Graph<Key>, x: Key, y: Key)
    requires Edge(g, x, y)
    ensures x in g && y in g
  {
  }

  /** After passes 1 and 2 the required items are those of the least complete set of what the <require>
      tags ask for, less the least complete set of what the <remove> tags ask for. */
  lemma RequiredAre(cat: Catalog, o: GenOpts, fs: seq<Feature>) returns (required: set<Key>, removed: set<Key>)
    ensures RequiredAfterMarking(cat, o, fs) == required - removed
    ensures IsLeastComplete(cat, o, fs, false, required) && IsLeastComplete(cat, o, fs, true, removed)
  {
    required := Reach(MarkGraph(cat, o), RequireRoots(fs));
    removed := Reach(UnmarkGraph(cat, o), RemoveRoots(fs));
    ReachIsLeastComplete(cat, o, fs, false);
    ReachIsLeastComplete(cat, o, fs, true);
  }

  /** With nothing removed: what a required item names is required if it is defined, and every required
      item is asked for by a tag or named by another required item. */
  lemma RequiredWithNeeds(cat: Catalog, o: GenOpts, fs: seq<Feature>)
    requires forall k :: !Asked(fs, true, k)
    ensures var req := RequiredAfterMarking(cat, o, fs);
            && (forall k, d :: k in req && k in cat && d in cat && Needs(cat[k], o, k, d) ==> d in req)
            && (forall k :: k in req ==>
                  k in cat && (Asked(fs, false, k) || exists j :: j in req && j in cat && j != k && Needs(cat[j], o, j, k)))
            && (forall k :: k in cat && Asked(fs, false, k) ==> k in req)
  {
    var required, removed := RequiredAre(cat, o, fs);
    assert Complete(cat, o, fs, true, {});
    assert RequiredAfterMarking(cat, o, fs) == required;
    forall k | k in required
      ensures Asked(fs, false, k) || exists j :: j in required && j in cat && j != k && Needs(cat[j], o, j, k)
    {
      Supported(cat, o, fs, required, k);
    }
  }

  lemma Supported(cat: Catalog, o: GenOpts, fs: seq<Feature>, S: set<Key>, k: Key)
    requires IsLeastComplete(cat, o, fs, false, S) && k in S
    ensures Asked(fs, false, k) || exists j :: j in S && j in cat && j != k && Needs(cat[j], o, j, k)
  {
    hide Needs, Asked;
    var T := S - {k};
    assert k !in T && !(S <= T);
    assert !Complete(cat, o, fs, false, T);
  }

  // ----- pass 3 -----

  /** With dependencies asked for, d is generated before the element: its alias, what it requires, the enums
      in it, and if wanted the types in it. */
  predicate Before(e: Elem, o: GenOpts, k: Key, d: Key) {
    && o.requireDepends
    && match k
       case Ty(_) =>
         (match d
          case Ty(n) => (n != "" && Some(n) in {e.alias, e.requiresAttr}) || (o.emitRecursiveRequirements && n in e.subtypes)
          case En(n) => n in e.subenums
          case Cm(_) => false)
       case En(_) => d.En? && d.name != "" && e.alias == Some(d.name)
       case Cm(_) =>
         (match d
          case Ty(n) => o.emitRecursiveRequirements && n in e.subtypes
          case En(_) => false
          case Cm(n) => n != "" && e.alias == Some(n))
  }

  /** The bits of a bitmask are generated after it. An enumerated type stands for the group of its alias, or
      else of its own name. */
  predicate After(e: Elem, o: GenOpts, groups: Groups, k: Key, d: Key) {
    && o.requireDepends && k.Ty? && d.Ty? && d.name != ""
    && if e.category == Some("enum") then
         var g := if e.alias.Some? then e.alias.value else k.name;
         g in groups && groups[g].category == Some("bitmask") && groups[g].bitvalues == Some(d.name)
       else e.category == Some("bitmask") && e.bitvalues == Some(d.name)
  }

  /** A tag asks for k to be generated. An enum that extends a group is left to the group, unless it is to be
      defined again and the group is not required. */
  predicate AsksFor(b: Block, o: GenOpts, groups: Groups, k: Key) {
    match k
    case Ty(n) => exists r :: r in b.types && r.name == n
    case Cm(n) => exists r :: r in b.commands && r.name == n
    case En(n) => exists r :: r in b.enums && r.name == n && OnItsOwn(r, o, groups)
  }

  predicate OnItsOwn(r: EnumRef, o: GenOpts, groups: Groups) {
    || r.extendsGroup in {None, Some("")}
    || (o.redefineEnumExtends && r.extendsGroup.value in groups && !groups[r.extendsGroup.value].required)
  }

  ghost predicate Explicit(fs: seq<Feature>, o: GenOpts, groups: Groups, k: Key) {
    exists f, b :: f in fs && b in f.requireTags && AsksFor(b, o, groups, k)
  }

  predicate Generates(e: Elem, o: GenOpts, groups: Groups, k: Key, d: Key) {
    Before(e, o, k, d) || After(e, o, groups, k, d)
  }

  /** S has the required items that are asked for, and the required items that are generated with those in S. */
  ghost predicate Covers(cat: Catalog, o: GenOpts, groups: Groups, fs: seq<Feature>, req: set<Key>, S: set<Key>) {
    && (forall k :: k in req && Explicit(fs, o, groups, k) ==> k in S)
    && (forall k, d :: k in S && k in cat && k in req && d in req && Generates(cat[k], o, groups, k, d) ==> d in S)
  }

  /** Pass 3 declares the least such set. */
  lemma DeclaredAre(cat: Catalog, o: GenOpts, groups: Groups, fs: seq<Feature>, req: set<Key>)
    requires req <= cat.Keys
    ensures var declared := DeclaredByGenerating(cat, o, groups, fs, req);
            && declared <= req && Covers(cat, o, groups, fs, req, declared)
            && forall T :: Covers(cat, o, groups, fs, req, T) ==> declared <= T
  {
    var g, roots := GenerateGraph(cat, o, groups, req), ExplicitRoots(fs, o, groups);
    forall k
      ensures k in roots <==> Explicit(fs, o, groups, k)
    {
      ExplicitAsked(fs, o, groups, k);
    }
    forall k, d | k in req && d in req
      ensures Edge(g, k, d) <==> Generates(cat[k], o, groups, k, d)
    {
      GenerateEdges(cat[k], o, groups, k, d);
    }
    LeastClosedCovers(cat, o, groups, fs, req, g, roots, Reach(g, roots));
  }

  lemma LeastClosedCovers(
    cat: Catalog, o: GenOpts, groups: Groups, fs: seq<Feature>, req: set<Key>, g: Graph<Key>, roots: set<Key>, S: set<Key>)
    requires req <= cat.Keys && g.Keys == req && IsLeastClosed(g, roots, S)
    requires forall k :: k in roots <==> Explicit(fs, o, groups, k)
    requires forall k, d :: k in req && d in req ==> (Edge(g, k, d) <==> Generates(cat[k], o, groups, k, d))
    ensures S <= req && Covers(cat, o, groups, fs, req, S)
    ensures forall T :: Covers(cat, o, groups, fs, req, T) ==> S <= T
  {
    hide Generates, Explicit, Edge;
    forall k, d | k in S && k in cat && k in req && d in req && Generates(cat[k], o, groups, k, d)
      ensures d in S
    {
      assert Edge(g, k, d);
    }
    forall T | Covers(cat, o, groups, fs, req, T)
      ensures S <= T
    {
      var U := T * req;
      forall x, y | x in U && Edge(g, x, y)
        ensures y in U
      {
        EdgeInside(g, x, y);
        assert Generates(cat[x], o, groups, x, y);
      }
      assert ClosedFrom(g, roots, U);
    }
  }

  lemma GenerateEdges(e: Elem, o: GenOpts, groups: Groups, k: Key, d: Key)
    ensures d in Dependencies(e, o, k) <==> Before(e, o, k, d)
    ensures d in Followups(e, o, groups, k) <==> After(e, o, groups, k, d)
  {
    NamesOne(e.requiresAttr, d.name);
    NamesOne(e.alias, d.name);
    hide Names, TypeCalls, EnumCalls, CommandCalls;
  }

  lemma ExplicitAsked(fs: seq<Feature>, o: GenOpts, groups: Groups, k: Key)
    ensures k in ExplicitRoots(fs, o, groups) <==> Explicit(fs, o, groups, k)
  {
    forall b: Block
      ensures k in ExplicitCalls(b, o, groups) <==> AsksFor(b, o, groups, k)
    {
      CallsAsk(b, o, groups, k);
    }
    hide ExplicitCalls, AsksFor;
    if Explicit(fs, o, groups, k) {
      var f, b :| f in fs && b in f.requireTags && AsksFor(b, o, groups, k);
      assert k in TagRoots(f.requireTags, o, groups);
    }
  }

  lemma CallsAsk(b: Block, o: GenOpts, groups: Groups, k: Key)
    ensures k in ExplicitCalls(b, o, groups) <==> AsksFor(b, o, groups, k)
  {
    CallsRefer(b, k);
    Forced(b.enums, o, groups, k.name);
    hide TypeCalls, EnumCalls, CommandCalls, RefNames, EnumNames, ForcedEnums, OnItsOwn;
  }

  lemma {:induction false} Forced(enums: seq<EnumRef>, o: GenOpts, groups: Groups, n: string)
    ensures n in ForcedEnums(enums, o, groups) <==> exists r :: r in enums && r.name == n && OnItsOwn(r, o, groups)
  {
    if enums != [] {
      Forced(enums[1..], o, groups, n);
      assert enums == [enums[0]] + enums[1..];
    }
  }

  // ----- the feature dictionary -----

  /** The categories for which the feature dictionary has an entry. */
  predicate HasEntry(category: string) {
    || category == "enumconstant" || category == "command" || category == "enum" || category == "struct"
    || category == "handle" || category == "basetype" || category == "include" || category == "define"
    || category == "bitmask" || category == "union" || category == "funcpointer"
  }

  lemma Categories(e: Elem)
    ensures KnownCategory(e) <==> e.category.Some? && HasEntry(e.category.value)
  {
    if KnownCategory(e) {
      var i :| 0 <= i < |CATEGORIES| && CATEGORIES[i] == e.category.value;
      assert |CATEGORIES| == 11;
    }
    if e.category.Some? && HasEntry(e.category.value) {
      assert CATEGORIES[0] == "enumconstant" && CATEGORIES[1] == "command" && CATEGORIES[2] == "enum";
      assert CATEGORIES[3] == "struct" && CATEGORIES[4] == "handle" && CATEGORIES[5] == "basetype";
      assert CATEGORIES[6] == "include" && CATEGORIES[7] == "define" && CATEGORIES[8] == "bitmask";
      assert CATEGORIES[9] == "union" && CATEGORIES[10] == "funcpointer";
    }
  }

  /** Each name is that of a defined type and, but for the last one, of an alias of the next; the last one
      is no alias, and has an entry. */
  ghost predicate AliasChain(cat: Catalog, chain: seq<string>) {
    chain != [] && Ty(chain[0]) in cat &&
    var e := cat[Ty(chain[0])];
    if |chain| == 1 then e.alias in {None, Some("")} && e.category.Some? && HasEntry(e.category.value)
    else chain[1] != "" && e.alias == Some(chain[1]) && AliasChain(cat, chain[1..])
  }

  /** The resolution of an alias that comes to an end succeeds exactly if there is such a chain. */
  lemma {:induction false} ResolvesByChain(cat: Catalog, n: string)
    requires NoCycleFrom(AliasGraph(cat), {Ty(n)})
    ensures Resolves(cat, Ty(n)) <==> exists chain :: AliasChain(cat, chain) && chain[0] == n
    decreases Rank(AliasGraph(cat), Ty(n))
  {
    var k := Ty(n);
    if k in cat {
      var e := cat[k];
      ResolvesNext(cat, k);
      Categories(e);
      hide KnownCategory, HasEntry, Resolves;
      if Present(e.alias).Some? {
        NoCycleStep(AliasGraph(cat), k, Ty(e.alias.value));
        ResolvesByChain(cat, e.alias.value);
        ChainNext(cat, n);
      } else if Resolves(cat, k) {
        assert AliasChain(cat, [n]);
      }
    }
  }

  lemma ChainNext(cat: Catalog, n: string)
    requires Ty(n) in cat && Present(cat[Ty(n)].alias).Some?
    ensures (exists chain :: AliasChain(cat, chain) && chain[0] == n) <==>
            exists chain :: AliasChain(cat, chain) && chain[0] == cat[Ty(n)].alias.value
  {
    var a := cat[Ty(n)].alias.value;
    hide HasEntry;
    if chain :| AliasChain(cat, chain) && chain[0] == n {
      assert AliasChain(cat, chain[1..]) && chain[1..][0] == a;
    }
    if chain :| AliasChain(cat, chain) && chain[0] == a {
      assert ([n] + chain)[1..] == chain;
      assert AliasChain(cat, [n] + chain);
    }
  }

  /** A reference to a type is filed if the type is not defined, or its alias, that of the reference before
      that of the type, leads to a type with an entry, or if without alias it has one itself. */
  lemma FiledTypes(cat: Catalog, r: Ref)
    requires Ty(r.name) in cat ==> NoCycleFrom(AliasGraph(cat), AliasStart(cat, r))
    ensures TypeFills(cat, r) <==>
              Ty(r.name) in cat ==>
                var e := cat[Ty(r.name)];
                var first := if r.alias.Some? then r.alias else e.alias;
                if first in {None, Some("")} then e.category.Some? && HasEntry(e.category.value)
                else exists chain :: AliasChain(cat, chain) && chain[0] == first.value
  {
    if Ty(r.name) in cat {
      var e := cat[Ty(r.name)];
      var first := if r.alias.Some? then r.alias else e.alias;
      Categories(e);
      if first !in {None, Some("")} {
        ResolvesByChain(cat, first.value);
      }
      hide KnownCategory, HasEntry, Resolves;
    }
  }
}
