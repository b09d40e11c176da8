/** What the registry's dependency attributes mean: which features a <require> pulls in, which a
    <remove> takes out, and which declarations pass 3 generates (specification/scripts/reg.py). */
module RegistryModel {
  import opened Wrappers
  import opened Graphs

  /** A feature name in one of the three dictionaries: <type>, <enum> or <command>. */
  datatype Key = Ty(name: string) | En(name: string) | Cm(name: string)

  /** An XML element, reduced to what the passes read. An attribute that is absent is None.
      subtypes and subenums are the texts of the <type> and <enum> tags anywhere below it. */
  datatype Elem = Elem(
    alias: Option<string>, requiresAttr: Option<string>,
    subtypes: seq<string>, subenums: seq<string>,
    bitvalues: Option<string>, category: Option<string>)

  /** A <enums> group. */
  datatype Group = Group(category: Option<string>, bitvalues: Option<string>, required: bool)

  datatype GenOpts = GenOpts(
    apiname: string, requireDepends: bool, emitRecursiveRequirements: bool,
    requireCommandAliases: bool, redefineEnumExtends: bool)

  /** Reference to a type or command in a <require> or <remove> tag. */
  datatype Ref = Ref(name: string, alias: Option<string>)

  /** Reference to an enum. */
  datatype EnumRef = EnumRef(name: string, alias: Option<string>, extendsGroup: Option<string>)

  /** A <require> or <remove> tag; matches is the value of matchAPIProfile for it, and usages are the
      commands and structures that its <usage> tags name. */
  datatype Block = Block(matches: bool, types: seq<Ref>, enums: seq<EnumRef>, commands: seq<Ref>, usages: seq<Key>)

  /** A <feature> or <extension>; emit says whether its declarations are to be written out. */
  datatype Feature = Feature(requireTags: seq<Block>, removeTags: seq<Block>, emit: bool)

  /** The defined features, each with the element that lookupElementInfo selects for it. */
  type Catalog = map<Key, Elem>

  /** An empty attribute counts as none where the code tests it for truth. */
  function Present(o: Option<string>): Option<string> {
    if o == Some("") then None else o
  }

  function Names(o: Option<string>): seq<string> {
    match Present(o) case None => [] case Some(s) => [s]
  }

  function TypeCalls(names: seq<string>): (r: seq<Key>)
    ensures forall k :: k in r <==> k.Ty? && k.name in names
  {
    if names == [] then [] else [Ty(names[0])] + TypeCalls(names[1..])
  }

  function EnumCalls(names: seq<string>): (r: seq<Key>)
    ensures forall k :: k in r <==> k.En? && k.name in names
  {
    if names == [] then [] else [En(names[0])] + EnumCalls(names[1..])
  }

  function CommandCalls(names: seq<string>): (r: seq<Key>)
    ensures forall k :: k in r <==> k.Cm? && k.name in names
  {
    if names == [] then [] else [Cm(names[0])] + CommandCalls(names[1..])
  }

  /** The calls without those to `self`. */
  function Without(calls: seq<Key>, self: Key): (r: seq<Key>)
    ensures forall k :: k in r <==> k in calls && k != self
  {
    if calls == [] then []
    else (if calls[0] == self then [] else [calls[0]]) + Without(calls[1..], self)
  }

  // ----- passes 1 and 2: marking -----

  /** The marking calls that requiring k makes, in order. A type's references to itself are not
      followed, except through `bitvalues`. */
  function MarkCalls(e: Elem, o: GenOpts, k: Key): seq<Key> {
    match k
    case Ty(_) =>
      Without(TypeCalls(Names(e.requiresAttr) + Names(e.alias) + e.subtypes), k)
      + EnumCalls(e.subenums) + TypeCalls(Names(e.bitvalues))
    case En(_) =>
      EnumCalls(Names(e.alias))
    case Cm(_) =>
      (if o.requireCommandAliases then CommandCalls(Names(e.alias)) else []) + TypeCalls(e.subtypes)
  }

  /** What removing k also removes, directly: a type takes nothing with it. */
  function UnmarkCalls(e: Elem, o: GenOpts, k: Key): seq<Key> {
    match k
    case Ty(_) => []
    case En(_) => EnumCalls(Names(e.alias))
    case Cm(_) => if o.requireCommandAliases then CommandCalls(Names(e.alias)) else []
  }

  ghost function MarkGraph(cat: Catalog, o: GenOpts): Graph<Key> {
    map k | k in cat :: Elements(MarkCalls(cat[k], o, k))
  }

  ghost function UnmarkGraph(cat: Catalog, o: GenOpts): Graph<Key> {
    map k | k in cat :: Elements(UnmarkCalls(cat[k], o, k))
  }

  function RefNames(refs: seq<Ref>): (r: seq<string>)
    ensures |r| == |refs| && forall i :: 0 <= i < |r| ==> r[i] == refs[i].name
  {
    if refs == [] then [] else [refs[0].name] + RefNames(refs[1..])
  }

  function EnumNames(enums: seq<EnumRef>): (r: seq<string>)
    ensures |r| == |enums| && forall i :: 0 <= i < |r| ==> r[i] == enums[i].name
  {
    if enums == [] then [] else [enums[0].name] + EnumNames(enums[1..])
  }

  /** The features a tag names, in the order markRequired visits them. */
  function BlockCalls(b: Block): seq<Key> {
    TypeCalls(RefNames(b.types)) + EnumCalls(EnumNames(b.enums)) + CommandCalls(RefNames(b.commands))
  }

  ghost function TagKeys(b: Block): set<Key> {
    if b.matches then Elements(BlockCalls(b)) else {}
  }

  /** The keys named in the tags that apply to the API and profile being generated. */
  ghost function MatchingKeys(bs: seq<Block>): set<Key> {
    set b, k | b in bs && k in TagKeys(b) :: k
  }

  ghost function RequireRoots(fs: seq<Feature>): set<Key> {
    set f, k | f in fs && k in MatchingKeys(f.requireTags) :: k
  }

  ghost function RemoveRoots(fs: seq<Feature>): set<Key> {
    set f, k | f in fs && k in MatchingKeys(f.removeTags) :: k
  }

  lemma MatchingKeysNext(bs: seq<Block>, i: nat)
    requires i < |bs|
    ensures MatchingKeys(bs[..i + 1]) == MatchingKeys(bs[..i]) + TagKeys(bs[i])
  {
    assert bs[..i + 1] == bs[..i] + [bs[i]];
  }

  lemma RootsNext(fs: seq<Feature>, i: nat)
    requires i < |fs|
    ensures RequireRoots(fs[..i + 1]) == RequireRoots(fs[..i]) + MatchingKeys(fs[i].requireTags)
    ensures RemoveRoots(fs[..i + 1]) == RemoveRoots(fs[..i]) + MatchingKeys(fs[i].removeTags)
  {
    assert fs[..i + 1] == fs[..i] + [fs[i]];
  }

  /** The required features once passes 1 and 2 are over, starting from none. */
  ghost function RequiredAfterMarking(cat: Catalog, o: GenOpts, fs: seq<Feature>): set<Key> {
    Reach(MarkGraph(cat, o), RequireRoots(fs)) - Reach(UnmarkGraph(cat, o), RemoveRoots(fs))
  }

  /** The order in which features are processed does not matter to passes 1 and 2. */
  lemma MarkingIgnoresOrder(cat: Catalog, o: GenOpts, fs: seq<Feature>, gs: seq<Feature>)
    requires multiset(fs) == multiset(gs)
    ensures RequiredAfterMarking(cat, o, fs) == RequiredAfterMarking(cat, o, gs)
  {
    assert forall f :: f in fs <==> f in multiset(fs);
    assert forall f :: f in gs <==> f in multiset(gs);
    assert RequireRoots(fs) == RequireRoots(gs);
    assert RemoveRoots(fs) == RemoveRoots(gs);
  }

  /** Removing leaves every type required that was reached and is not itself named in a <remove>. */
  lemma RequiredTypes(cat: Catalog, o: GenOpts, fs: seq<Feature>, n: string)
    ensures Ty(n) in RequiredAfterMarking(cat, o, fs) <==>
            Ty(n) in Reach(MarkGraph(cat, o), RequireRoots(fs)) && Ty(n) !in RemoveRoots(fs)
  {
    var g, roots := UnmarkGraph(cat, o), RemoveRoots(fs);
    // A set that holds the removed types that are named, and every enum and command.
    var T := set k | k in cat && (k.Ty? ==> k in roots);
    ReachLeast(g, roots, T);
  }

  // ----- what aborts passes 1 and 2 -----

  const CATEGORIES := [
    "enumconstant", "command", "enum", "struct", "handle", "basetype", "include", "define", "bitmask", "union",
    "funcpointer"]

  /** The feature dictionary has an entry for the category. */
  predicate KnownCategory(e: Elem) {
    e.category.Some? && e.category.value in CATEGORIES
  }

  /** What each type is an alias of. */
  ghost function AliasGraph(cat: Catalog): Graph<Key> {
    map k | k in cat && k.Ty? :: Elements(TypeCalls(Names(cat[k].alias)))
  }

  /** x is an alias of a type that is defined, or no alias and of a known category. */
  ghost predicate Settled(cat: Catalog, x: Key)
    requires x in cat
  {
    match Present(cat[x].alias)
    case None => KnownCategory(cat[x])
    case Some(a) => Ty(a) in cat
  }

  /** Following aliases from k leads to a type of a known category. */
  ghost predicate Resolves(cat: Catalog, k: Key) {
    k in cat && k.Ty? && forall x :: x in Reach(AliasGraph(cat), {k}) ==> Settled(cat, x)
  }

  /** The alias from which a reference to a defined type is resolved: its own attribute or the type's. */
  function FirstAlias(e: Elem, r: Ref): Option<string> {
    Present(if r.alias.Some? then r.alias else e.alias)
  }

  /** fillFeatureDictionary files a reference to a type. One that is not defined is skipped. */
  ghost predicate TypeFills(cat: Catalog, r: Ref) {
    Ty(r.name) in cat ==>
      match FirstAlias(cat[Ty(r.name)], r)
      case None => KnownCategory(cat[Ty(r.name)])
      case Some(a) => Resolves(cat, Ty(a))
  }

  ghost predicate TypesFill(cat: Catalog, refs: seq<Ref>) {
    forall r :: r in refs ==> TypeFills(cat, r)
  }

  ghost predicate EnumsFill(cat: Catalog, refs: seq<EnumRef>) {
    forall r :: r in refs ==> r.alias.Some? || En(r.name) in cat
  }

  ghost predicate CommandsFill(cat: Catalog, refs: seq<Ref>) {
    forall r :: r in refs ==> r.alias.Some? || Cm(r.name) in cat
  }

  lemma TypesFillNext(cat: Catalog, refs: seq<Ref>, i: nat)
    requires i < |refs|
    ensures TypesFill(cat, refs[..i + 1]) <==> TypesFill(cat, refs[..i]) && TypeFills(cat, refs[i])
    ensures TypesFill(cat, refs) ==> TypesFill(cat, refs[..i + 1])
  {
    assert refs[..i + 1] == refs[..i] + [refs[i]];
  }

  /** fillFeatureDictionary files all that a tag refers to: the types, and those enums and commands that
      are defined or carry an alias attribute of their own. */
  ghost predicate BlockFills(cat: Catalog, b: Block) {
    && TypesFill(cat, b.types)
    && EnumsFill(cat, b.enums)
    && CommandsFill(cat, b.commands)
  }

  ghost predicate UsagesKnown(cat: Catalog, b: Block) {
    forall k :: k in b.usages ==> k in cat
  }

  ghost predicate TagsFill(cat: Catalog, bs: seq<Block>) {
    forall b :: b in bs && b.matches ==> BlockFills(cat, b)
  }

  ghost predicate TagUsagesKnown(cat: Catalog, bs: seq<Block>) {
    forall b :: b in bs && b.matches ==> UsagesKnown(cat, b)
  }

  /** No exception is raised in pass 1 ... */
  ghost predicate RequiringSucceeds(cat: Catalog, fs: seq<Feature>) {
    forall f :: f in fs ==> TagsFill(cat, f.requireTags) && TagUsagesKnown(cat, f.requireTags)
  }

  /** ... and none in pass 2. */
  ghost predicate RemovingSucceeds(cat: Catalog, fs: seq<Feature>) {
    forall f :: f in fs ==> TagUsagesKnown(cat, f.removeTags)
  }

  /** The type at which the resolution of a reference to a type starts. */
  ghost function AliasStart(cat: Catalog, r: Ref): set<Key>
    requires Ty(r.name) in cat
  {
    match FirstAlias(cat[Ty(r.name)], r) case None => {} case Some(a) => {Ty(a)}
  }

  ghost function AliasStarts(cat: Catalog, b: Block): set<Key> {
    if b.matches then set r, k | r in b.types && Ty(r.name) in cat && k in AliasStart(cat, r) :: k else {}
  }

  ghost function TagAliasStarts(cat: Catalog, bs: seq<Block>): set<Key> {
    set b, k | b in bs && k in AliasStarts(cat, b) :: k
  }

  ghost function AliasRoots(cat: Catalog, fs: seq<Feature>): set<Key> {
    set f, k | f in fs && k in TagAliasStarts(cat, f.requireTags) :: k
  }

  /** One step of following aliases. */
  lemma ResolvesNext(cat: Catalog, k: Key)
    requires k in cat && k.Ty?
    ensures Resolves(cat, k) <==>
              match Present(cat[k].alias)
              case None => KnownCategory(cat[k])
              case Some(a) => Resolves(cat, Ty(a))
  {
    var g := AliasGraph(cat);
    ReachUnfold(g, k);
    match Present(cat[k].alias)
    case None =>
      assert g[k] == {};
      ReachNothing(g, g[k]);
    case Some(a) =>
      assert g[k] == {Ty(a)};
      if Ty(a) in cat {
        assert Ty(a) in {Ty(a)} * g.Keys;
      }
  }

  // ----- when marking halts -----

  /** No recursion of passes 1 and 2 comes upon a cycle: not the resolution of an alias, not requiring,
      not removing. */
  ghost predicate PassesHalt(cat: Catalog, o: GenOpts, fs: seq<Feature>) {
    && NoCycleFrom(AliasGraph(cat), AliasRoots(cat, fs))
    && NoCycleFrom(MarkGraph(cat, o), RequireRoots(fs))
    && NoCycleFrom(UnmarkGraph(cat, o), RemoveRoots(fs))
  }

  /** Requiring k, and removing it, halts if and only if nothing it leads to leads back to itself.
      Removing a type always halts. */
  lemma MarkingHaltsExactly(cat: Catalog, o: GenOpts, k: Key)
    ensures Halts(MarkGraph(cat, o), k) <==> NoCycleFrom(MarkGraph(cat, o), {k})
    ensures Halts(UnmarkGraph(cat, o), k) <==> NoCycleFrom(UnmarkGraph(cat, o), {k})
    ensures k.Ty? ==> Halts(UnmarkGraph(cat, o), k)
  {
    HaltsExactly(MarkGraph(cat, o), k);
    HaltsExactly(UnmarkGraph(cat, o), k);
    if k.Ty? {
      assert HaltsWithin(UnmarkGraph(cat, o), k, 1);
    }
  }

  /** References to oneself that are followed: a type's through `bitvalues` only, an enum's through its
      alias, a command's through its alias if command aliases are required. Marking does not halt then. */
  lemma UnguardedSelfReferences(cat: Catalog, o: GenOpts, k: Key)
    requires k in cat
    ensures k in MarkCalls(cat[k], o, k) <==>
              match k
              case Ty(n) => Present(cat[k].bitvalues) == Some(n)
              case En(n) => Present(cat[k].alias) == Some(n)
              case Cm(n) => o.requireCommandAliases && Present(cat[k].alias) == Some(n)
    ensures k in MarkCalls(cat[k], o, k) ==> !Halts(MarkGraph(cat, o), k)
  {
    var g := MarkGraph(cat, o);
    assert g[k] == Elements(MarkCalls(cat[k], o, k));
    if k in g[k] {
      assert k in g[k] * g.Keys;
      assert OnCycle(g, k);
      ReachUnfold(g, k);
      HaltsExactly(g, k);
    }
  }

  /** A registry in which requiring T does not halt, and requiring U does. */
  lemma SelfBitvalues(o: GenOpts)
    ensures var cat := map[Ty("T") := Elem(None, None, [], [], Some("T"), Some("bitmask")),
                           Ty("U") := Elem(None, None, [], [], None, Some("struct"))];
            && !Halts(MarkGraph(cat, o), Ty("T")) && Halts(MarkGraph(cat, o), Ty("U"))
  {
    var cat := map[Ty("T") := Elem(None, None, [], [], Some("T"), Some("bitmask")),
                   Ty("U") := Elem(None, None, [], [], None, Some("struct"))];
    UnguardedSelfReferences(cat, o, Ty("T"));
    assert MarkGraph(cat, o)[Ty("U")] == {};
    assert HaltsWithin(MarkGraph(cat, o), Ty("U"), 1);
  }

  // ----- pass 3: generating declarations -----

  /** The recursive calls made before k itself is generated, in order. */
  function DependencyCalls(e: Elem, o: GenOpts, k: Key): seq<Key> {
    match k
    case Ty(_) =>
      TypeCalls(Names(e.alias)) + TypeCalls(Names(e.requiresAttr))
      + (if o.emitRecursiveRequirements then TypeCalls(e.subtypes) else [])
      + EnumCalls(e.subenums)
    case Cm(_) =>
      CommandCalls(Names(e.alias))
      + (if o.emitRecursiveRequirements then TypeCalls(e.subtypes) else [])
    case En(_) =>
      EnumCalls(Names(e.alias))
  }

  /** What becomes of an item once its dependencies have been generated. */
  datatype Outcome =
    | Generate(followup: Option<string>)  // emit it, then generate the follow-up type, if any
    | NoGroup                             // an enumerated type without a group: warn and skip it
    | Crash                               // an alias of an enumerated type that has no group

  type Groups = map<string, Group>

  function Followup(category: Option<string>, bitvalues: Option<string>): Option<string> {
    if category == Some("bitmask") then Present(bitvalues) else None
  }

  /** An enumerated type is replaced by the group of its alias if it has one, or of its own name. */
  function OutcomeOf(e: Elem, groups: Groups, k: Key): Outcome {
    if !k.Ty? then Generate(None)
    else if e.category != Some("enum") then Generate(Followup(e.category, e.bitvalues))
    else if e.alias.Some? then
      if e.alias.value in groups
      then Generate(Followup(groups[e.alias.value].category, groups[e.alias.value].bitvalues))
      else Crash
    else if k.name in groups
      then Generate(Followup(groups[k.name].category, groups[k.name].bitvalues))
    else NoGroup
  }

  /** The items whose generation completes before k's. */
  ghost function Dependencies(e: Elem, o: GenOpts, k: Key): set<Key> {
    if o.requireDepends then Elements(DependencyCalls(e, o, k)) else {}
  }

  /** The type generated after k, if any. */
  ghost function Followups(e: Elem, o: GenOpts, groups: Groups, k: Key): set<Key> {
    var outcome := OutcomeOf(e, groups, k);
    if o.requireDepends && outcome.Generate? && outcome.followup.Some?
    then {Ty(outcome.followup.value)} else {}
  }

  /** The calls pass 3 makes among the required features. */
  ghost function GenerateGraph(cat: Catalog, o: GenOpts, groups: Groups, req: set<Key>): Graph<Key> {
    map k | k in cat && k in req ::
      Dependencies(cat[k], o, k) + Followups(cat[k], o, groups, k)
  }

  /** What generateRequiredInterface asks for explicitly in one <require> tag, in order. An enum that
      extends a group is left to the group, unless redefinition is forced. */
  function ExplicitCalls(b: Block, o: GenOpts, groups: Groups): seq<Key> {
    TypeCalls(RefNames(b.types)) + EnumCalls(ForcedEnums(b.enums, o, groups)) + CommandCalls(RefNames(b.commands))
  }

  function ForcedEnums(enums: seq<EnumRef>, o: GenOpts, groups: Groups): seq<string> {
    if enums == [] then []
    else
      var rest := ForcedEnums(enums[1..], o, groups);
      if Present(enums[0].extendsGroup).None?
         || (o.redefineEnumExtends
             && enums[0].extendsGroup.value in groups && !groups[enums[0].extendsGroup.value].required)
      then [enums[0].name] + rest else rest
  }

  /** Every group that an enum of the tag extends is defined. */
  predicate ExtendsKnown(b: Block, groups: Groups) {
    forall r :: r in b.enums && Present(r.extendsGroup).Some? ==> r.extendsGroup.value in groups
  }

  ghost function TagRoots(bs: seq<Block>, o: GenOpts, groups: Groups): set<Key> {
    set b, k | b in bs && k in ExplicitCalls(b, o, groups) :: k
  }

  ghost function ExplicitRoots(fs: seq<Feature>, o: GenOpts, groups: Groups): set<Key> {
    set f, k | f in fs && k in TagRoots(f.requireTags, o, groups) :: k
  }

  lemma NoTagRoots(o: GenOpts, groups: Groups)
    ensures TagRoots([], o, groups) == {}
  {
  }

  lemma TagRootsNext(bs: seq<Block>, o: GenOpts, groups: Groups, i: nat)
    requires i < |bs|
    ensures TagRoots(bs[..i + 1], o, groups)
            == TagRoots(bs[..i], o, groups) + Elements(ExplicitCalls(bs[i], o, groups))
    ensures TagRoots(bs[..i + 1], o, groups) <= TagRoots(bs, o, groups)
  {
    assert bs[..i + 1] == bs[..i] + [bs[i]];
  }

  lemma ExplicitRootsNext(fs: seq<Feature>, o: GenOpts, groups: Groups, i: nat)
    requires i < |fs|
    ensures ExplicitRoots(fs[..i + 1], o, groups)
            == ExplicitRoots(fs[..i], o, groups) + TagRoots(fs[i].requireTags, o, groups)
    ensures ExplicitRoots(fs[..i + 1], o, groups) <= ExplicitRoots(fs, o, groups)
  {
    assert fs[..i + 1] == fs[..i] + [fs[i]];
  }

  /** What pass 3 declares. */
  ghost function DeclaredByGenerating(
    cat: Catalog, o: GenOpts, groups: Groups, fs: seq<Feature>, req: set<Key>): set<Key>
  {
    Reach(GenerateGraph(cat, o, groups, req), ExplicitRoots(fs, o, groups))
  }

  // ----- the two traversals agree -----

  ghost predicate BitvaluesOnBitmasks(cat: Catalog) {
    forall k :: k in cat && k.Ty? && Present(cat[k].bitvalues).Some? ==> cat[k].category == Some("bitmask")
  }

  /** With full dependency generation, pass 3 follows every edge between types, and from commands,
      that pass 1 followed. */
  lemma GenerateFollowsMarks(cat: Catalog, o: GenOpts, groups: Groups, req: set<Key>, k: Key, d: Key)
    requires o.requireDepends && o.emitRecursiveRequirements && BitvaluesOnBitmasks(cat)
    requires k in cat && k in req && d in MarkCalls(cat[k], o, k) && !d.En?
    ensures d in GenerateGraph(cat, o, groups, req)[k]
  {
    var e := cat[k];
    if k.Ty? && d in TypeCalls(Names(e.bitvalues)) {
      assert OutcomeOf(e, groups, k) == Generate(Present(e.bitvalues));
    } else {
      assert d in DependencyCalls(e, o, k);
    }
  }

  lemma BlockKeysExplicit(b: Block, o: GenOpts, groups: Groups, k: Key)
    requires k in BlockCalls(b) && !k.En?
    ensures k in ExplicitCalls(b, o, groups)
  {
    assert k in TypeCalls(RefNames(b.types)) || k in CommandCalls(RefNames(b.commands));
  }

  /** Every type and command that pass 1 starts from, pass 3 asks for explicitly. */
  lemma RootsAreExplicit(o: GenOpts, groups: Groups, fs: seq<Feature>, k: Key)
    requires k in RequireRoots(fs) && !k.En?
    ensures k in ExplicitRoots(fs, o, groups)
  {
    var f, b :| f in fs && b in f.requireTags && b.matches && k in BlockCalls(b);
    BlockKeysExplicit(b, o, groups, k);
    assert k in TagRoots(f.requireTags, o, groups);
  }

  /** If what pass 1 reaches is required, pass 3 declares every type and command of it. */
  lemma GenerateReachesMarks(cat: Catalog, o: GenOpts, groups: Groups, fs: seq<Feature>, req: set<Key>)
    requires o.requireDepends && o.emitRecursiveRequirements && BitvaluesOnBitmasks(cat)
    requires req == Reach(MarkGraph(cat, o), RequireRoots(fs))
    ensures forall k :: k in req && !k.En? ==> k in DeclaredByGenerating(cat, o, groups, fs, req)
  {
    var marks, roots := MarkGraph(cat, o), RequireRoots(fs);
    var gen, explicit := GenerateGraph(cat, o, groups, req), ExplicitRoots(fs, o, groups);
    var declared := Reach(gen, explicit);
    var T := declared + (set e | e in req && e.En?);
    forall x | x in roots && x in marks
      ensures x in T
    {
      assert x in roots * marks.Keys;
      if !x.En? {
        RootsAreExplicit(o, groups, fs, x);
        assert x in explicit * gen.Keys;
      }
    }
    forall x, y | x in T && Edge(marks, x, y)
      ensures y in T
    {
      ReachStep(marks, roots, x, y);
      if !y.En? {
        GenerateFollowsMarks(cat, o, groups, req, x, y);
        ReachStep(gen, explicit, x, y);
      }
    }
    ReachLeast(marks, roots, T);
  }

  /** When nothing is removed, pass 3 declares exactly the types and commands that passes 1 and 2
      made required: its own traversal, over other edges and from other roots, misses none. */
  lemma DeclaredAreRequired(cat: Catalog, o: GenOpts, groups: Groups, fs: seq<Feature>, k: Key)
    requires o.requireDepends && o.emitRecursiveRequirements && BitvaluesOnBitmasks(cat)
    requires RemoveRoots(fs) == {}
    requires !k.En?
    ensures var req := RequiredAfterMarking(cat, o, fs);
            k in DeclaredByGenerating(cat, o, groups, fs, req) <==> k in req
  {
    ReachLeast(UnmarkGraph(cat, o), {}, {});
    var req := Reach(MarkGraph(cat, o), RequireRoots(fs));
    assert RequiredAfterMarking(cat, o, fs) == req;
    GenerateReachesMarks(cat, o, groups, fs, req);
  }
}
