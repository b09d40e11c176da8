/** The Registry object of specification/scripts/reg.py: passes 1 and 2 mark features as required or
    removed, pass 3 generates their declarations. */
module Registry {
  import opened Wrappers
  import opened Graphs
  import opened RegistryModel
  import opened GenerateTrace

  /** TypeInfo, EnumInfo or CmdInfo: an element and its two flags. */
  class Info {
    const key: Key
    const elem: Elem
    var required: bool
    var declared: bool

    constructor (key: Key, elem: Elem)
      ensures this.key == key && this.elem == elem && !required && !declared
    {
      this.key, this.elem := key, elem;
      required, declared := false, false;
    }
  }

  class Registry {
    /** typedict, enumdict and cmddict in one: the key says which of them. */
    const dict: map<Key, Info>
    const groupdict: Groups
    const genOpts: GenOpts

    /** Whether the feature being processed is tagged for emission. */
    var emitFeatures: bool

    /** The completed generations so far, with the ones handed to the output generator marked. */
    var log: seq<Entry>

    /** What requiring, and removing, a feature leads to. */
    ghost const marks: Graph<Key>
    ghost const unmarks: Graph<Key>

    constructor (dict: map<Key, Info>, groupdict: Groups, genOpts: GenOpts)
      requires forall k :: k in dict ==> dict[k].key == k
      ensures Valid()
      ensures this.dict == dict && this.groupdict == groupdict && this.genOpts == genOpts
      ensures log == []
    {
      this.dict, this.groupdict, this.genOpts := dict, groupdict, genOpts;
      emitFeatures, log := false, [];
      marks := map k | k in dict :: Elements(MarkCalls(dict[k].elem, genOpts, k));
      unmarks := map k | k in dict :: Elements(UnmarkCalls(dict[k].elem, genOpts, k));
    }

    /** The dictionary holds every Info under that Info's own key, so no Info is shared. */
    ghost predicate Valid() {
      && (forall k :: k in dict ==> dict[k].key == k)
      && marks.Keys == dict.Keys
      && unmarks.Keys == dict.Keys
      && (forall k {:trigger MarkCalls(dict[k].elem, genOpts, k)} ::
            k in dict ==> marks[k] == Elements(MarkCalls(dict[k].elem, genOpts, k)))
      && (forall k {:trigger UnmarkCalls(dict[k].elem, genOpts, k)} ::
            k in dict ==> unmarks[k] == Elements(UnmarkCalls(dict[k].elem, genOpts, k)))
    }

    ghost function Contents(): Catalog {
      map k | k in dict :: dict[k].elem
    }

    ghost function Required(): set<Key>
      reads dict.Values`required
    {
      set k | k in dict && dict[k].required
    }

    ghost function Declared(): set<Key>
      reads dict.Values`declared
    {
      set k | k in dict && dict[k].declared
    }

    lemma GraphsAreTheModels()
      requires Valid()
      ensures marks == MarkGraph(Contents(), genOpts)
      ensures unmarks == UnmarkGraph(Contents(), genOpts)
    {
      forall k | k in dict
        ensures marks[k] == MarkGraph(Contents(), genOpts)[k]
        ensures unmarks[k] == UnmarkGraph(Contents(), genOpts)[k]
      {
        var _ := MarkCalls(dict[k].elem, genOpts, k);
        var _ := UnmarkCalls(dict[k].elem, genOpts, k);
      }
    }

    /** What requiring, or removing, follows. */
    ghost function Following(required: bool): Graph<Key> {
      if required then marks else unmarks
    }

    // ----- passes 1 and 2 -----

    /** The required features after marking or removing what is reachable from S. */
    ghost function Marked(before: set<Key>, required: bool, S: set<Key>): set<Key> {
      if required then before + Reach(marks, S) else before - Reach(unmarks, S)
    }

    lemma MarkedUnion(before: set<Key>, required: bool, S: set<Key>, T: set<Key>)
      ensures Marked(Marked(before, required, S), required, T) == Marked(before, required, S + T)
    {
      ReachUnion(marks, S, T);
      ReachUnion(unmarks, S, T);
    }

    lemma MarkedNothing(before: set<Key>, required: bool, S: set<Key>)
      requires Valid() && S * dict.Keys == {}
      ensures Marked(before, required, S) == before
    {
      ReachNothing(marks, S);
      ReachNothing(unmarks, S);
    }

    lemma MarkedFirst(before: set<Key>, required: bool, calls: seq<Key>)
      ensures Marked(before, required, Elements(calls[..0])) == before
      ensures calls[..|calls|] == calls
    {
      ReachFirst(marks, calls);
      ReachFirst(unmarks, calls);
    }

    lemma MarkedNext(before: set<Key>, required: bool, calls: seq<Key>, i: nat)
      requires i < |calls|
      ensures Marked(Marked(before, required, Elements(calls[..i])), required, {calls[i]})
              == Marked(before, required, Elements(calls[..i + 1]))
    {
      ReachNext(marks, calls, i);
      ReachNext(unmarks, calls, i);
    }

    ghost function Flagged(before: set<Key>, required: bool, k: Key): set<Key> {
      if required then before + {k} else before - {k}
    }

    /** Setting the flag of k and marking what follows from it, in either order. */
    lemma MarkedNode(before: set<Key>, required: bool, k: Key, calls: seq<Key>)
      requires Valid() && k in dict
      requires Elements(calls) == if required then marks[k] else unmarks[k]
      ensures Flagged(Marked(before, required, Elements(calls)), required, k) == Marked(before, required, {k})
      ensures Marked(Flagged(before, required, k), required, Elements(calls)) == Marked(before, required, {k})
    {
      ReachUnfold(marks, k);
      ReachUnfold(unmarks, k);
    }

    method SetRequired(k: Key, required: bool)
      requires Valid() && k in dict
      modifies {dict[k]}`required
      ensures Required() == Flagged(old(Required()), required, k)
    {
      dict[k].required := required;
      assert forall x :: x in dict && x != k ==> dict[x] != dict[k];
    }

    /** The dependencies of a feature that are to be marked with it, in order. */
    method Dependents(k: Key, required: bool) returns (calls: seq<Key>)
      requires Valid() && k in dict
      ensures Elements(calls) == if required then marks[k] else unmarks[k]
      ensures k.Ty? ==> forall i :: 0 <= i < |calls| ==> !calls[i].Cm?
      ensures k.En? ==> forall i :: 0 <= i < |calls| ==> calls[i].En?
      ensures k.Cm? ==> forall i :: 0 <= i < |calls| ==> !calls[i].En?
    {
      calls := if required then MarkCalls(dict[k].elem, genOpts, k) else UnmarkCalls(dict[k].elem, genOpts, k);
    }

    /** Require a type and, recursively, what it depends on; or remove it alone. */
    method MarkTypeRequired(typename: string, required: bool)
      requires Valid() && NoCycleFrom(Following(required), {Ty(typename)})
      modifies dict.Values`required
      ensures Required() == Marked(old(Required()), required, {Ty(typename)})
      decreases Rank(Following(required), Ty(typename))
    {
      var k := Ty(typename);
      if k !in dict {
        MarkedNothing(Required(), required, {k});
        return;
      }
      var calls := Dependents(k, required);
      MarkedFirst(Required(), required, calls);
      for i := 0 to |calls|
        invariant Required() == Marked(old(Required()), required, Elements(calls[..i]))
      {
        NoCycleStep(Following(required), k, calls[i]);
        MarkedNext(old(Required()), required, calls, i);
        if calls[i].Ty? {
          MarkTypeRequired(calls[i].name, required);
        } else {
          MarkEnumRequired(calls[i].name, required);
        }
      }
      MarkedNode(old(Required()), required, k, calls);
      SetRequired(k, required);
    }

    /** Require or remove an enum and what it is an alias of. */
    method MarkEnumRequired(enumname: string, required: bool)
      requires Valid() && NoCycleFrom(Following(required), {En(enumname)})
      modifies dict.Values`required
      ensures Required() == Marked(old(Required()), required, {En(enumname)})
      decreases Rank(Following(required), En(enumname))
    {
      var k := En(enumname);
      if k !in dict {
        MarkedNothing(Required(), required, {k});
        return;
      }
      SetRequired(k, required);
      ghost var flagged := Required();
      var calls := Dependents(k, required);
      MarkedFirst(flagged, required, calls);
      for i := 0 to |calls|
        invariant Required() == Marked(flagged, required, Elements(calls[..i]))
      {
        NoCycleStep(Following(required), k, calls[i]);
        MarkedNext(flagged, required, calls, i);
        MarkEnumRequired(calls[i].name, required);
      }
      MarkedNode(old(Required()), required, k, calls);
    }

    /** Require or remove a command, with its alias if the generator asks for that; requiring it also
        requires the types of its parameters. */
    method MarkCmdRequired(cmdname: string, required: bool)
      requires Valid() && NoCycleFrom(Following(required), {Cm(cmdname)})
      modifies dict.Values`required
      ensures Required() == Marked(old(Required()), required, {Cm(cmdname)})
      decreases Rank(Following(required), Cm(cmdname))
    {
      var k := Cm(cmdname);
      if k !in dict {
        MarkedNothing(Required(), required, {k});
        return;
      }
      SetRequired(k, required);
      ghost var flagged := Required();
      var calls := Dependents(k, required);
      MarkedFirst(flagged, required, calls);
      for i := 0 to |calls|
        invariant Required() == Marked(flagged, required, Elements(calls[..i]))
      {
        NoCycleStep(Following(required), k, calls[i]);
        MarkedNext(flagged, required, calls, i);
        if calls[i].Cm? {
          MarkCmdRequired(calls[i].name, required);
        } else {
          MarkTypeRequired(calls[i].name, required);
        }
      }
      MarkedNode(old(Required()), required, k, calls);
    }

    /** Process one <require> or <remove> tag. */
    method MarkRequired(feature: Block, required: bool)
      requires Valid() && NoCycleFrom(Following(required), Elements(BlockCalls(feature)))
      modifies dict.Values`required
      ensures Required() == Marked(old(Required()), required, Elements(BlockCalls(feature)))
    {
      var calls := BlockCalls(feature);
      MarkedFirst(Required(), required, calls);
      for i := 0 to |calls|
        invariant Required() == Marked(old(Required()), required, Elements(calls[..i]))
      {
        MarkedNext(old(Required()), required, calls, i);
        NoCycleFewer(Following(required), Elements(calls), {calls[i]});
        match calls[i] {
          case Ty(n) => MarkTypeRequired(n, required);
          case En(n) => MarkEnumRequired(n, required);
          case Cm(n) => MarkCmdRequired(n, required);
        }
      }
    }

    /** requireFeatures and removeFeatures: process the tags that match the API and profile. */
    method MarkFeatures(tags: seq<Block>, required: bool)
      requires Valid() && NoCycleFrom(Following(required), MatchingKeys(tags))
      modifies dict.Values`required
      ensures Required() == Marked(old(Required()), required, MatchingKeys(tags))
    {
      MarkedNothing(Required(), required, MatchingKeys(tags[..0]));
      for i := 0 to |tags|
        invariant Required() == Marked(old(Required()), required, MatchingKeys(tags[..i]))
      {
        MatchingKeysNext(tags, i);
        MarkedUnion(old(Required()), required, MatchingKeys(tags[..i]), TagKeys(tags[i]));
        if tags[i].matches {
          NoCycleFewer(Following(required), MatchingKeys(tags), TagKeys(tags[i]));
          MarkRequired(tags[i], required);
        } else {
          MarkedNothing(Required(), required, TagKeys(tags[i]));
        }
      }
      assert tags[..|tags|] == tags;
    }

    // ----- what passes 1 and 2 check -----

    ghost function Aliases(): Graph<Key> {
      AliasGraph(Contents())
    }

    /** Resolve the alias of a reference to a type, up to its category. */
    method FillType(r: Ref) returns (ok: bool)
      requires Valid() && (Ty(r.name) in dict ==> NoCycleFrom(Aliases(), AliasStart(Contents(), r)))
      ensures ok <==> TypeFills(Contents(), r)
    {
      if Ty(r.name) !in dict {
        return true;
      }
      var info := dict[Ty(r.name)];
      var alias := if r.alias.Some? then r.alias else info.elem.alias;
      while Present(alias).Some?
        invariant info in dict.Values
        invariant TypeFills(Contents(), r) <==>
                  match Present(alias)
                  case None => KnownCategory(info.elem)
                  case Some(a) => Resolves(Contents(), Ty(a))
        invariant Present(alias).Some? ==> NoCycleFrom(Aliases(), {Ty(alias.value)})
        decreases if Present(alias).Some? then 1 + Rank(Aliases(), Ty(alias.value)) else 0
      {
        var k := Ty(alias.value);
        if k !in dict {
          return false;
        }
        ResolvesNext(Contents(), k);
        info := dict[k];
        alias := info.elem.alias;
        if Present(alias).Some? {
          NoCycleStep(Aliases(), k, Ty(alias.value));
        }
      }
      ok := KnownCategory(info.elem);
    }

    /** fillFeatureDictionary, of which only the exceptions are modelled. */
    method FillFeatureDictionary(tags: seq<Block>) returns (ok: bool)
      requires Valid() && NoCycleFrom(Aliases(), TagAliasStarts(Contents(), tags))
      ensures ok <==> TagsFill(Contents(), tags)
    {
      for i := 0 to |tags|
        invariant TagsFill(Contents(), tags[..i])
      {
        assert tags[..i + 1] == tags[..i] + [tags[i]];
        assert tags[i] in tags;
        if tags[i].matches {
          NoCycleFewer(Aliases(), TagAliasStarts(Contents(), tags), AliasStarts(Contents(), tags[i]));
          ok := FillBlock(tags[i]);
          if !ok {
            return;
          }
        }
      }
      assert tags[..|tags|] == tags;
      ok := true;
    }

    method FillBlock(b: Block) returns (ok: bool)
      requires Valid() && b.matches && NoCycleFrom(Aliases(), AliasStarts(Contents(), b))
      ensures ok <==> BlockFills(Contents(), b)
    {
      ok := FillTypes(b);
      if !ok {
        return;
      }
      ok := FillEnums(b.enums);
      if !ok {
        return;
      }
      ok := FillCommands(b.commands);
    }

    method FillEnums(enums: seq<EnumRef>) returns (ok: bool)
      ensures ok <==> EnumsFill(Contents(), enums)
    {
      for i := 0 to |enums|
        invariant forall j :: 0 <= j < i ==> enums[j].alias.Some? || En(enums[j].name) in dict
      {
        ok := GetAlias(En(enums[i].name), enums[i].alias);
        if !ok {
          assert enums[i] in enums;
          return;
        }
      }
      ok := true;
    }

    method FillCommands(commands: seq<Ref>) returns (ok: bool)
      ensures ok <==> CommandsFill(Contents(), commands)
    {
      for i := 0 to |commands|
        invariant forall j :: 0 <= j < i ==> commands[j].alias.Some? || Cm(commands[j].name) in dict
      {
        ok := GetAlias(Cm(commands[i].name), commands[i].alias);
        if !ok {
          assert commands[i] in commands;
          return;
        }
      }
      ok := true;
    }

    method FillTypes(b: Block) returns (ok: bool)
      requires Valid() && b.matches && NoCycleFrom(Aliases(), AliasStarts(Contents(), b))
      ensures ok <==> TypesFill(Contents(), b.types)
    {
      for i := 0 to |b.types|
        invariant TypesFill(Contents(), b.types[..i])
      {
        TypesFillNext(Contents(), b.types, i);
        assert b.types[i] in b.types;
        if Ty(b.types[i].name) in dict {
          NoCycleFewer(Aliases(), AliasStarts(Contents(), b), AliasStart(Contents(), b.types[i]));
        }
        ok := FillType(b.types[i]);
        if !ok {
          return;
        }
      }
      assert b.types[..|b.types|] == b.types;
      ok := true;
    }

    /** getAlias raises an error for a name that has neither an alias attribute nor a definition. */
    method GetAlias(k: Key, alias: Option<string>) returns (known: bool)
      ensures known <==> alias.Some? || k in dict
    {
      known := true;
      if alias.None? && k !in dict {
        known := false;
      }
    }

    /** assignAdditionalValidity and removeAdditionalValidity, of which only the exceptions are modelled. */
    method CheckUsages(tags: seq<Block>) returns (ok: bool)
      ensures ok <==> TagUsagesKnown(Contents(), tags)
    {
      for i := 0 to |tags|
        invariant TagUsagesKnown(Contents(), tags[..i])
      {
        assert tags[..i + 1] == tags[..i] + [tags[i]];
        assert tags[i] in tags;
        if tags[i].matches {
          for j := 0 to |tags[i].usages|
            invariant forall u :: u in tags[i].usages[..j] ==> u in dict
          {
            assert tags[i].usages[..j + 1] == tags[i].usages[..j] + [tags[i].usages[j]];
            if tags[i].usages[j] !in dict {
              assert !UsagesKnown(Contents(), tags[i]);
              return false;
            }
          }
          assert tags[i].usages[..|tags[i].usages|] == tags[i].usages;
        }
      }
      assert tags[..|tags|] == tags;
      ok := true;
    }

    /** Pass 1 of apiGen. */
    method RequirePass(features: seq<Feature>) returns (ok: bool)
      requires Valid() && NoCycleFrom(Aliases(), AliasRoots(Contents(), features))
      requires NoCycleFrom(marks, RequireRoots(features))
      modifies dict.Values`required
      ensures ok <==> RequiringSucceeds(Contents(), features)
      ensures ok ==> Required() == Marked(old(Required()), true, RequireRoots(features))
    {
      MarkedNothing(Required(), true, RequireRoots(features[..0]));
      for i := 0 to |features|
        invariant RequiringSucceeds(Contents(), features[..i])
        invariant Required() == Marked(old(Required()), true, RequireRoots(features[..i]))
      {
        var f := features[i];
        assert f in features && features[..i + 1] == features[..i] + [f];
        NoCycleFewer(Aliases(), AliasRoots(Contents(), features), TagAliasStarts(Contents(), f.requireTags));
        NoCycleFewer(marks, RequireRoots(features), MatchingKeys(f.requireTags));
        ok := FillFeatureDictionary(f.requireTags);
        if !ok {
          return;
        }
        RootsNext(features, i);
        MarkedUnion(old(Required()), true, RequireRoots(features[..i]), MatchingKeys(f.requireTags));
        MarkFeatures(f.requireTags, true);
        ok := CheckUsages(f.requireTags);
        if !ok {
          return;
        }
      }
      assert features[..|features|] == features;
      ok := true;
    }

    /** Pass 2. */
    method RemovePass(features: seq<Feature>) returns (ok: bool)
      requires Valid() && NoCycleFrom(unmarks, RemoveRoots(features))
      modifies dict.Values`required
      ensures ok <==> RemovingSucceeds(Contents(), features)
      ensures ok ==> Required() == Marked(old(Required()), false, RemoveRoots(features))
    {
      MarkedNothing(Required(), false, RemoveRoots(features[..0]));
      for i := 0 to |features|
        invariant RemovingSucceeds(Contents(), features[..i])
        invariant Required() == Marked(old(Required()), false, RemoveRoots(features[..i]))
      {
        var f := features[i];
        assert f in features && features[..i + 1] == features[..i] + [f];
        NoCycleFewer(unmarks, RemoveRoots(features), MatchingKeys(f.removeTags));
        RootsNext(features, i);
        MarkedUnion(old(Required()), false, RemoveRoots(features[..i]), MatchingKeys(f.removeTags));
        MarkFeatures(f.removeTags, false);
        ok := CheckUsages(f.removeTags);
        if !ok {
          return;
        }
      }
      assert features[..|features|] == features;
      ok := true;
    }

    /** Passes 1 and 2 of apiGen: first everything that is required, then everything removed. */
    method MarkPasses(features: seq<Feature>) returns (ok: bool)
      requires Valid() && PassesHalt(Contents(), genOpts, features)
      modifies dict.Values`required
      ensures ok <==> RequiringSucceeds(Contents(), features) && RemovingSucceeds(Contents(), features)
      ensures ok ==> Required() == Marked(Marked(old(Required()), true, RequireRoots(features)),
                                          false, RemoveRoots(features))
    {
      GraphsAreTheModels();
      ok := RequirePass(features);
      if ok {
        ok := RemovePass(features);
      }
    }

    // ----- pass 3 -----

    /** p describes the calls pass 3 makes among the features that are now required. */
    ghost predicate IsPlan(p: Plan)
      reads dict.Values`required
    {
      && p.calls.Keys == p.dependencies.Keys == Required()
      && (forall k {:trigger DependencyCalls(dict[k].elem, genOpts, k)} :: k in Required() ==>
            p.dependencies[k] == Dependencies(dict[k].elem, genOpts, k))
      && (forall k {:trigger OutcomeOf(dict[k].elem, groupdict, k)} :: k in Required() ==>
            && p.calls[k] == p.dependencies[k] + Followups(dict[k].elem, genOpts, groupdict, k)
            && (k in p.crashing <==> OutcomeOf(dict[k].elem, groupdict, k).Crash?)
            && (k in p.skipped <==> OutcomeOf(dict[k].elem, groupdict, k).NoGroup?))
    }

    method SetDeclared(k: Key)
      requires Valid() && k in dict
      modifies {dict[k]}`declared
      ensures Declared() == old(Declared()) + {k}
    {
      dict[k].declared := true;
      assert forall x :: x in dict && x != k ==> dict[x] != dict[k];
    }

    /** What is generated before k: for a type what its alias and `requires` name and the types and enums
        nested in it, for a command its alias and the types nested in it, for an enum its alias. */
    method DependenciesOf(k: Key, ghost p: Plan) returns (calls: seq<Key>)
      requires Valid() && IsPlan(p) && k in Required()
      ensures calls == DependencyCalls(dict[k].elem, genOpts, k)
      ensures p.dependencies[k] == if genOpts.requireDepends then Elements(calls) else {}
      ensures p.dependencies[k] <= p.calls[k]
    {
      ghost var _ := OutcomeOf(dict[k].elem, groupdict, k);
      var e := dict[k].elem;
      match k {
        case Ty(_) =>
          calls := TypeCalls(Names(e.alias)) + TypeCalls(Names(e.requiresAttr));
          if genOpts.emitRecursiveRequirements {
            calls := calls + TypeCalls(e.subtypes);
          }
          calls := calls + EnumCalls(e.subenums);
          assert calls == DependencyCalls(e, genOpts, k);
        case Cm(_) =>
          calls := CommandCalls(Names(e.alias));
          if genOpts.emitRecursiveRequirements {
            calls := calls + TypeCalls(e.subtypes);
          }
        case En(_) =>
          calls := EnumCalls(Names(e.alias));
      }
    }

    /** An alias of an enumerated type whose target is not a group. */
    predicate LacksAliasedGroup(k: Key)
      requires k in dict
    {
      var e := dict[k].elem;
      k.Ty? && e.category == Some("enum") && e.alias.Some? && e.alias.value !in groupdict
    }

    /** An enumerated type, no alias, without a group of its name. */
    predicate LacksGroup(k: Key)
      requires k in dict
    {
      var e := dict[k].elem;
      k.Ty? && e.category == Some("enum") && e.alias.None? && k.name !in groupdict
    }

    /** How the generation of k ends, and what follows it: the `bitvalues` of a bitmask, be it the type
        or the group that is generated in its place. */
    method EndOf(k: Key, ghost p: Plan) returns (crash: bool, skip: bool, followup: Option<string>)
      requires Valid() && IsPlan(p) && k in Required()
      ensures crash <==> LacksAliasedGroup(k)
      ensures skip <==> LacksGroup(k)
      ensures followup.Some? ==> k.Ty? && !crash && !skip
      ensures !crash && !skip && k.Ty? ==>
                var e := dict[k].elem;
                if e.category != Some("enum")
                then followup == if e.category == Some("bitmask") then Present(e.bitvalues) else None
                else var g := groupdict[if e.alias.Some? then e.alias.value else k.name];
                     followup == if g.category == Some("bitmask") then Present(g.bitvalues) else None
      // This is as the plan has it.
      ensures crash <==> k in p.crashing
      ensures skip <==> k in p.skipped
      ensures p.calls[k] == p.dependencies[k] +
                if genOpts.requireDepends && followup.Some? then {Ty(followup.value)} else {}
    {
      ghost var outcome := OutcomeOf(dict[k].elem, groupdict, k);
      var e := dict[k].elem;
      crash, skip, followup := false, false, None;
      if k.Ty? {
        var category, bitvalues := e.category, e.bitvalues;
        if category == Some("enum") {
          var group := if e.alias.Some? then e.alias.value else k.name;
          if group in groupdict {
            category, bitvalues := groupdict[group].category, groupdict[group].bitvalues;
          } else {
            crash, skip := e.alias.Some?, e.alias.None?;
            category := None;
          }
        }
        if category == Some("bitmask") {
          followup := Present(bitvalues);
        }
      }
      assert outcome == if crash then Crash else if skip then NoGroup else Generate(followup);
      assert Followups(e, genOpts, groupdict, k) ==
             if genOpts.requireDepends && followup.Some? then {Ty(followup.value)} else {};
    }

    /** Generate a feature and, before it, what it depends on. ok is false if an exception is raised.
        The invariant of the whole traversal is Consistent: whatever is declared is within the limit,
        no feature completes twice, and each completes after its dependencies. */
    method GenerateFeature(k: Key, explicit: bool, ghost s: Scope, ghost pending: set<Key>, ghost open: set<Key>)
      returns (ok: bool)
      requires Valid() && IsPlan(s.plan) && s.emit == emitFeatures
      requires Consistent(s, Declared(), log, pending, open)
      requires (explicit || genOpts.requireDepends) && k in s.plan.calls ==>
                 k in s.limit && forall q :: q in pending ==> k in Reach(s.plan.calls, {q})
      modifies dict.Values`declared, this`log
      ensures old(Declared()) <= Declared()
      ensures old(log) <= log
      ensures !(explicit || genOpts.requireDepends) ==> ok && Declared() == old(Declared())
      ensures ok ==> Consistent(s, Declared(), log, pending, open)
      ensures ok && (explicit || genOpts.requireDepends) && k in s.plan.calls ==> k in Declared()
      // An exception is raised only because of an alias of an enumerated type without a group.
      ensures !ok ==> s.limit * s.plan.crashing != {}
      decreases s.limit - Declared(), 0
    {
      if !(explicit || genOpts.requireDepends) {
        return true;
      }
      if k !in dict || !dict[k].required || dict[k].declared {
        return true;
      }
      SetDeclared(k);
      Enter(s, old(Declared()), log, pending, open, k);
      ok := GenerateDeclared(k, s, pending, open);
    }

    /** k has just been declared: its dependencies come first. */
    method GenerateDeclared(k: Key, ghost s: Scope, ghost pending: set<Key>, ghost open: set<Key>) returns (ok: bool)
      requires Valid() && IsPlan(s.plan) && s.emit == emitFeatures
      requires k in Required() && k in s.limit && k !in pending && k !in open
      requires Consistent(s, Declared(), log, pending + {k}, open + {k})
      requires forall q :: q in pending ==> k in Reach(s.plan.calls, {q})
      modifies dict.Values`declared, this`log
      ensures old(Declared()) <= Declared()
      ensures old(log) <= log
      ensures ok ==> Consistent(s, Declared(), log, pending, open)
      ensures !ok ==> s.limit * s.plan.crashing != {}
      decreases s.limit - Declared(), 3
    {
      hide Consistent, IsPlan, DependencyCalls, Reach;
      var deps := DependenciesOf(k, s.plan);
      Onward(s, Declared(), log, pending + {k}, open + {k}, pending, k,
             if genOpts.requireDepends then Elements(deps) else {});
      ok := GenerateAll(deps, false, s, pending + {k}, open + {k});
      if !ok {
        return;
      }
      ok := FinishFeature(k, s, pending, open);
    }

    /** The dependencies of k are done: hand it to the output generator, then generate its follow-up. */
    method FinishFeature(k: Key, ghost s: Scope, ghost pending: set<Key>, ghost open: set<Key>) returns (ok: bool)
      requires Valid() && IsPlan(s.plan) && s.emit == emitFeatures
      requires k in Required() && k in s.limit && k !in pending && k !in open
      requires Consistent(s, Declared(), log, pending + {k}, open + {k})
      requires s.plan.dependencies[k] * s.plan.calls.Keys <= Declared()
      requires forall q :: q in pending ==> k in Reach(s.plan.calls, {q})
      modifies dict.Values`declared, this`log
      ensures old(Declared()) <= Declared()
      ensures old(log) <= log
      // The next to complete is k itself; its follow-up comes after it.
      ensures ok ==> |log| > |old(log)| && log[|old(log)|].key == k
      ensures ok ==> Consistent(s, Declared(), log, pending, open)
      ensures !ok ==> s.limit * s.plan.crashing != {}
      decreases s.limit - Declared(), 2
    {
      hide Consistent, IsPlan, LacksGroup, LacksAliasedGroup, Reach;
      var crash, skip, followup := EndOf(k, s.plan);
      if crash {
        assert k in s.limit * s.plan.crashing;
        return false;
      }
      Finish(s, Declared(), log, pending, open, Entry(k, emitFeatures && !skip));
      log := log + [Entry(k, emitFeatures && !skip)];
      ok := FollowUp(k, followup, s, pending, open);
    }

    /** k has completed: generate its follow-up, if it has one. */
    method FollowUp(k: Key, followup: Option<string>, ghost s: Scope, ghost pending: set<Key>, ghost open: set<Key>)
      returns (ok: bool)
      requires Valid() && IsPlan(s.plan) && s.emit == emitFeatures
      requires k in Required() && k in s.limit && k !in pending && k !in open
      requires Consistent(s, Declared(), log, pending, open + {k})
      requires s.plan.dependencies[k] * s.plan.calls.Keys <= Declared()
      requires s.plan.calls[k] == s.plan.dependencies[k] +
                 if genOpts.requireDepends && followup.Some? then {Ty(followup.value)} else {}
      requires forall q :: q in pending ==> k in Reach(s.plan.calls, {q})
      modifies dict.Values`declared, this`log
      ensures old(Declared()) <= Declared()
      ensures old(log) <= log
      ensures ok ==> Consistent(s, Declared(), log, pending, open)
      ensures !ok ==> s.limit * s.plan.crashing != {}
      decreases s.limit - Declared(), 1
    {
      if followup.Some? {
        Onward(s, Declared(), log, pending, open + {k}, pending, k,
               if genOpts.requireDepends then {Ty(followup.value)} else {});
        ok := GenerateFeature(Ty(followup.value), false, s, pending, open + {k});
        if !ok {
          return;
        }
      }
      Leave(s, Declared(), log, pending, open + {k}, k);
      assert open + {k} - {k} == open;
      return true;
    }

    /** Generate several features in turn. */
    method GenerateAll(calls: seq<Key>, explicit: bool, ghost s: Scope, ghost pending: set<Key>, ghost open: set<Key>)
      returns (ok: bool)
      requires Valid() && IsPlan(s.plan) && s.emit == emitFeatures
      requires Consistent(s, Declared(), log, pending, open)
      requires explicit || genOpts.requireDepends ==>
                 Elements(calls) * s.plan.calls.Keys <= s.limit &&
                 forall k, q :: k in Elements(calls) && k in s.plan.calls && q in pending
                                ==> k in Reach(s.plan.calls, {q})
      modifies dict.Values`declared, this`log
      ensures old(Declared()) <= Declared()
      ensures old(log) <= log
      ensures !(explicit || genOpts.requireDepends) ==> ok && Declared() == old(Declared())
      ensures ok ==> Consistent(s, Declared(), log, pending, open)
      ensures ok && (explicit || genOpts.requireDepends) ==> Elements(calls) * s.plan.calls.Keys <= Declared()
      ensures !ok ==> s.limit * s.plan.crashing != {}
      decreases s.limit - Declared(), 1
    {
      hide Consistent, IsPlan, Reach;
      for i := 0 to |calls|
        invariant Consistent(s, Declared(), log, pending, open)
        invariant old(log) <= log
        invariant old(Declared()) <= Declared()
        invariant !(explicit || genOpts.requireDepends) ==> Declared() == old(Declared())
        invariant explicit || genOpts.requireDepends ==>
                    forall j :: 0 <= j < i && calls[j] in s.plan.calls ==> calls[j] in Declared()
      {
        assert calls[i] in Elements(calls);
        ok := GenerateFeature(calls[i], explicit, s, pending, open);
        if !ok {
          return;
        }
      }
      return true;
    }

    /** Generate what the <require> tags of one version or extension ask for. */
    method GenerateRequiredInterface(tags: seq<Block>, ghost s: Scope) returns (ok: bool)
      requires Valid() && IsPlan(s.plan) && s.emit == emitFeatures
      requires Consistent(s, Declared(), log, {}, {})
      requires TagRoots(tags, genOpts, groupdict) * s.plan.calls.Keys <= s.limit
      modifies dict.Values`declared, this`log
      ensures ok ==> Consistent(s, Declared(), log, {}, {}) && old(Declared()) <= Declared()
      ensures ok ==> TagRoots(tags, genOpts, groupdict) * s.plan.calls.Keys <= Declared()
      ensures ok ==> forall b :: b in tags ==> ExtendsKnown(b, groupdict)
      ensures !ok ==> s.limit * s.plan.crashing != {} || exists b :: b in tags && !ExtendsKnown(b, groupdict)
    {
      hide Consistent, IsPlan, TagRoots, ExtendsKnown, ExplicitCalls;
      NoTagRoots(genOpts, groupdict);
      assert tags[..0] == [];
      for i := 0 to |tags|
        invariant Consistent(s, Declared(), log, {}, {}) && old(Declared()) <= Declared()
        invariant forall j :: 0 <= j < i ==> ExtendsKnown(tags[j], groupdict)
        invariant TagRoots(tags[..i], genOpts, groupdict) * s.plan.calls.Keys <= Declared()
      {
        if !ExtendsKnown(tags[i], groupdict) {
          return false;
        }
        TagRootsNext(tags, genOpts, groupdict, i);
        ok := GenerateAll(ExplicitCalls(tags[i], genOpts, groupdict), true, s, {}, {});
        if !ok {
          return;
        }
      }
      assert tags[..|tags|] == tags;
      return true;
    }

    ghost predicate AllExtendsKnown(features: seq<Feature>) {
      forall f, b :: f in features && b in f.requireTags ==> ExtendsKnown(b, groupdict)
    }

    /** Pass 3 has dealt with the first j features. */
    ghost predicate Generated(features: seq<Feature>, j: nat, s: Scope)
      requires j <= |features|
      reads this`log, dict.Values`declared
    {
      && Consistent(s, Declared(), log, {}, {})
      && Declared() == Completed(log) == Reach(s.plan.calls, ExplicitRoots(features[..j], genOpts, groupdict))
      && AllExtendsKnown(features[..j])
      && forall i :: 0 <= i < j ==> EmittedByFirst(s.plan, genOpts, groupdict, features, i, log)
    }

    method GenerateNext(features: seq<Feature>, j: nat, ghost s: Scope) returns (ok: bool, ghost next: Scope)
      requires j < |features|
      requires Valid() && IsPlan(s.plan) && Generated(features, j, s)
      modifies dict.Values`declared, this`log, this`emitFeatures
      ensures ok ==> next.plan == s.plan && Generated(features, j + 1, next)
      ensures !ok ==> !AllExtendsKnown(features)
                      || Reach(s.plan.calls, ExplicitRoots(features, genOpts, groupdict)) * s.plan.crashing != {}
    {
      ghost var p := s.plan;
      ghost var roots := ExplicitRoots(features[..j + 1], genOpts, groupdict);
      FeatureLimits(p, genOpts, groupdict, features, j);
      next := Scope(p, Reach(p.calls, roots), log, features[j].emit);
      NextScope(s, Declared(), log, next.limit, next.emit);
      emitFeatures := features[j].emit;
      ok := GenerateRequiredInterface(features[j].requireTags, next);
      if ok {
        DeclaredIsReached(next, Declared(), log, roots);
        EmittedByNext(next, genOpts, groupdict, features, j, log);
        assert features[..j + 1] == features[..j] + [features[j]];
      }
    }

    /** Pass 3 of apiGen. */
    method GeneratePass(features: seq<Feature>, ghost p: Plan) returns (ok: bool)
      requires Valid() && IsPlan(p) && Declared() == {} && log == []
      modifies dict.Values`declared, this`log, this`emitFeatures
      // It succeeds unless an enum extends an unknown group or an alias of an enumerated type that it
      // comes upon has none.
      ensures ok <==> AllExtendsKnown(features)
                      && Reach(p.calls, ExplicitRoots(features, genOpts, groupdict)) * p.crashing == {}
      // It declares, and completes once, exactly what is reachable from the explicit requests.
      ensures ok ==> Declared() == Completed(log) == Reach(p.calls, ExplicitRoots(features, genOpts, groupdict))
      ensures ok ==> Distinct(log) && Ordered(p, log)
      ensures ok ==> forall j :: 0 <= j < |features| ==>
                EmittedByFirst(p, genOpts, groupdict, features, j, log)
    {
      ghost var s := Scope(p, {}, [], false);
      FirstScope(p);
      ReachNothing(p.calls, ExplicitRoots(features[..0], genOpts, groupdict));
      for j := 0 to |features|
        invariant s.plan == p && Generated(features, j, s)
      {
        ok, s := GenerateNext(features, j, s);
        if !ok {
          return;
        }
      }
      assert features[..|features|] == features;
      return true;
    }

    lemma PlanIsPlan()
      requires Valid()
      ensures IsPlan(PlanFor(Contents(), genOpts, groupdict, Required()))
    {
    }

    /** The three passes of apiGen, from a registry whose flags are clear. */
    method ApiGen(features: seq<Feature>) returns (ok: bool)
      requires Valid() && PassesHalt(Contents(), genOpts, features)
      requires Required() == {} && Declared() == {} && log == []
      modifies dict.Values`required, dict.Values`declared, this`log, this`emitFeatures
      // It succeeds unless passes 1 and 2 come upon a name that is not defined or an alias that does not
      // lead to a known category, or pass 3 upon an unknown group or an alias of a type without a group.
      ensures ok <==>
                && RequiringSucceeds(Contents(), features) && RemovingSucceeds(Contents(), features)
                && AllExtendsKnown(features)
                && var req := RequiredAfterMarking(Contents(), genOpts, features);
                DeclaredByGenerating(Contents(), genOpts, groupdict, features, req)
                * Crashing(Contents(), groupdict, req) == {}
      ensures ok ==> Required() == RequiredAfterMarking(Contents(), genOpts, features)
      ensures ok ==> Declared() == Completed(log)
                     == DeclaredByGenerating(Contents(), genOpts, groupdict, features, Required())
      ensures ok ==> Distinct(log)
      ensures ok ==> var p := PlanFor(Contents(), genOpts, groupdict, Required());
                     Ordered(p, log) &&
                     forall j :: 0 <= j < |features| ==>
                       EmittedByFirst(p, genOpts, groupdict, features, j, log)
    {
      hide RequiringSucceeds, RemovingSucceeds, IsPlan, Ordered, Distinct, EmittedByFirst, Completed;
      GraphsAreTheModels();
      ok := MarkPasses(features);
      if !ok {
        return;
      }
      ghost var required := Required();
      assert required == RequiredAfterMarking(Contents(), genOpts, features);
      PlanIsPlan();
      ghost var p := PlanFor(Contents(), genOpts, groupdict, required);
      ok := GeneratePass(features, p);
      forall k | k in dict
        ensures dict[k].required <==> k in required
      {
      }
    }
  }
}
