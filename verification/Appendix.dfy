/** The extension appendices (specification/scripts/extensionmetadocgenerator.py): in which of them the
    emitted asciidoc conditionals include an extension. */
module Appendix {
  import opened Wrappers
  import opened Sequences

  // ----- Extension.__init__ -----

  datatype Kind = Promotion | Deprecation | Obsoletion

  /** What supersedes an extension: an API version, an extension, or nothing. */
  datatype Superseding = ByVersion(version: string) | ByExtension(extension: string) | ByNothing

  datatype Status = Active | Superseded(kind: Kind, replacement: Superseding)

  datatype Attributes = Attributes(
    promotedTo: Option<string>, deprecatedBy: Option<string>, obsoletedBy: Option<string>)

  datatype Conventions = Conventions(versionPrefix: string, extensionPrefix: string)

  /** The deprecation state; None stands for the error on an unrecognized attribute value. */
  function StatusOf(a: Attributes, c: Conventions): Option<Status> {
    if a.promotedTo.Some? then Superseder(Promotion, a.promotedTo.value, c)
    else if a.deprecatedBy.Some? then Superseder(Deprecation, a.deprecatedBy.value, c)
    else if a.obsoletedBy.Some? then Superseder(Obsoletion, a.obsoletedBy.value, c)
    else Some(Active)
  }

  function Superseder(kind: Kind, value: string, c: Conventions): Option<Status> {
    if value == "" && kind != Promotion then Some(Superseded(kind, ByNothing))
    else if c.versionPrefix <= value then Some(Superseded(kind, ByVersion(value)))
    else if c.extensionPrefix <= value then Some(Superseded(kind, ByExtension(value)))
    else None
  }

  /** What a status tells of the attributes: which of them is given before the others, and whether its value
      has the prefix of a version, only that of an extension, or is empty. */
  lemma StatusMeans(a: Attributes, c: Conventions)
    ensures var s := StatusOf(a, c);
            && (s == Some(Active) <==> a.promotedTo == a.deprecatedBy == a.obsoletedBy == None)
            && (s.Some? && s.value.Superseded? ==>
                  && (s.value.kind.Promotion? <==> a.promotedTo.Some?)
                  && (s.value.kind.Obsoletion? <==> a.promotedTo == a.deprecatedBy == None)
                  && match s.value.replacement
                     case ByVersion(v) => c.versionPrefix <= v && Names(a, v)
                     case ByExtension(x) => c.extensionPrefix <= x && !(c.versionPrefix <= x) && Names(a, x)
                     case ByNothing => Names(a, "") && a.promotedTo.None?)
  {
  }

  /** The first attribute that is present has this value. */
  predicate Names(a: Attributes, value: string) {
    || a.promotedTo == Some(value)
    || (a.promotedTo.None? && a.deprecatedBy == Some(value))
    || (a.promotedTo == a.deprecatedBy == None && a.obsoletedBy == Some(value))
  }

  datatype Extension = Extension(name: string, provisional: bool, status: Status)

  /** An extension as the registry describes it. */
  datatype Source = Source(name: string, provisional: bool, attributes: Attributes)

  /** The attribute that counts: the others are ignored, whatever the warning says. */
  function Decisive(a: Attributes): Option<string> {
    if a.promotedTo.Some? then a.promotedTo else if a.deprecatedBy.Some? then a.deprecatedBy else a.obsoletedBy
  }

  /** Its value names a version or an extension, or is empty other than for a promotion. */
  predicate Recognized(a: Attributes, c: Conventions) {
    match Decisive(a)
    case None => true
    case Some(value) =>
      (value == "" && a.promotedTo.None?) || c.versionPrefix <= value || c.extensionPrefix <= value
  }

  /** es are the extensions of these sources. */
  ghost predicate Loaded(sources: seq<Source>, c: Conventions, es: seq<Extension>) {
    && |es| == |sources|
    && forall i :: 0 <= i < |es| ==>
         Some(es[i].status) == StatusOf(sources[i].attributes, c)
         && es[i].name == sources[i].name && es[i].provisional == sources[i].provisional
  }

  /** Construct all extensions; an attribute value that is not recognized is an error. */
  method LoadExtensions(sources: seq<Source>, c: Conventions) returns (r: Option<seq<Extension>>)
    ensures r.Some? <==> forall s :: s in sources ==> Recognized(s.attributes, c)
    ensures r.Some? ==> Loaded(sources, c, r.value)
  {
    var es: seq<Extension> := [];
    for i := 0 to |sources|
      invariant Loaded(sources[..i], c, es)
      invariant forall j :: 0 <= j < i ==> Recognized(sources[j].attributes, c)
    {
      var status := StatusOf(sources[i].attributes, c);
      if status.None? {
        assert sources[i] in sources;
        return None;
      }
      es := es + [Extension(sources[i].name, sources[i].provisional, status.value)];
    }
    assert sources[..|sources|] == sources;
    return Some(es);
  }

  // ----- asciidoc lines -----

  /** What a line contributes: the appendix of an extension, or the definition of an attribute. */
  datatype Content = Include(name: string) | Define(attribute: string)

  datatype Line = Ifdef(all: seq<string>) | Ifndef(name: string) | Endif | Text(content: Content)

  /** The contents that the preprocessor lets through. `open` are the conditions of the enclosing
      conditionals, innermost last. */
  function Preprocess(lines: seq<Line>, defined: set<string>, open: seq<bool>): seq<Content>
    decreases lines
  {
    if lines == [] then []
    else
      var rest := lines[1..];
      match lines[0]
      case Ifdef(all) => Preprocess(rest, defined, open + [forall n :: n in all ==> n in defined])
      case Ifndef(n) => Preprocess(rest, defined, open + [n !in defined])
      case Endif => Preprocess(rest, defined, if open == [] then [] else open[..|open| - 1])
      case Text(c) => (if false in open then [] else [c]) + Preprocess(rest, defined, open)
  }

  function Processed(lines: seq<Line>, defined: set<string>): seq<Content> {
    Preprocess(lines, defined, [])
  }

  /** Lines that contribute the same inside any conditionals, and leave those open. */
  ghost predicate Contributes(lines: seq<Line>, defined: set<string>, contents: seq<Content>) {
    forall rest: seq<Line>, open: seq<bool> ::
      Preprocess(lines + rest, defined, open)
      == (if false in open then [] else contents) + Preprocess(rest, defined, open)
  }

  lemma ContributesText(c: Content, defined: set<string>)
    ensures Contributes([Text(c)], defined, [c])
  {
    forall rest: seq<Line>, open: seq<bool>
      ensures Preprocess([Text(c)] + rest, defined, open)
              == (if false in open then [] else [c]) + Preprocess(rest, defined, open)
    {
      assert ([Text(c)] + rest)[1..] == rest;
    }
  }

  lemma ContributesNothing(defined: set<string>)
    ensures Contributes([], defined, [])
  {
    forall rest: seq<Line>, open: seq<bool>
      ensures Preprocess([] + rest, defined, open) == [] + Preprocess(rest, defined, open)
    {
      assert [] + rest == rest;
    }
  }

  function Holds(l: Line, defined: set<string>): bool
    requires l.Ifdef? || l.Ifndef?
  {
    match l
    case Ifdef(all) => forall n :: n in all ==> n in defined
    case Ifndef(n) => n !in defined
  }

  /** A conditional contributes its contents if its condition holds. */
  lemma ContributesIf(l: Line, inner: seq<Line>, defined: set<string>, contents: seq<Content>)
    requires l.Ifdef? || l.Ifndef?
    requires Contributes(inner, defined, contents)
    ensures Contributes([l] + inner + [Endif], defined, if Holds(l, defined) then contents else [])
  {
    var block := [l] + inner + [Endif];
    var shown := if Holds(l, defined) then contents else [];
    forall rest: seq<Line>, open: seq<bool>
      ensures Preprocess(block + rest, defined, open)
              == (if false in open then [] else shown) + Preprocess(rest, defined, open)
    {
      ThroughIf(l, inner, defined, contents, rest, open);
    }
    assert Contributes(block, defined, shown);
  }

  lemma ThroughIf(l: Line, inner: seq<Line>, defined: set<string>, contents: seq<Content>, rest: seq<Line>, open: seq<bool>)
    requires l.Ifdef? || l.Ifndef?
    requires Contributes(inner, defined, contents)
    ensures Preprocess([l] + inner + [Endif] + rest, defined, open)
            == (if !(false in open) && Holds(l, defined) then contents else []) + Preprocess(rest, defined, open)
  {
    var lines, tail := [l] + inner + [Endif] + rest, [Endif] + rest;
    var within := open + [Holds(l, defined)];
    assert lines[1..] == inner + tail;
    assert Preprocess(lines, defined, open) == Preprocess(inner + tail, defined, within);
    assert tail[1..] == rest && within[..|within| - 1] == open;
    assert Preprocess(tail, defined, within) == Preprocess(rest, defined, open);
    assert false in within <==> false in open || !Holds(l, defined);
  }

  lemma ContributesBoth(a: seq<Line>, b: seq<Line>, defined: set<string>, c: seq<Content>, d: seq<Content>)
    requires Contributes(a, defined, c) && Contributes(b, defined, d)
    ensures Contributes(a + b, defined, c + d)
  {
    forall rest: seq<Line>, open: seq<bool>
      ensures Preprocess(a + b + rest, defined, open)
              == (if false in open then [] else c + d) + Preprocess(rest, defined, open)
    {
      Associative(a, b, rest);
      var shown := !(false in open);
      var last := Preprocess(rest, defined, open);
      assert Preprocess(b + rest, defined, open) == (if shown then d else []) + last;
      assert Preprocess(a + (b + rest), defined, open)
             == (if shown then c else []) + Preprocess(b + rest, defined, open);
      Associative(if shown then c else [], if shown then d else [], last);
    }
  }

  lemma ContributesAlone(lines: seq<Line>, defined: set<string>, contents: seq<Content>)
    requires Contributes(lines, defined, contents)
    ensures Processed(lines, defined) == contents
  {
    assert Preprocess(lines + [], defined, []) == contents + Preprocess([], defined, []);
    assert lines + [] == lines;
  }

  // ----- conditionalExt -----

  datatype Mode = Always | WhenDefined | WhenNotDefined

  function ConditionalExt(extName: string, content: Content, mode: Mode, condition: Option<string>): seq<Line> {
    var innerdoc := [Ifdef([extName])] + [Text(content)] + [Endif];
    match mode
    case Always => innerdoc
    case WhenNotDefined =>
      if condition.Some? then [Ifndef(condition.value)] + innerdoc + [Endif] else []
    case WhenDefined =>
      if condition.Some? then [Ifdef([condition.value, extName])] + [Text(content)] + [Endif] else innerdoc
  }

  /** A missing condition counts as defined. */
  predicate Applies(mode: Mode, condition: Option<string>, defined: set<string>) {
    match mode
    case Always => true
    case WhenDefined => condition.None? || condition.value in defined
    case WhenNotDefined => condition.Some? && condition.value !in defined
  }

  lemma ConditionalContributes(
    extName: string, content: Content, mode: Mode, condition: Option<string>, defined: set<string>)
    ensures Contributes(ConditionalExt(extName, content, mode, condition), defined,
                        if extName in defined && Applies(mode, condition, defined) then [content] else [])
  {
    var text := [Text(content)];
    ContributesText(content, defined);
    ContributesIf(Ifdef([extName]), text, defined, [content]);
    match mode {
      case Always =>
      case WhenNotDefined =>
        if condition.Some? {
          var innerdoc := [Ifdef([extName])] + text + [Endif];
          ContributesIf(Ifndef(condition.value), innerdoc, defined, if extName in defined then [content] else []);
        } else {
          ContributesNothing(defined);
        }
      case WhenDefined =>
        if condition.Some? {
          ContributesIf(Ifdef([condition.value, extName]), text, defined, [content]);
        }
    }
  }

  // ----- the appendices -----

  datatype Home = Current | Deprecated | Provisional

  function Condition(e: Extension): Option<string> {
    match e.status
    case Active => None
    case Superseded(_, ByVersion(v)) => Some(v)
    case Superseded(_, ByExtension(x)) => Some(x)
    case Superseded(_, ByNothing) => None
  }

  /** Where an extension belongs: a superseded extension is deprecated once what supersedes it is
      defined (or if nothing does), and current until then. */
  function HomeOf(e: Extension, defined: set<string>): Home {
    if e.status.Active? then (if e.provisional then Provisional else Current)
    else if Condition(e).None? || Condition(e).value in defined then Deprecated
    else Current
  }

  /** The same in terms of the attributes. */
  function HomeFor(s: Source, defined: set<string>): Home {
    match Decisive(s.attributes)
    case None => if s.provisional then Provisional else Current
    case Some(value) => if value == "" || value in defined then Deprecated else Current
  }

  /** Of the three attributes the first that is present decides, in this order: promotedto, deprecatedby,
      obsoletedby. Without any, only whether the extension is provisional matters. */
  lemma HomeCases(s: Source, defined: set<string>)
    ensures var a := s.attributes;
            && (a.promotedTo == a.deprecatedBy == a.obsoletedBy == None ==>
                  HomeFor(s, defined) == if s.provisional then Provisional else Current)
            && (forall v :: a.promotedTo == Some(v) ==> HomeFor(s, defined) == SupersededHome(v, defined))
            && (forall v :: a.promotedTo == None && a.deprecatedBy == Some(v) ==>
                  HomeFor(s, defined) == SupersededHome(v, defined))
            && (forall v :: a.promotedTo == a.deprecatedBy == None && a.obsoletedBy == Some(v) ==>
                  HomeFor(s, defined) == SupersededHome(v, defined))
  {
  }

  /** Deprecated as soon as v is defined, or if there is no v, and current until then. */
  function SupersededHome(v: string, defined: set<string>): Home {
    if v in defined || v == "" then Deprecated else Current
  }

  lemma HomesAgree(s: Source, c: Conventions, e: Extension, defined: set<string>)
    requires c.versionPrefix != "" && c.extensionPrefix != ""
    requires Some(e.status) == StatusOf(s.attributes, c) && e.provisional == s.provisional
    ensures HomeOf(e, defined) == HomeFor(s, defined)
  {
    if Decisive(s.attributes) == Some("") {
      assert !(c.versionPrefix <= "") && !(c.extensionPrefix <= "");
    }
  }

  function Inhabitants(es: seq<Extension>, defined: set<string>, home: Home, content: Extension -> Content): seq<Content> {
    if es == [] then []
    else
      var e := es[|es| - 1];
      Inhabitants(es[..|es| - 1], defined, home, content)
      + (if e.name in defined && HomeOf(e, defined) == home then [content(e)] else [])
  }

  /** The extensions stand in an appendix in the order in which they are given. */
  lemma {:induction false} InhabitantAt(
    es: seq<Extension>, defined: set<string>, home: Home, content: Extension -> Content, i: nat)
    requires i < |es| && es[i].name in defined && HomeOf(es[i], defined) == home
    ensures var at := |Inhabitants(es[..i], defined, home, content)|;
            at < |Inhabitants(es, defined, home, content)| && Inhabitants(es, defined, home, content)[at] == content(es[i])
  {
    var init := es[..|es| - 1];
    if i < |init| {
      InhabitantAt(init, defined, home, content, i);
      assert init[..i] == es[..i];
    }
  }

  function Inclusion(e: Extension): Content {
    Include(e.name)
  }

  const HAS_DEPRECATED := Define("HAS_DEPRECATED_EXTENSIONS")
  const HAS_PROVISIONAL := Define("HAS_PROVISIONAL_EXTENSIONS")

  function DeprecatedGuard(e: Extension): Content {
    HAS_DEPRECATED
  }

  function ProvisionalGuard(e: Extension): Content {
    HAS_PROVISIONAL
  }

  /** The files that endFile writes to. */
  class AppendixFiles {
    var current: seq<Line>
    var deprecated: seq<Line>
    var provisional: seq<Line>
    var deprecatedGuard: seq<Line>
    var provisionalGuard: seq<Line>

    constructor ()
      ensures current == deprecated == provisional == deprecatedGuard == provisionalGuard == []
    {
      current, deprecated, provisional, deprecatedGuard, provisionalGuard := [], [], [], [], [];
    }

    /** The three appendices hold the extensions that belong there, whatever is defined. */
    ghost predicate Holding(es: seq<Extension>)
      reads this
    {
      forall defined: set<string> :: HoldingFor(es, defined)
    }

    function Appendix(home: Home): seq<Line>
      reads this
    {
      match home case Current => current case Deprecated => deprecated case Provisional => provisional
    }

    ghost predicate HoldingFor(es: seq<Extension>, defined: set<string>)
      reads this
    {
      && Contributes(current, defined, Inhabitants(es, defined, Current, Inclusion))
      && Contributes(deprecated, defined, Inhabitants(es, defined, Deprecated, Inclusion))
      && Contributes(provisional, defined, Inhabitants(es, defined, Provisional, Inclusion))
      && Contributes(deprecatedGuard, defined, Inhabitants(es, defined, Deprecated, DeprecatedGuard))
      && Contributes(provisionalGuard, defined, Inhabitants(es, defined, Provisional, ProvisionalGuard))
    }

    /** One turn of the loop of endFile. */
    method WriteExtension(e: Extension)
      modifies this
      ensures current == old(current) + Part(e, Current, Inclusion(e))
      ensures deprecated == old(deprecated) + Part(e, Deprecated, Inclusion(e))
      ensures provisional == old(provisional) + Part(e, Provisional, Inclusion(e))
      ensures deprecatedGuard == old(deprecatedGuard) + Part(e, Deprecated, HAS_DEPRECATED)
      ensures provisionalGuard == old(provisionalGuard) + Part(e, Provisional, HAS_PROVISIONAL)
    {
      var inclusion := Inclusion(e);
      if e.provisional && e.status.Active? {
        provisional := provisional + ConditionalExt(e.name, inclusion, Always, None);
        provisionalGuard := provisionalGuard + ConditionalExt(e.name, HAS_PROVISIONAL, Always, None);
      } else if e.status.Active? {
        current := current + ConditionalExt(e.name, inclusion, Always, None);
      } else {
        var condition := Condition(e);
        current := current + ConditionalExt(e.name, inclusion, WhenNotDefined, condition);
        deprecated := deprecated + ConditionalExt(e.name, inclusion, WhenDefined, condition);
        deprecatedGuard := deprecatedGuard + ConditionalExt(e.name, HAS_DEPRECATED, WhenDefined, condition);
      }
    }

    /** endFile: write all extensions, in the order given. */
    method EndFile(es: seq<Extension>)
      requires current == deprecated == provisional == deprecatedGuard == provisionalGuard == []
      modifies this
      ensures Holding(es)
    {
      assert Holding(es[..0]) by {
        forall defined: set<string>
          ensures HoldingFor(es[..0], defined)
        {
          ContributesNothing(defined);
        }
      }
      for i := 0 to |es|
        invariant Holding(es[..i])
      {
        label before:
        ghost var c, d, p, dg, pg := current, deprecated, provisional, deprecatedGuard, provisionalGuard;
        WriteExtension(es[i]);
        ghost var upTo := es[..i + 1];
        forall defined: set<string>
          ensures HoldingFor(upTo, defined)
        {
          assert old@before(HoldingFor(es[..i], defined));
          Grow(c, es, i, defined, Current, Inclusion);
          Grow(d, es, i, defined, Deprecated, Inclusion);
          Grow(p, es, i, defined, Provisional, Inclusion);
          Grow(dg, es, i, defined, Deprecated, DeprecatedGuard);
          Grow(pg, es, i, defined, Provisional, ProvisionalGuard);
        }
      }
      assert es[..|es|] == es;
    }
  }

  /** The lines that an extension puts into an appendix. */
  ghost function Part(e: Extension, home: Home, content: Content): seq<Line> {
    match home
    case Current =>
      if e.status.Active? then (if e.provisional then [] else ConditionalExt(e.name, content, Always, None))
      else ConditionalExt(e.name, content, WhenNotDefined, Condition(e))
    case Deprecated =>
      if e.status.Active? then [] else ConditionalExt(e.name, content, WhenDefined, Condition(e))
    case Provisional =>
      if e.status.Active? && e.provisional then ConditionalExt(e.name, content, Always, None) else []
  }

  /** They contribute it exactly if the extension is defined and belongs there. */
  lemma PartContributes(e: Extension, home: Home, content: Content, defined: set<string>)
    ensures Contributes(Part(e, home, content), defined,
                        if e.name in defined && HomeOf(e, defined) == home then [content] else [])
  {
    ContributesNothing(defined);
    ConditionalContributes(e.name, content, Always, None, defined);
    ConditionalContributes(e.name, content, WhenDefined, Condition(e), defined);
    ConditionalContributes(e.name, content, WhenNotDefined, Condition(e), defined);
  }

  lemma Grow(lines: seq<Line>, es: seq<Extension>, i: nat, defined: set<string>, home: Home, content: Extension -> Content)
    requires i < |es| && Contributes(lines, defined, Inhabitants(es[..i], defined, home, content))
    ensures Contributes(lines + Part(es[i], home, content(es[i])), defined,
                        Inhabitants(es[..i + 1], defined, home, content))
  {
    var e := es[i];
    assert es[..i + 1][..i] == es[..i];
    PartContributes(e, home, content(e), defined);
    ContributesBoth(lines, Part(e, home, content(e)), defined, Inhabitants(es[..i], defined, home, content),
                    if e.name in defined && HomeOf(e, defined) == home then [content(e)] else []);
  }

  // ----- the partition -----

  /** In whatever environment the files are processed: an extension is in the appendix where its
      attributes put it and in no other, if it is defined, and in none if it is not. */
  lemma Partition(
    files: AppendixFiles, sources: seq<Source>, c: Conventions, es: seq<Extension>, i: nat, defined: set<string>,
    home: Home)
    requires Loaded(sources, c, es) && files.HoldingFor(es, defined) && i < |sources|
    requires c.versionPrefix != "" && c.extensionPrefix != ""
    requires forall j, k :: 0 <= j < k < |sources| ==> sources[j].name != sources[k].name
    ensures var s := sources[i];
            multiset(Processed(files.Appendix(home), defined))[Include(s.name)]
            == if s.name in defined && HomeFor(s, defined) == home then 1 else 0
  {
    HomesAgree(sources[i], c, es[i], defined);
    assert forall j, k :: 0 <= j < k < |es| ==> es[j].name != es[k].name;
    hide HomeFor, StatusOf, HomeOf;
    ContributesAlone(files.Appendix(home), defined, Inhabitants(es, defined, home, Inclusion));
    OnceEach(es, defined, home, es[i].name);
    OnlyOne(es, i, defined, home);
  }

  /** The appendix has a place for an extension of this name. */
  ghost predicate Housed(es: seq<Extension>, defined: set<string>, home: Home, name: string) {
    exists f :: f in es && f.name == name && f.name in defined && HomeOf(f, defined) == home
  }

  lemma OnlyOne(es: seq<Extension>, i: nat, defined: set<string>, home: Home)
    requires i < |es| && forall j, k :: 0 <= j < k < |es| ==> es[j].name != es[k].name
    ensures Housed(es, defined, home, es[i].name) <==> es[i].name in defined && HomeOf(es[i], defined) == home
  {
    forall f | f in es && f.name == es[i].name
      ensures f == es[i]
    {
      var j :| 0 <= j < |es| && es[j] == f;
    }
    assert es[i] in es;
  }

  lemma {:induction false} OnceEach(es: seq<Extension>, defined: set<string>, home: Home, name: string)
    requires forall i, j :: 0 <= i < j < |es| ==> es[i].name != es[j].name
    ensures multiset(Inhabitants(es, defined, home, Inclusion))[Include(name)]
            == if Housed(es, defined, home, name) then 1 else 0
  {
    if es != [] {
      OnceEach(es[..|es| - 1], defined, home, name);
      HousedNext(es, defined, home, name);
      hide HomeOf, Housed;
    }
  }

  lemma HousedNext(es: seq<Extension>, defined: set<string>, home: Home, name: string)
    requires es != [] && forall i, j :: 0 <= i < j < |es| ==> es[i].name != es[j].name
    ensures var init, last := es[..|es| - 1], es[|es| - 1];
            var here := last.name == name && last.name in defined && HomeOf(last, defined) == home;
            && (Housed(es, defined, home, name) <==> Housed(init, defined, home, name) || here)
            && !(Housed(init, defined, home, name) && here)
  {
    hide HomeOf;
    var init, last := es[..|es| - 1], es[|es| - 1];
    assert es == init + [last];
    assert forall f :: f in init ==> f.name != last.name;
  }

  /** The guard attributes are defined exactly if the deprecated and the provisional appendix are not
      empty. */
  lemma GuardsMatch(files: AppendixFiles, es: seq<Extension>, defined: set<string>)
    requires files.HoldingFor(es, defined)
    ensures HAS_DEPRECATED == Define("HAS_DEPRECATED_EXTENSIONS") && HAS_PROVISIONAL == Define("HAS_PROVISIONAL_EXTENSIONS")
    ensures HAS_DEPRECATED in Processed(files.deprecatedGuard, defined) <==> Processed(files.deprecated, defined) != []
    ensures HAS_PROVISIONAL in Processed(files.provisionalGuard, defined) <==> Processed(files.provisional, defined) != []
  {
    ContributesAlone(files.deprecated, defined, Inhabitants(es, defined, Deprecated, Inclusion));
    ContributesAlone(files.provisional, defined, Inhabitants(es, defined, Provisional, Inclusion));
    ContributesAlone(files.deprecatedGuard, defined, Inhabitants(es, defined, Deprecated, DeprecatedGuard));
    ContributesAlone(files.provisionalGuard, defined, Inhabitants(es, defined, Provisional, ProvisionalGuard));
    GuardCounts(es, defined, Deprecated, DeprecatedGuard, HAS_DEPRECATED);
    GuardCounts(es, defined, Provisional, ProvisionalGuard, HAS_PROVISIONAL);
  }

  lemma {:induction false} GuardCounts(es: seq<Extension>, defined: set<string>, home: Home, content: Extension -> Content, guard: Content)
    requires forall e :: content(e) == guard
    ensures guard in Inhabitants(es, defined, home, content) <==> Inhabitants(es, defined, home, Inclusion) != []
  {
    if es != [] {
      GuardCounts(es[..|es| - 1], defined, home, content, guard);
    }
  }
}
