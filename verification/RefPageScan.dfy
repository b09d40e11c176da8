/** What findRefs of specification/scripts/reflib.py makes of a file, line by line. */
module RefPageScan {
  import opened Wrappers
  import ReflowText

  datatype Key = RefPageKey | DescKey | TypeKey | OtherKey

  type Attributes = seq<(Key, string)>

  datatype Generated = ApiInclude | ValidityInclude | OtherInclude

  /** Types of pages: those with a parameter section, other API types, and types without an API. */
  datatype PageType =
    | Structs
    | Protos
    | Funcpointers
    | Api(name: string)
    | NonApi(name: string)
    | Unknown(name: string)

  function PageTypeNamed(s: string): PageType {
    if s == "structs" then Structs
    else if s == "protos" then Protos
    else if s == "funcpointers" then Funcpointers
    else if s in ["basetypes", "consts", "defines", "enums", "flags", "handles"] then Api(s)
    else if s in ["builtins", "feature", "freeform", "spirv"] then NonApi(s)
    else Unknown(s)
  }

  /** What the patterns of findRefs find in a line: the markup of an open block, a `--`, an include
      (generated type, category, name), an endif, or one of the two comments. */
  datatype Kind =
    | Open(attributes: Attributes)
    | Delimiter
    | Include(generated: Generated, category: PageType)
    | Endif
    | RefBody
    | RefError
    | Other

  datatype Line = Line(text: string, kind: Kind)

  predicate Blank(l: Line) {
    forall c :: c in l.text ==> ReflowText.IsWhite(c)
  }

  /** No pattern matches a blank line. */
  ghost predicate Matched(file: seq<Line>) {
    forall i :: 0 <= i < |file| && !file[i].kind.Other? ==> !Blank(file[i])
  }

  /** The last attribute with the key counts. */
  function Attribute(attributes: Attributes, key: Key): Option<string> {
    if attributes == [] then None
    else
      var last := attributes[|attributes| - 1];
      if last.0 == key then Some(last.1) else Attribute(attributes[..|attributes| - 1], key)
  }

  /** The page an opening line starts; None if a required attribute is missing. */
  function Opened(l: Line): Option<string> {
    if l.kind.Open? && Attribute(l.kind.attributes, DescKey).Some? && Attribute(l.kind.attributes, TypeKey).Some?
    then Attribute(l.kind.attributes, RefPageKey) else None
  }

  datatype State = Outside | Start | Inside

  /** openBlockState, and the name of the page pi refers to. */
  datatype Control = Control(state: State, current: Option<string>)

  /** Before line n. */
  function At(file: seq<Line>, n: nat): Control
    requires n <= |file|
  {
    if n == 0 then Control(Outside, None)
    else
      var c, l := At(file, n - 1), file[n - 1];
      match l.kind
      case Open(_) => Control(Start, if Opened(l).Some? then Opened(l) else c.current)
      case Delimiter =>
        (match c.state
         case Outside => c
         case Start => c.(state := Inside)
         case Inside => Control(Outside, None))
      case _ => c
  }

  /** An open block starts in another one. */
  predicate Nested(file: seq<Line>, i: nat)
    requires i < |file|
  {
    file[i].kind.Open? && At(file, i).state != Outside
  }

  ghost predicate Flat(file: seq<Line>, n: nat)
    requires n <= |file|
  {
    forall i :: 0 <= i < n ==> !Nested(file, i)
  }

  /** findRefs succeeds: blocks are not nested, and that of a page is closed. */
  ghost predicate WellFormed(file: seq<Line>) {
    Flat(file, |file|) && At(file, |file|).current.None?
  }

  lemma FlatNext(file: seq<Line>, n: nat)
    requires n < |file|
    ensures Flat(file, n + 1) <==> Flat(file, n) && !Nested(file, n)
    ensures Flat(file, |file|) ==> Flat(file, n + 1)
  {
  }

  lemma {:induction false} OutsideNoPage(file: seq<Line>, n: nat)
    requires n <= |file|
    ensures At(file, n).state == Outside ==> At(file, n).current.None?
  {
    if n > 0 {
      OutsideNoPage(file, n - 1);
    }
  }

  // ----- the fields of a page -----

  datatype Field = Begin | Interface | Body | Validity | End | Type | Desc

  /** Line i sets the field of the named page. An endif just after the include moves it. */
  predicate Sets(file: seq<Line>, i: nat, name: string, f: Field)
    requires i < |file|
  {
    var l, c := file[i].kind, At(file, i);
    match f
    case Begin => l.Delimiter? && c == Control(Start, Some(name))
    case End => l.Delimiter? && c == Control(Inside, Some(name))
    case Interface =>
      && c.current == Some(name)
      && ((l.Include? && l.generated.ApiInclude?) || (l.Endif? && i > 0 && Sets(file, i - 1, name, Interface)))
    case Body => l.RefBody? && c.current == Some(name)
    case Validity => (l.RefError? || (l.Include? && l.generated.ValidityInclude?)) && c.current == Some(name)
    case Type =>
      || Opened(file[i]) == Some(name)
      || (l.Include? && !l.generated.OtherInclude? && c.current == Some(name))
    case Desc => Opened(file[i]) == Some(name)
  }

  /** The last line before n that sets the field. */
  function Last(file: seq<Line>, n: nat, name: string, f: Field): (k: Option<nat>)
    requires n <= |file|
    ensures k.Some? ==> k.value < n
  {
    if n == 0 then None
    else if Sets(file, n - 1, name, f) then Some(n - 1)
    else Last(file, n - 1, name, f)
  }

  lemma {:induction false} LastIsLast(file: seq<Line>, n: nat, name: string, f: Field)
    requires n <= |file|
    ensures match Last(file, n, name, f)
            case None => forall i :: 0 <= i < n ==> !Sets(file, i, name, f)
            case Some(k) => k < n && Sets(file, k, name, f) && forall i :: k < i < n ==> !Sets(file, i, name, f)
  {
    if n > 0 {
      LastIsLast(file, n - 1, name, f);
    }
  }

  function TypeIn(l: Line): Option<PageType> {
    match l.kind
    case Open(attributes) => ToPageType(Attribute(attributes, TypeKey))
    case Include(_, category) => Some(category)
    case _ => None
  }

  function ToPageType(s: Option<string>): Option<PageType> {
    if s.None? then None else Some(PageTypeNamed(s.value))
  }

  function DescIn(l: Line): Option<string> {
    if l.kind.Open? then Attribute(l.kind.attributes, DescKey) else None
  }

  datatype Page = Page(
    name: string, pageType: Option<PageType>, desc: Option<string>,
    begin: Option<int>, interface: Option<int>, param: Option<int>, body: Option<int>,
    validity: Option<int>, end: Option<int>, extract: bool)

  function Plus(k: Option<nat>, d: int): Option<int> {
    if k.None? then None else Some(k.value + d)
  }

  /** The page after the first n lines. */
  function PageAt(file: seq<Line>, n: nat, name: string): Page
    requires n <= |file|
  {
    var t, d := Last(file, n, name, Type), Last(file, n, name, Desc);
    Page(name,
         if t.None? then None else TypeIn(file[t.value]),
         if d.None? then None else DescIn(file[d.value]),
         Plus(Last(file, n, name, Begin), 1),
         Plus(Last(file, n, name, Interface), 0),
         None,
         Plus(Last(file, n, name, Body), 0),
         Plus(Last(file, n, name, Validity), 0),
         Plus(Last(file, n, name, End), -1),
         true)
  }

  ghost predicate Named(file: seq<Line>, n: nat, name: string)
    requires n <= |file|
  {
    exists i :: 0 <= i < n && Opened(file[i]) == Some(name)
  }

  /** In a well-formed file every page has a beginning, an end and a description. */
  lemma {:induction false} PagesAreComplete(file: seq<Line>, name: string)
    requires WellFormed(file) && Named(file, |file|, name)
    ensures var p := PageAt(file, |file|, name);
            p.begin.Some? && p.end.Some? && p.desc.Some? && p.pageType.Some?
  {
    CompleteOrCurrent(file, |file|, name);
    LastIsLast(file, |file|, name, Desc);
    LastIsLast(file, |file|, name, Type);
    var i :| 0 <= i < |file| && Opened(file[i]) == Some(name);
    assert Sets(file, i, name, Desc) && Sets(file, i, name, Type);
  }

  lemma {:induction false} CompleteOrCurrent(file: seq<Line>, n: nat, name: string)
    requires n <= |file| && Flat(file, n)
    ensures var c, begun := At(file, n), Last(file, n, name, Begin).Some?;
            && (Named(file, n, name) ==> c.current == Some(name) || (begun && Last(file, n, name, End).Some?))
            && (c == Control(Inside, Some(name)) ==> begun)
  {
    if n > 0 {
      CompleteOrCurrent(file, n - 1, name);
      OutsideNoPage(file, n - 1);
      assert !Nested(file, n - 1);
      if Named(file, n, name) && !Named(file, n - 1, name) {
        assert Opened(file[n - 1]) == Some(name);
      }
    }
  }

  // ----- a page opened once -----

  function NextDelimiter(file: seq<Line>, i: nat): (d: nat)
    requires i <= |file|
    ensures i <= d <= |file|
    ensures d < |file| ==> file[d].kind.Delimiter?
    ensures forall j :: i <= j < d ==> !file[j].kind.Delimiter?
    decreases |file| - i
  {
    if i == |file| || file[i].kind.Delimiter? then i else NextDelimiter(file, i + 1)
  }

  /** Line o, and no other, opens the page. */
  ghost predicate OpenedOnce(file: seq<Line>, name: string, o: nat) {
    && o < |file| && Opened(file[o]) == Some(name)
    && forall i :: 0 <= i < |file| && Opened(file[i]) == Some(name) ==> i == o
  }

  /** Between two lines that neither open nor delimit a block nothing happens to the control. */
  lemma {:induction false} Steady(file: seq<Line>, a: nat, b: nat)
    requires WellFormed(file) && a <= b <= |file|
    requires At(file, a).state != Outside
    requires forall i :: a <= i < b ==> !file[i].kind.Delimiter?
    ensures At(file, b) == At(file, a)
  {
    if a < b {
      Steady(file, a, b - 1);
      assert !Nested(file, b - 1);
    }
  }

  lemma {:induction false} NotBefore(file: seq<Line>, n: nat, name: string)
    requires n <= |file| && !Named(file, n, name)
    ensures At(file, n).current != Some(name)
  {
    if n > 0 {
      forall i | 0 <= i < n - 1
        ensures Opened(file[i]) != Some(name)
      {
      }
      assert !Named(file, n - 1, name);
      assert Opened(file[n - 1]) != Some(name);
      NotBefore(file, n - 1, name);
    }
  }

  lemma {:induction false} NotAfter(file: seq<Line>, m: nat, n: nat, name: string)
    requires m <= n <= |file| && At(file, m).current != Some(name)
    requires forall i :: m <= i < n ==> Opened(file[i]) != Some(name)
    ensures At(file, n).current != Some(name)
  {
    if m < n {
      NotAfter(file, m, n - 1, name);
    }
  }

  /** The lines at which pi is a page opened once: from its opening line to its second delimiter. */
  lemma BlockOf(file: seq<Line>, name: string, o: nat)
    requires WellFormed(file) && OpenedOnce(file, name, o)
    ensures var first := NextDelimiter(file, o + 1);
            && first < |file|
            && var second := NextDelimiter(file, first + 1);
            && second < |file|
            && (forall i :: o < i <= first ==> At(file, i) == Control(Start, Some(name)))
            && (forall i :: first < i <= second ==> At(file, i) == Control(Inside, Some(name)))
            && (forall i :: (0 <= i <= o || second < i <= |file|) ==> At(file, i).current != Some(name))
  {
    var first := NextDelimiter(file, o + 1);
    assert !Nested(file, o);
    assert At(file, o + 1) == Control(Start, Some(name));
    forall i | o < i <= first
      ensures At(file, i) == Control(Start, Some(name))
    {
      Steady(file, o + 1, i);
    }
    assert first < |file|;
    assert At(file, first + 1) == Control(Inside, Some(name));
    var second := NextDelimiter(file, first + 1);
    forall i | first < i <= second
      ensures At(file, i) == Control(Inside, Some(name))
    {
      Steady(file, first + 1, i);
    }
    assert second < |file|;
    forall i | 0 <= i <= o || second < i <= |file|
      ensures At(file, i).current != Some(name)
    {
      if i <= o {
        assert !Named(file, i, name);
        NotBefore(file, i, name);
      } else {
        assert At(file, second + 1).current.None?;
        NotAfter(file, second + 1, i, name);
      }
    }
  }

  /** The page begins after the first delimiter after its opening line and ends before the second. Its
      include, body and validity lines are the last ones of their kind up to there; so if the include is
      inside the block, begin <= include <= end. */
  lemma PageOpenedOnce(file: seq<Line>, name: string, o: nat)
    requires WellFormed(file) && OpenedOnce(file, name, o)
    ensures var p := PageAt(file, |file|, name);
            var first := NextDelimiter(file, o + 1);
            && first < |file|
            && p.begin == Some(first + 1) && p.end == Some(NextDelimiter(file, first + 1) - 1)
            && (forall f: Field :: f in {Interface, Body, Validity} ==>
                  var k := Last(file, |file|, name, f);
                  k.Some? ==> o < k.value <= p.end.value && k.value != first)
            && (p.interface.Some? ==>
                  (p.begin.value <= p.interface.value <= p.end.value <==> first < p.interface.value))
  {
    BlockOf(file, name, o);
    var first := NextDelimiter(file, o + 1);
    var second := NextDelimiter(file, first + 1);
    hide WellFormed, OpenedOnce, At;
    assert first < |file| && second < |file|;
    forall f: Field | f in {Begin, End, Interface, Body, Validity}
      ensures SetsInside(file, name, f, o, first, second)
    {
      LastInside(file, name, f, o, first, second);
    }
    DelimitersSet(file, name, o, first, second);
    assert SetsInside(file, name, Interface, o, first, second);
    assert SetsInside(file, name, Body, o, first, second);
    assert SetsInside(file, name, Validity, o, first, second);
    hide Last, Sets;
  }

  /** The line that sets the field is inside the block. */
  ghost predicate SetsInside(file: seq<Line>, name: string, f: Field, o: nat, first: nat, second: nat) {
    var k := Last(file, |file|, name, f);
    k.Some? ==> o < k.value <= second && (f in {Interface, Body, Validity} ==> k.value != first && k.value < second)
  }

  lemma LastInside(file: seq<Line>, name: string, f: Field, o: nat, first: nat, second: nat)
    requires o < first < second < |file| && file[first].kind.Delimiter? && file[second].kind.Delimiter?
    requires forall i :: (0 <= i <= o || second < i <= |file|) ==> At(file, i).current != Some(name)
    requires f in {Begin, End, Interface, Body, Validity}
    ensures SetsInside(file, name, f, o, first, second)
  {
    LastIsLast(file, |file|, name, f);
    hide At, Last;
  }

  lemma DelimitersSet(file: seq<Line>, name: string, o: nat, first: nat, second: nat)
    requires o < first < second < |file| && file[first].kind.Delimiter? && file[second].kind.Delimiter?
    requires forall i :: o < i <= first ==> At(file, i) == Control(Start, Some(name))
    requires forall i :: first < i <= second ==> At(file, i) == Control(Inside, Some(name))
    requires forall i :: o < i < second && i != first ==> !file[i].kind.Delimiter?
    requires forall i :: (0 <= i <= o || second < i <= |file|) ==> At(file, i).current != Some(name)
    ensures Last(file, |file|, name, Begin) == Some(first) && Last(file, |file|, name, End) == Some(second)
  {
    LastIsLast(file, |file|, name, Begin);
    LastIsLast(file, |file|, name, End);
    hide At, Last;
    assert Sets(file, first, name, Begin) && Sets(file, second, name, End);
  }
}
