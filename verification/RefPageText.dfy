/** Which lines of the file become which part of a reference page, in terms of blank lines and the text of the
    lines (specification/scripts/reflib.py, specification/scripts/genRef.py). */
module RefPageText {
  import opened Wrappers
  import opened RefPageScan
  import opened RefPageSections
  import ReflowText

  // ----- paragraphs -----

  /** Line i has text and follows a blank line. */
  predicate Starts(file: seq<Line>, i: int) {
    0 < i < |file| && Blank(file[i - 1]) && !Blank(file[i])
  }

  /** r is where the first paragraph after line `from` starts, or else line `end`. */
  ghost predicate IsNext(file: seq<Line>, from: int, end: int, r: int) {
    && from <= r <= end
    && (forall i :: from < i < r ==> !Starts(file, i))
    && (r < end ==> from < r && Starts(file, r))
  }

  lemma NextIsNext(file: seq<Line>, from: nat, end: int)
    requires from <= end < |file| && !Blank(file[from])
    ensures IsNext(file, from, end, Least(NextPara(file, from), end))
  {
    var b := SkipText(file, from);
    var r := SkipBlank(file, b);
    forall i | from < i < r
      ensures !Starts(file, i)
    {
      if i < b {
        assert !Blank(file[i - 1]);
      } else {
        assert Blank(file[i]) || i == |file| - 1;
      }
    }
    hide Blank;
    if r < end {
      assert b < r && Blank(file[r - 1]);
    }
  }

  /** From a line without text, at most a paragraph further on is found; this one is not past the end. */
  lemma NextFromEnd(file: seq<Line>, end: nat)
    requires end < |file|
    ensures IsNext(file, end, end, end)
  {
  }

  lemma NextBeyond(file: seq<Line>, from: nat, end: int)
    requires from < |file| && end <= from
    ensures Least(NextPara(file, from), end) == end
  {
  }

  // ----- the text that is looked for -----

  lemma {:induction false} ContainsSomewhere(s: string, part: string)
    ensures ReflowText.Contains(s, part) <==> exists k :: 0 <= k <= |s| && part <= s[k..]
  {
    if part <= s {
      assert s[0..] == s;
    } else if s != "" {
      ContainsSomewhere(s[1..], part);
      if k :| 0 <= k <= |s| && part <= s[k..] {
        assert s[0..] == s && k > 0;
        assert s[1..][k - 1..] == s[k..];
      }
      if k :| 0 <= k <= |s[1..]| && part <= s[1..][k..] {
        assert s[k + 1..] == s[1..][k..];
      }
    } else {
      assert s[0..] == s;
    }
  }

  /** The line is the text between include and members of a feature structure. */
  predicate DescribesFeature(l: Line) {
    exists k :: 0 <= k <= |l.text| && "This structure describes the following feature" <= l.text[k..]
  }

  /** The line begins a list of parameters. */
  predicate BeginsList(l: Line) {
    "  * " <= l.text || ".Parameter Descriptions" <= l.text
  }

  // ----- the sections -----

  /** The body of a page with a parameter section: the paragraph after the section, one further for a feature
      structure, and never past the end. */
  ghost predicate BodyAfterSection(file: seq<Line>, section: int, end: int, body: int)
    requires 0 <= section < |file|
  {
    if DescribesFeature(file[section])
    then exists m :: IsNext(file, section, end, m) && IsNext(file, m, end, body)
    else IsNext(file, section, end, body)
  }

  lemma BodyAfterIs(file: seq<Line>, section: nat, end: nat)
    requires section < end < |file| && !Blank(file[section])
    ensures BodyAfterSection(file, section, end, Least(BodyAfter(file, section), end))
  {
    ContainsSomewhere(file[section].text, "This structure describes the following feature");
    NextIsNext(file, section, end);
    var next := NextPara(file, section);
    var m := Least(next, end);
    if DescribesFeature(file[section]) {
      if m < end {
        assert Starts(file, m);
        NextIsNext(file, m, end);
      } else {
        NextFromEnd(file, end);
        assert NextPara(file, next) >= next;
      }
      hide IsNext, NextPara, DescribesFeature;
      assert BodyAfter(file, section) == NextPara(file, next);
      assert IsNext(file, section, end, m);
      assert IsNext(file, m, end, Least(NextPara(file, next), end));
    }
  }

  /** The sections of a page as it is found. A parameter section is kept for a structure, and otherwise if a
      list stands there; it begins with the first paragraph after the include. A marked body counts as long as
      there is no section after it, and as there is one if the page may have one. */
  lemma SectionsAre(file: seq<Line>, p: Page)
    requires ApiPage(file, p) && p.end.value < |file|
    ensures var f, api, end := Fixup(file, p), p.interface.value, p.end.value;
            exists start :: IsNext(file, api, end, start) && SectionsFrom(file, p, f, start)
  {
    var f, api, end := Fixup(file, p), p.interface.value, p.end.value;
    Sections(file, p);
    NextIsNext(file, api, end);
    var start := SectionStart(file, p);
    hide IsNext;
    if f.param.Some? && p.body.None? && start < end {
      InferredBody(file, p);
      assert Starts(file, start) by {
        NextStarts(file, api, end, start);
      }
      BodyAfterIs(file, start, end);
    }
    if f.param.Some? && p.body.Some? {
      MarkedBody(file, p);
    }
    hide Fixup, NextPara, BodyAfterSection, BodyAfter, Blank;
    assert SectionsFrom(file, p, f, start);
  }

  lemma NextStarts(file: seq<Line>, from: int, end: int, r: int)
    requires IsNext(file, from, end, r) && r < end
    ensures Starts(file, r)
  {
  }

  /** What becomes of the sections if the first paragraph after the include starts at `start`. */
  ghost predicate SectionsFrom(file: seq<Line>, p: Page, f: Page, start: int)
    requires ApiPage(file, p) && p.end.value < |file|
  {
    var end := p.end.value;
    && 0 <= start <= end && f.body.Some?
    && (f.param.Some? <==>
          p.pageType == Some(Structs) || (p.pageType in {Some(Protos), Some(Funcpointers)} && BeginsList(file[start])))
    && (f.param.Some? ==> f.param.value == start)
    && (f.param.Some? && p.body.None? && start < end ==> BodyAfterSection(file, start, end, f.body.value))
    && (f.param.Some? && p.body.None? && start == end ==> f.body.value == end)
    && (f.param.Some? && p.body.Some? ==>
          f.body.value == if p.body.value < start then start else if p.body.value > end then end else p.body.value)
    && (f.param.None? && (p.body.None? || p.pageType in {Some(Protos), Some(Funcpointers)}) ==> f.body.value == start)
    && (f.param.None? && p.body.Some? && p.pageType !in {Some(Protos), Some(Funcpointers)} ==>
          f.body.value == if p.body.value <= end then p.body.value else end)
  }

  lemma InferredBody(file: seq<Line>, p: Page)
    requires ApiPage(file, p) && p.end.value < |file| && Fixup(file, p).param.Some? && p.body.None?
    requires SectionStart(file, p) < p.end.value
    ensures Fixup(file, p).body == Some(Least(BodyAfter(file, SectionStart(file, p)), p.end.value))
  {
    hide Blank, IsParameterList;
  }

  lemma MarkedBody(file: seq<Line>, p: Page)
    requires ApiPage(file, p) && Fixup(file, p).param.Some? && p.body.Some?
    ensures var start, end, body := SectionStart(file, p), p.end.value, p.body.value;
            Fixup(file, p).body == Some(if body < start then start else if body > end then end else body)
  {
    hide Blank, IsParameterList;
  }

  // ----- the pieces -----

  /** The lines of a page with a parameter section, piece by piece: up to the section, the section under its
      heading, and the rest from the body on. */
  lemma PiecesAre(file: seq<Line>, f: Page, relocate: string -> string)
    requires Ordered(file, f) && f.param.Some? && f.begin.value <= f.param.value
    ensures var e := Emitted(file, f, relocate);
            e.Text? ==>
              && Some(e.spec) == Remapped(file[f.begin.value..f.param.value], relocate)
              && e.field.Some?
              && e.field.value.0 == (if f.pageType == Some(Structs) then "Members" else "Parameters")
              && Some(e.field.value.1) == Remapped(file[f.param.value..f.body.value], relocate)
              && (if f.body == f.interface then e.body.None?
                  else e.body.Some? && e.body == Remapped(file[f.body.value..f.end.value + 1], relocate))
  {
    hide Remapped;
  }

  /** Without one: up to the include, and the rest from the body on. */
  lemma PiecesWithoutSection(file: seq<Line>, f: Page, relocate: string -> string)
    requires Ordered(file, f) && f.param.None? && f.begin.value <= f.interface.value
    ensures var e := Emitted(file, f, relocate);
            e.Text? ==>
              && Some(e.spec) == Remapped(file[f.begin.value..f.interface.value + 1], relocate)
              && e.field.None?
              && (if f.body == f.interface then e.body.None?
                  else e.body.Some? && e.body == Remapped(file[f.body.value..f.end.value + 1], relocate))
  {
    hide Remapped;
  }

  /** The parts of a page, given its emission: the lines before the section, those of the section alone, and
      those from the paragraph after it on. */
  ghost predicate Parts(file: seq<Line>, p: Page, e: Emission, relocate: string -> string, start: nat, body: nat)
    requires ApiPage(file, p) && p.end.value < |file| && 0 <= p.begin.value
  {
    var begin, end := p.begin.value, p.end.value;
    && begin <= start <= body <= end && e.Text? && e.field.Some?
    && IsNext(file, p.interface.value, end, start)
    && (if start < end then BodyAfterSection(file, start, end, body) else body == end)
    && Some(e.spec) == Remapped(file[begin..start], relocate)
    && e.field.value.0 == (if p.pageType == Some(Structs) then "Members" else "Parameters")
    && Some(e.field.value.1) == Remapped(file[start..body], relocate)
    && (p.interface.value < end ==> e.body.Some? && e.body == Remapped(file[body..end + 1], relocate))
  }

  lemma PartsExtracted(file: seq<Line>, p: Page, relocate: string -> string) returns (start: nat, body: nat)
    requires ApiPage(file, p) && 0 <= p.begin.value <= p.interface.value && p.end.value < |file| && p.body.None?
    requires Located(Fixup(file, p))
    requires var e := Emitted(file, Fixup(file, p), relocate); e.Text? && e.field.Some?
    ensures Parts(file, p, Emitted(file, Fixup(file, p), relocate), relocate, start, body)
  {
    hide Fixup, NextPara, BodyAfterSection, Emitted, Remapped, Blank, IsNext, SectionsFrom, Parts;
    var f := Fixup(file, p);
    FixupOrders(file, p);
    FieldIsSection(file, f, relocate);
    SectionsAre(file, p);
    var s :| IsNext(file, p.interface.value, p.end.value, s) && SectionsFrom(file, p, f, s);
    FixupKeeps(file, p);
    PartsOf(file, p, f, relocate, s);
    start, body := s, f.body.value;
  }

  lemma FixupKeeps(file: seq<Line>, p: Page)
    requires ApiPage(file, p)
    ensures var f := Fixup(file, p); f.begin == p.begin && f.interface == p.interface && f.end == p.end && f.pageType == p.pageType
    ensures p.interface.value < p.end.value && Fixup(file, p).param.Some? ==> p.interface.value < Fixup(file, p).param.value
  {
    Sections(file, p);
  }

  lemma PartsOf(file: seq<Line>, p: Page, f: Page, relocate: string -> string, start: int)
    requires ApiPage(file, p) && p.end.value < |file| && 0 <= p.begin.value <= p.interface.value && p.body.None?
    requires Ordered(file, f) && f.begin == p.begin && f.interface == p.interface && f.end == p.end
    requires f.pageType == p.pageType && f.param.Some?
    requires p.interface.value < p.end.value ==> p.interface.value < f.param.value
    requires IsNext(file, p.interface.value, p.end.value, start) && SectionsFrom(file, p, f, start)
    requires Emitted(file, f, relocate).Text?
    ensures start >= 0 && f.body.value >= 0
    ensures Parts(file, p, Emitted(file, f, relocate), relocate, start, f.body.value)
  {
    hide BodyAfterSection, Emitted, Remapped, Blank, IsNext;
    PiecesAre(file, f, relocate);
  }

  /** The same from the file, for a page that is opened once and has a parameter section. */
  lemma SectionExtracted(file: seq<Line>, name: string, o: nat, relocate: string -> string)
    returns (start: nat, body: nat)
    requires WellFormed(file) && Matched(file) && OpenedOnce(file, name, o) && HasInclude(file, name)
    requires Named(file, |file|, name)
    requires var e := EmissionOf(file, name, relocate); e.Text? && e.field.Some?
    requires var p := PageAt(file, |file|, name);
             p.begin.Some? && p.begin.value <= p.interface.value && p.body.None?
    ensures var p := PageAt(file, |file|, name);
            && ApiPage(file, p) && p.end.value < |file| && 0 <= p.begin.value
            && Parts(file, p, EmissionOf(file, name, relocate), relocate, start, body)
  {
    var p := PageAt(file, |file|, name);
    IsApiPage(file, name, o);
    PageLocated(file, name);
    hide PageAt, WellFormed, OpenedOnce, Matched, Emitted, Fixup, Parts, Named, ApiPage;
    PageBounds(file, p);
    start, body := PartsExtracted(file, p, relocate);
  }

  lemma PageBounds(file: seq<Line>, p: Page)
    requires ApiPage(file, p)
    ensures 0 <= p.begin.value && p.end.value < |file|
  {
  }

  lemma FieldIsSection(file: seq<Line>, f: Page, relocate: string -> string)
    requires Located(f) && Emitted(file, f, relocate).Text?
    ensures Emitted(file, f, relocate).field.Some? ==> f.param.Some?
  {
    hide Remapped;
  }

  // ----- relocated includes -----

  /** Which line takes the place of an include, and that every other line stays. */
  lemma RelocatedLine(l: Line, path: string, rest: string, relocate: string -> string)
    requires l.text == "include::" + path + "[]" + rest
    requires forall k :: 0 <= k <= |rest| ==> !("[]" <= rest[k..])
    ensures RemapLine(l, relocate) ==
              if path == "" then None
              else if path[0] == '{' then Some(l.text)
              else Some("include::" + relocate(path) + "[]\n")
  {
    var t := l.text;
    assert |"include::"| == 9 && |"[]"| == 2;
    assert t[..9] == "include::";
    LastBracketsAre(t, path, rest, |t|);
    assert t[9..9 + |path|] == path;
  }

  lemma {:induction false} LastBracketsAre(t: string, path: string, rest: string, k: nat)
    requires t == "include::" + path + "[]" + rest && 9 + |path| <= k <= |t|
    requires forall j :: 0 <= j <= |rest| ==> !("[]" <= rest[j..])
    ensures LastBrackets(t, 9, k) == Some(9 + |path|)
    decreases k
  {
    assert |"include::"| == 9 && |"[]"| == 2 && "[]"[0] == '[' && "[]"[1] == ']';
    var n := 9 + |path|;
    if k == n {
      assert t[k..] == "[]" + rest;
    } else {
      if k >= n + 2 {
        assert t[k..] == rest[k - n - 2..];
      } else {
        assert t[k..][0] == ']';
      }
      LastBracketsAre(t, path, rest, k - 1);
    }
  }

  lemma OtherLine(l: Line, relocate: string -> string)
    requires !("include::" <= l.text) || forall k :: 9 <= k <= |l.text| ==> !("[]" <= l.text[k..])
    ensures RemapLine(l, relocate) == Some(l.text)
  {
    if "include::" <= l.text {
      assert |"include::"| == 9;
      NoBrackets(l.text, |l.text|);
    }
  }

  lemma {:induction false} NoBrackets(t: string, k: nat)
    requires 9 <= k <= |t| && forall j :: 9 <= j <= |t| ==> !("[]" <= t[j..])
    ensures LastBrackets(t, 9, k) == None
    decreases k
  {
    if k > 9 {
      NoBrackets(t, k - 1);
    }
  }

  // ----- types of pages -----

  /** The types by name: those whose include is extracted, those with a parameter section among them, those
      that are extracted as they are, and all others, which are an error. */
  lemma PageTypes(s: string)
    ensures var t := Some(PageTypeNamed(s));
            && (IsApi(t) <==> s in ["basetypes", "consts", "defines", "enums", "flags", "funcpointers", "handles",
                                    "protos", "structs"])
            && (HasParameters(t) <==> s == "funcpointers" || s == "protos" || s == "structs")
            && (t == Some(Structs) <==> s == "structs")
            && (t.value.NonApi? <==> s in ["builtins", "feature", "freeform", "spirv"])
  {
  }

  /** The latter are extracted from beginning to end, line by line, and nothing is relocated in them. */
  lemma ExtractedAsItIs(file: seq<Line>, p: Page, relocate: string -> string)
    requires Located(p) && p.pageType.Some? && p.pageType.value.NonApi?
    requires p.begin.value <= p.end.value + 1 <= |file|
    ensures var e := Emitted(file, p, relocate);
            && e.Text? && e.spec == [] && e.field.None? && e.body.Some?
            && |e.body.value| == p.end.value + 1 - p.begin.value
            && forall i :: p.begin.value <= i <= p.end.value ==> e.body.value[i - p.begin.value] == file[i].text
  {
  }

  // ----- includes and conditionals -----

  /** Line i includes the text of the page, and only endifs follow it up to line j. */
  predicate IncludedBefore(file: seq<Line>, i: int, j: int) {
    && 0 <= i <= j < |file| && file[i].kind.Include? && file[i].kind.generated.ApiInclude?
    && forall k :: i < k <= j ==> file[k].kind.Endif?
  }

  /** While a page is current its include is where the last include of its text ends, with the endifs that
      directly follow it. */
  lemma {:induction false} IncludeWithEndifs(file: seq<Line>, name: string, j: nat)
    requires j < |file| && At(file, j).current == Some(name)
    ensures Sets(file, j, name, Interface) <==> exists i :: IncludedBefore(file, i, j)
    decreases j
  {
    if file[j].kind.Include? {
      assert IncludedBefore(file, j, j) <==> file[j].kind.generated.ApiInclude?;
    } else if file[j].kind.Endif? && j > 0 {
      if file[j - 1].kind.Include? || file[j - 1].kind.Endif? {
        IncludeWithEndifs(file, name, j - 1);
        assert Sets(file, j, name, Interface) <==> Sets(file, j - 1, name, Interface);
        EndifFollows(file, j - 1, j);
      } else {
        assert !Sets(file, j - 1, name, Interface);
        assert forall i :: IncludedBefore(file, i, j) ==> i < j;
      }
    }
  }

  lemma EndifFollows(file: seq<Line>, h: nat, j: nat)
    requires h + 1 == j < |file| && file[j].kind.Endif?
    ensures (exists i :: IncludedBefore(file, i, j)) <==> (exists i :: IncludedBefore(file, i, h))
  {
    if i :| IncludedBefore(file, i, j) {
      assert IncludedBefore(file, i, h);
    }
    if i :| IncludedBefore(file, i, h) {
      assert IncludedBefore(file, i, j);
    }
  }

  // ----- the lines that a page is made of -----

  /** Line i, while the page is current, marks where its validity starts: an error marker or an include. */
  predicate MarksValidity(file: seq<Line>, i: int, name: string) {
    && 0 <= i < |file| && At(file, i).current == Some(name)
    && (file[i].kind.RefError? || (file[i].kind.Include? && file[i].kind.generated.ValidityInclude?))
  }

  predicate MarksBody(file: seq<Line>, i: int, name: string) {
    0 <= i < |file| && At(file, i).current == Some(name) && file[i].kind.RefBody?
  }

  /** The page begins after the first delimiter, and ends before the second. */
  predicate BeginsAfter(file: seq<Line>, i: int, name: string) {
    0 <= i < |file| && file[i].kind.Delimiter? && At(file, i).current == Some(name) && At(file, i).state == Start
  }

  predicate EndsBefore(file: seq<Line>, i: int, name: string) {
    0 <= i < |file| && file[i].kind.Delimiter? && At(file, i).current == Some(name) && At(file, i).state == Inside
  }

  /** Of the marks of a page the last counts, and the delimiters are not part of it. */
  lemma MarksAre(file: seq<Line>, name: string, k: int)
    ensures PageAt(file, |file|, name).validity == Some(k) <==>
              MarksValidity(file, k, name) && forall i :: k < i < |file| ==> !MarksValidity(file, i, name)
    ensures PageAt(file, |file|, name).body == Some(k) <==>
              MarksBody(file, k, name) && forall i :: k < i < |file| ==> !MarksBody(file, i, name)
    ensures PageAt(file, |file|, name).begin == Some(k + 1) <==>
              BeginsAfter(file, k, name) && forall i :: k < i < |file| ==> !BeginsAfter(file, i, name)
    ensures PageAt(file, |file|, name).end == Some(k - 1) <==>
              EndsBefore(file, k, name) && forall i :: k < i < |file| ==> !EndsBefore(file, i, name)
  {
    LastAmong(file, name, Validity, k);
    LastAmong(file, name, Body, k);
    LastAmong(file, name, Begin, k);
    LastAmong(file, name, End, k);
    SetsMarks(file, name);
    hide At, Sets, Last, MarksValidity, MarksBody, BeginsAfter, EndsBefore;
    if Last(file, |file|, name, Validity) == Some(k) {
      forall i | k < i < |file|
        ensures !MarksValidity(file, i, name)
      {
        assert !Sets(file, i, name, Validity);
      }
    }
    if Last(file, |file|, name, Body) == Some(k) {
      forall i | k < i < |file|
        ensures !MarksBody(file, i, name)
      {
        assert !Sets(file, i, name, Body);
      }
    }
    if Last(file, |file|, name, Begin) == Some(k) {
      forall i | k < i < |file|
        ensures !BeginsAfter(file, i, name)
      {
        assert !Sets(file, i, name, Begin);
      }
    }
    if Last(file, |file|, name, End) == Some(k) {
      forall i | k < i < |file|
        ensures !EndsBefore(file, i, name)
      {
        assert !Sets(file, i, name, End);
      }
    }
  }

  lemma SetsMarks(file: seq<Line>, name: string)
    ensures forall i :: MarksValidity(file, i, name) <==> 0 <= i < |file| && Sets(file, i, name, Validity)
    ensures forall i :: MarksBody(file, i, name) <==> 0 <= i < |file| && Sets(file, i, name, Body)
    ensures forall i :: BeginsAfter(file, i, name) <==> 0 <= i < |file| && Sets(file, i, name, Begin)
    ensures forall i :: EndsBefore(file, i, name) <==> 0 <= i < |file| && Sets(file, i, name, End)
  {
    hide At;
  }

  /** An opening line that names the page, or an include of its text or validity, gives it its type. */
  predicate GivesType(file: seq<Line>, i: int, name: string) {
    && 0 <= i < |file|
    && (|| Opened(file[i]) == Some(name)
        || (At(file, i).current == Some(name) && file[i].kind.Include? && !file[i].kind.generated.OtherInclude?))
  }

  /** The last of these counts: an include by its category, an opening line by its attribute. */
  lemma TypeIs(file: seq<Line>, name: string, k: int)
    requires GivesType(file, k, name) && forall i :: k < i ==> !GivesType(file, i, name)
    ensures PageAt(file, |file|, name).pageType ==
              if file[k].kind.Include? then Some(file[k].kind.category)
              else Some(PageTypeNamed(Attribute(file[k].kind.attributes, TypeKey).value))
  {
    LastAmong(file, name, Type, k);
    forall i | 0 <= i < |file|
      ensures Sets(file, i, name, Type) <==> GivesType(file, i, name)
    {
    }
    hide At, Sets, Last;
  }

  lemma LastAmong(file: seq<Line>, name: string, f: Field, k: int)
    ensures var last := Last(file, |file|, name, f);
            last.Some? && last.value == k <==>
              0 <= k < |file| && Sets(file, k, name, f) && forall i :: k < i < |file| ==> !Sets(file, i, name, f)
  {
    LastIsLast(file, |file|, name, f);
    hide Last, Sets;
    var last := Last(file, |file|, name, f);
    if 0 <= k < |file| && Sets(file, k, name, f) && last.Some? && last.value != k {
      if k < last.value {
        assert Sets(file, last.value, name, f);
      }
    }
  }
}
