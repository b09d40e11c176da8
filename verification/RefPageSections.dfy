/** The sections of a reference page (fixupRefs of specification/scripts/reflib.py), and their
    extraction (emitPage of specification/scripts/genRef.py). */
module RefPageSections {
  import opened Wrappers
  import opened RefPageScan
  import opened RefPages
  import ReflowText

  // ----- paragraphs -----

  /** The first blank line from `line` on, or else the last one of the file. */
  function SkipText(file: seq<Line>, line: nat): (r: nat)
    requires line < |file|
    ensures line <= r < |file|
    ensures forall i :: line <= i < r ==> !Blank(file[i])
    ensures r == |file| - 1 || Blank(file[r])
    decreases |file| - line
  {
    if line == |file| - 1 || Blank(file[line]) then line else SkipText(file, line + 1)
  }

  function SkipBlank(file: seq<Line>, line: nat): (r: nat)
    requires line < |file|
    ensures line <= r < |file|
    ensures forall i :: line <= i < r ==> Blank(file[i])
    ensures r == |file| - 1 || !Blank(file[r])
    decreases |file| - line
  {
    if line == |file| - 1 || !Blank(file[line]) then line else SkipBlank(file, line + 1)
  }

  function NextPara(file: seq<Line>, line: nat): (r: nat)
    requires line < |file|
    ensures line <= r < |file|
    ensures line < |file| - 1 && !Blank(file[line]) ==> line < r
  {
    SkipBlank(file, SkipText(file, line))
  }

  method FindNextPara(file: seq<Line>, start: nat) returns (line: nat)
    requires start < |file|
    ensures line == NextPara(file, start)
  {
    line := start;
    var maxLine := |file| - 1;
    while line != maxLine && !Blank(file[line])
      invariant start <= line < |file| && SkipText(file, line) == SkipText(file, start)
      decreases maxLine - line
    {
      line := line + 1;
    }
    while line != maxLine && Blank(file[line])
      invariant start <= line < |file| && SkipBlank(file, line) == NextPara(file, start)
      decreases maxLine - line
    {
      line := line + 1;
    }
  }

  /** A lower bound of 0 is as none. */
  function ClampToBlock(line: Option<int>, minline: Option<int>, maxline: int): Option<int> {
    if line.None? then line
    else if minline.Some? && minline.value != 0 && line.value < minline.value then minline
    else if line.value > maxline then Some(maxline)
    else line
  }

  // ----- fixupRefs -----

  predicate HasParameters(t: Option<PageType>) {
    t in {Some(Funcpointers), Some(Protos), Some(Structs)}
  }

  predicate IsParameterList(l: Line) {
    "  * " <= l.text || ".Parameter Descriptions" <= l.text
  }

  /** Line numbers are those of the file. */
  predicate InFile(p: Page, file: seq<Line>) {
    && (p.interface.Some? ==> 0 <= p.interface.value < |file|)
    && (p.body.Some? ==> 0 <= p.body.value < |file|)
    && (p.end.Some? ==> 0 <= p.end.value < |file|)
    && (p.begin.Some? ==> 0 <= p.begin.value)
    && p.param.None?
  }

  lemma PagesInFile(file: seq<Line>, name: string)
    ensures InFile(PageAt(file, |file|, name), file)
  {
    LastIsLast(file, |file|, name, End);
  }

  function Fixup(file: seq<Line>, p: Page): Page
    requires InFile(p, file)
  {
    if p.begin.None? || p.end.None? || (p.desc.None? && p.pageType.None?) then p.(extract := false)
    else TrimParameters(file, Clamped(LocateSections(file, p)))
  }

  function LocateSections(file: seq<Line>, p: Page): (q: Page)
    requires InFile(p, file)
    ensures q == p.(param := q.param, body := q.body)
    ensures q.param.Some? ==> 0 <= q.param.value < |file|
  {
    if p.interface.None? then p
    else
      var next := NextPara(file, p.interface.value);
      if HasParameters(p.pageType) then
        p.(param := Some(next), body := if p.body.Some? then p.body else Some(BodyAfter(file, next)))
      else
        p.(body := if p.body.Some? then p.body else Some(next))
  }

  function BodyAfter(file: seq<Line>, param: nat): (body: nat)
    requires param < |file|
    ensures param <= body < |file|
  {
    var next := NextPara(file, param);
    if ReflowText.Contains(file[param].text, "This structure describes the following feature") then NextPara(file, next) else next
  }

  function Clamped(p: Page): Page
    requires p.end.Some?
  {
    var param := ClampToBlock(p.param, p.interface, p.end.value);
    p.(param := param, body := ClampToBlock(p.body, param, p.end.value))
  }

  /** A parameter section that is no list is none. */
  function TrimParameters(file: seq<Line>, p: Page): Page
    requires p.param.Some? ==> 0 <= p.param.value < |file|
  {
    if p.pageType in {Some(Funcpointers), Some(Protos)} && p.param.Some? && !IsParameterList(file[p.param.value])
    then p.(body := p.param, param := None)
    else p
  }

  lemma NothingToLocate(file: seq<Line>, p: Page)
    requires InFile(p, file) && p.interface.None?
    ensures LocateSections(file, p) == p
  {
  }

  method LocateParts(file: seq<Line>, pi: PageInfo)
    requires InFile(pi.View(), file) && pi.interface.Some?
    modifies pi
    ensures pi.View() == LocateSections(file, old(pi.View()))
  {
    hide NextPara, ReflowText.Contains;
    if HasParameters(pi.pageType) {
      var param := FindNextPara(file, pi.interface.value);
      pi.param := Some(param);
      if pi.body.None? {
        var body := FindNextPara(file, param);
        if ReflowText.Contains(file[param].text, "This structure describes the following feature") {
          body := FindNextPara(file, body);
        }
        pi.body := Some(body);
      }
    } else if pi.body.None? {
      var body := FindNextPara(file, pi.interface.value);
      pi.body := Some(body);
    }
  }

  method FixupPage(file: seq<Line>, pi: PageInfo)
    requires InFile(pi.View(), file)
    modifies pi
    ensures pi.View() == Fixup(file, old(pi.View()))
  {
    hide LocateSections, IsParameterList;
    if pi.begin.None? || pi.end.None? || (pi.desc.None? && pi.pageType.None?) {
      pi.extract := false;
      return;
    }
    if pi.interface.Some? {
      LocateParts(file, pi);
    } else {
      NothingToLocate(file, pi.View());
    }
    pi.param := ClampToBlock(pi.param, pi.interface, pi.end.value);
    pi.body := ClampToBlock(pi.body, pi.param, pi.end.value);
    if pi.pageType in {Some(Funcpointers), Some(Protos)} && pi.param.Some? && !IsParameterList(file[pi.param.value]) {
      pi.body := pi.param;
      pi.param := None;
    }
  }

  ghost predicate AllFixedUp(file: seq<Line>, said: map<string, Page>, now: map<string, Page>, names: set<string>)
    requires forall name :: name in said ==> InFile(said[name], file)
  {
    && now.Keys == said.Keys
    && forall name :: name in said ==> now[name] == if name in names then Fixup(file, said[name]) else said[name]
  }

  lemma FixUpOne(
      file: seq<Line>, said: map<string, Page>, now: map<string, Page>, names: set<string>,
      name: string)
    requires forall name :: name in said ==> InFile(said[name], file)
    requires AllFixedUp(file, said, now, names) && name in said && name !in names
    ensures now[name] == said[name]
    ensures AllFixedUp(file, said, now[name := Fixup(file, said[name])], names + {name})
  {
  }

  /** The pages are distinct objects, so their order does not matter. After findRefs every page has an
      end, so none is looked for inside another. */
  method FixupRefs(file: seq<Line>, pages: map<string, PageInfo>, ghost said: map<string, Page>)
    returns (ghost now: map<string, Page>)
    requires Shows(pages, said)
    requires forall name :: name in said ==> InFile(said[name], file)
    modifies pages.Values
    ensures Shows(pages, now) && AllFixedUp(file, said, now, said.Keys)
  {
    now := said;
    var todo := pages.Keys;
    while todo != {}
      invariant todo <= pages.Keys
      invariant Shows(pages, now) && AllFixedUp(file, said, now, said.Keys - todo)
      decreases todo
    {
      var name :| name in todo;
      FixUpOne(file, said, now, said.Keys - todo, name);
      assert said.Keys - todo + {name} == said.Keys - (todo - {name});
      now := FixupOf(file, pages, now, name);
      todo := todo - {name};
    }
    assert said.Keys - todo == said.Keys;
  }

  method FixupOf(file: seq<Line>, pages: map<string, PageInfo>, ghost said: map<string, Page>, name: string)
    returns (ghost now: map<string, Page>)
    requires Shows(pages, said) && name in pages && InFile(said[name], file)
    modifies pages[name]
    ensures now == said[name := Fixup(file, said[name])] && Shows(pages, now)
  {
    forall other | other in pages && other != name
      ensures pages[other] != pages[name]
    {
      assert pages[other].View() == said[other] && pages[name].View() == said[name];
    }
    FixupPage(file, pages[name]);
    now := said[name := Fixup(file, said[name])];
  }

  /** fixupRefs infers the body of the page, or overrides the one it has. */
  predicate InfersBody(p: Page) {
    p.body.None? || p.pageType in {Some(Funcpointers), Some(Protos)}
  }

  /** The paragraph after the include, or else the end of the page. */
  function SectionStart(file: seq<Line>, p: Page): int
    requires p.interface.Some? && 0 <= p.interface.value < |file| && p.end.Some?
  {
    Least(NextPara(file, p.interface.value), p.end.value)
  }

  function Least(a: int, b: int): int {
    if a <= b then a else b
  }

  /** A parameter section remains: always for structures, otherwise if a list stands there. */
  predicate HasSection(file: seq<Line>, p: Page)
    requires p.interface.Some? && 0 <= p.interface.value < |file| && p.end.Some? && 0 <= p.end.value < |file|
  {
    HasParameters(p.pageType) && (p.pageType.value != Structs ==> IsParameterList(file[SectionStart(file, p)]))
  }

  /** Where the body begins, if there is no parameter section. */
  function BodyStart(file: seq<Line>, p: Page): int
    requires p.interface.Some? && 0 <= p.interface.value < |file| && p.end.Some?
  {
    if InfersBody(p) then SectionStart(file, p) else Least(p.body.value, p.end.value)
  }

  /** Where the sections lie. */
  lemma Sections(file: seq<Line>, p: Page)
    requires InFile(p, file) && p.begin.Some? && p.end.Some? && p.desc.Some? && p.interface.Some?
    requires p.interface.value <= p.end.value && p.interface.value + 1 < |file| && !Blank(file[p.interface.value])
    ensures var f, start := Fixup(file, p), SectionStart(file, p);
            && f == p.(param := f.param, body := f.body) && f.body.Some?
            && p.interface.value <= start <= p.end.value
            && (p.interface.value < p.end.value ==> p.interface.value < start)
            && (f.param.Some? <==> HasSection(file, p))
            && (HasSection(file, p) ==> f.param == Some(start) && start <= f.body.value <= p.end.value)
            && (!HasSection(file, p) ==> f.body == Some(BodyStart(file, p)))
  {
    var q := LocateSections(file, p);
    Locations(file, p);
    hide LocateSections, NextPara, Blank, IsParameterList, BodyAfter, HasParameters;
    var c := Clamped(q);
    ClampedSections(file, p, q);
    hide Clamped;
    assert TrimParameters(file, c) == Fixup(file, p);
  }

  /** What is found before any clamping. */
  lemma Locations(file: seq<Line>, p: Page)
    requires InFile(p, file) && p.interface.Some?
    requires p.interface.value + 1 < |file| && !Blank(file[p.interface.value])
    ensures var q, next := LocateSections(file, p), NextPara(file, p.interface.value);
            && p.interface.value < next && q.body.Some?
            && q.param == (if HasParameters(p.pageType) then Some(next) else None)
            && (p.body.Some? ==> q.body == p.body)
            && (p.body.None? ==> if HasParameters(p.pageType) then next <= q.body.value else q.body.value == next)
  {
    hide Blank;
  }

  lemma ClampedSections(file: seq<Line>, p: Page, q: Page)
    requires InFile(p, file) && p.end.Some? && p.interface.Some? && p.interface.value <= p.end.value
    requires q == p.(param := q.param, body := q.body) && q.body.Some?
    requires p.interface.value < NextPara(file, p.interface.value)
    requires q.param.Some? ==> q.param.value == NextPara(file, p.interface.value)
    requires q.param.None? && p.body.None? ==> q.body.value == NextPara(file, p.interface.value)
    requires p.body.Some? ==> q.body == p.body
    requires p.body.None? && q.param.Some? ==> q.param.value <= q.body.value
    ensures var c, start := Clamped(q), SectionStart(file, p);
            && c == p.(param := c.param, body := c.body) && c.body.Some?
            && p.interface.value <= start <= p.end.value
            && (p.interface.value < p.end.value ==> p.interface.value < start)
            && (if q.param.Some? then c.param == Some(start) && start <= c.body.value <= p.end.value
                else c.param.None? && c.body.value ==
                       if p.body.None? then start else Least(p.body.value, p.end.value))
  {
    hide NextPara;
  }

  // ----- emitPage -----

  predicate IsApi(t: Option<PageType>) {
    t.Some? && !t.value.NonApi? && !t.value.Unknown?
  }

  /** Position of the last `[]` of the text, not before `from`. */
  function LastBrackets(text: string, from: nat, k: nat): (r: Option<nat>)
    requires from <= k <= |text|
    ensures r.Some? ==> from <= r.value <= k && "[]" <= text[r.value..]
    decreases k
  {
    if "[]" <= text[k..] then Some(k) else if k == from then None else LastBrackets(text, from, k - 1)
  }

  function IncludePath(text: string): Option<string> {
    if "include::" <= text then
      var k := LastBrackets(text, 9, |text|);
      if k.None? then None else Some(text[9..k.value])
    else None
  }

  /** The path of an include is relocated unless it starts with an attribute; an empty one is an error. */
  function RemapLine(l: Line, relocate: string -> string): Option<string> {
    var path := IncludePath(l.text);
    if path.None? then Some(l.text)
    else if path.value == "" then None
    else if path.value[0] != '{' then Some("include::" + relocate(path.value) + "[]\n")
    else Some(l.text)
  }

  function Both<T>(a: Option<seq<T>>, b: Option<seq<T>>): Option<seq<T>> {
    if a.Some? && b.Some? then Some(a.value + b.value) else None
  }

  /** Line for line. */
  function Remapped(lines: seq<Line>, relocate: string -> string): (r: Option<seq<string>>)
    ensures r.Some? ==> |r.value| == |lines|
  {
    if lines == [] then Some([])
    else
      var last := RemapLine(lines[|lines| - 1], relocate);
      Both(Remapped(lines[..|lines| - 1], relocate), if last.None? then None else Some([last.value]))
  }

  lemma BothTogether<T>(a: Option<seq<T>>, b: Option<seq<T>>, c: Option<seq<T>>)
    ensures Both(Both(a, b), c) == Both(a, Both(b, c))
  {
    if a.Some? && b.Some? && c.Some? {
      assert a.value + b.value + c.value == a.value + (b.value + c.value);
    }
  }

  lemma {:induction false} RemappedTogether(a: seq<Line>, b: seq<Line>, relocate: string -> string)
    ensures Remapped(a + b, relocate) == Both(Remapped(a, relocate), Remapped(b, relocate))
    decreases |b|
  {
    if b == [] {
      assert a + b == a;
      var r := Remapped(a, relocate);
      assert r.Some? ==> r.value + [] == r.value;
    } else {
      var b' := b[..|b| - 1];
      assert (a + b)[..|a + b| - 1] == a + b';
      RemappedTogether(a, b', relocate);
      var last := RemapLine(b[|b| - 1], relocate);
      BothTogether(Remapped(a, relocate), Remapped(b', relocate), if last.None? then None else Some([last.value]));
    }
  }

  method RemapIncludes(lines: seq<Line>, relocate: string -> string) returns (r: Option<seq<string>>)
    ensures r == Remapped(lines, relocate)
  {
    var newLines: seq<string> := [];
    for i := 0 to |lines|
      invariant Remapped(lines[..i], relocate) == Some(newLines)
    {
      assert lines[..i + 1][..i] == lines[..i];
      RemappedTogether(lines[..i + 1], lines[i + 1..], relocate);
      assert lines[..i + 1] + lines[i + 1..] == lines;
      var path := IncludePath(lines[i].text);
      if path.None? {
        newLines := newLines + [lines[i].text];
      } else if path.value == "" {
        return None;
      } else if path.value[0] != '{' {
        newLines := newLines + ["include::" + relocate(path.value) + "[]\n"];
      } else {
        newLines := newLines + [lines[i].text];
      }
    }
    assert lines[..|lines|] == lines;
    return Some(newLines);
  }

  /** lines[a:b] */
  function Slice(lines: seq<Line>, a: int, b: int): (r: seq<Line>)
    requires 0 <= a && 0 <= b
    ensures a <= b <= |lines| ==> r == lines[a..b]
    ensures b < a ==> r == []
  {
    var top := if b <= |lines| then b else |lines|;
    if a <= top then lines[a..top] else []
  }

  datatype Emission =
    | Nothing
    | UnknownType
    | BadInclude
    | Text(spec: seq<string>, field: Option<(string, seq<string>)>, body: Option<seq<string>>)

  /** What fixupRefs guarantees for a page to extract. */
  predicate Located(p: Page) {
    && p.begin.Some? && p.end.Some? && 0 <= p.begin.value && 0 <= p.end.value
    && (p.interface.Some? ==> p.body.Some? && 0 <= p.interface.value && 0 <= p.body.value)
    && (p.param.Some? ==> 0 <= p.param.value && HasParameters(p.pageType))
  }

  lemma FixupLocates(file: seq<Line>, p: Page)
    requires InFile(p, file) && p.extract && Fixup(file, p).extract
    ensures Located(Fixup(file, p))
  {
    hide NextPara, BodyAfter, IsParameterList;
  }

  function Heading(t: Option<PageType>): string {
    if t == Some(Structs) then "Members" else "Parameters"
  }

  method EmitPage(file: seq<Line>, pi: PageInfo, relocate: string -> string) returns (r: Emission)
    requires Located(pi.View())
    ensures r == Emitted(file, pi.View(), relocate)
  {
    hide Remapped, Slice, Texts;
    if IsApi(pi.pageType) {
      if pi.interface.None? {
        return Nothing;
      }
      var end := if pi.param.None? then pi.interface.value + 1 else pi.param.value;
      var spec := RemapIncludes(Slice(file, pi.begin.value, end), relocate);
      if spec.None? {
        return BadInclude;
      }
      var field := None;
      if pi.param.Some? {
        var lines := RemapIncludes(Slice(file, pi.param.value, pi.body.value), relocate);
        if lines.None? {
          return BadInclude;
        }
        field := Some((Heading(pi.pageType), lines.value));
      }
      if pi.body == pi.interface {
        return Text(spec.value, field, None);
      }
      var text := RemapIncludes(Slice(file, pi.body.value, pi.end.value + 1), relocate);
      return if text.None? then BadInclude else Text(spec.value, field, text);
    } else if pi.pageType.Some? && pi.pageType.value.NonApi? {
      return Text([], None, Some(Texts(Slice(file, pi.begin.value, pi.end.value + 1))));
    } else {
      return UnknownType;
    }
  }

  function Texts(lines: seq<Line>): (r: seq<string>) {
    seq(|lines|, i requires 0 <= i < |lines| => lines[i].text)
  }

  function Emitted(file: seq<Line>, p: Page, relocate: string -> string): Emission
    requires Located(p)
  {
    if IsApi(p.pageType) then
      if p.interface.None? then Nothing
      else
        var end := if p.param.None? then p.interface.value + 1 else p.param.value;
        var spec := Remapped(Slice(file, p.begin.value, end), relocate);
        var field := if p.param.None? then Some([])
                     else Remapped(Slice(file, p.param.value, p.body.value), relocate);
        var body := if p.body == p.interface then Some([])
                    else Remapped(Slice(file, p.body.value, p.end.value + 1), relocate);
        if spec.None? || field.None? || body.None? then BadInclude
        else
          Text(spec.value,
               if p.param.None? then None
               else Some((Heading(p.pageType), field.value)),
               if p.body == p.interface then None else body)
    else if p.pageType.Some? && p.pageType.value.NonApi? then
      Text([], None, Some(Texts(Slice(file, p.begin.value, p.end.value + 1))))
    else UnknownType
  }

  /** The pieces of an API page, in order. */
  function Pieces(e: Emission): seq<string>
    requires e.Text?
  {
    e.spec + (if e.field.Some? then e.field.value.1 else []) + (if e.body.Some? then e.body.value else [])
  }

  /** The include is not after the end of the page. It may stand before the beginning, but not on the line
      just before it, where the delimiter is. */
  ghost predicate ApiPage(file: seq<Line>, p: Page) {
    && InFile(p, file) && p.extract
    && p.begin.Some? && p.end.Some? && p.desc.Some? && IsApi(p.pageType) && p.interface.Some?
    && p.begin.value <= p.end.value + 1
    && p.interface.value <= p.end.value && p.interface.value + 1 < |file|
    && (p.interface.value < p.begin.value ==> p.interface.value + 1 < p.begin.value && p.body != p.interface)
    && !Blank(file[p.interface.value])
  }

  /** The sections of a page are in order. */
  ghost predicate Ordered(file: seq<Line>, f: Page) {
    && Located(f) && IsApi(f.pageType) && f.interface.Some?
    && f.begin.value <= f.end.value + 1 && f.interface.value <= f.end.value < |file|
    && f.body.value <= f.end.value
    && (f.param.Some? ==> f.interface.value <= f.param.value <= f.body.value)
    && (f.interface.value < f.begin.value ==> f.body != f.interface)
  }

  lemma FixupOrders(file: seq<Line>, p: Page)
    requires ApiPage(file, p)
    ensures var f := Fixup(file, p);
            && f.begin == p.begin && f.interface == p.interface && f.end == p.end && Ordered(file, f)
            && (f.param.Some? && p.interface.value < p.end.value ==> f.interface.value < f.param.value)
  {
    Sections(file, p);
    FixupLocates(file, p);
    hide NextPara, IsParameterList, Fixup, Blank, SectionStart, HasSection, Located;
  }

  function Whole(file: seq<Line>, f: Page, relocate: string -> string): Option<seq<string>>
    requires Ordered(file, f)
  {
    Remapped(file[f.begin.value..f.end.value + 1], relocate)
  }

  ghost predicate ExtractedWhole(file: seq<Line>, f: Page, relocate: string -> string)
    requires Ordered(file, f)
  {
    var e, whole := Emitted(file, f, relocate), Whole(file, f, relocate);
    if whole.None? then e == BadInclude
    else e.Text? && Pieces(e) == whole.value
  }

  /** With a parameter section that does not begin before the page, the pieces are exactly the lines of the
      page, remapped; unless its body is the line of the include, which is then lost. */
  lemma WholePage(file: seq<Line>, f: Page, relocate: string -> string)
    requires Ordered(file, f) && f.param.Some?
    ensures f.begin.value <= f.param.value && f.body != f.interface ==> ExtractedWhole(file, f, relocate)
    ensures var e, whole := Emitted(file, f, relocate), Whole(file, f, relocate);
            e.Text? && whole.Some? ==>
              (Pieces(e) == whole.value <==> f.begin.value <= f.param.value && f.body != f.interface)
  {
    hide Remapped, Slice;
    if f.begin.value <= f.param.value {
      ThreeSlices(file, f.begin.value, f.param.value, f.body.value, f.end.value + 1, relocate);
    }
  }

  lemma TwoSlices(file: seq<Line>, a: nat, b: nat, c: nat, relocate: string -> string)
    requires a <= b <= c <= |file|
    ensures Both(Remapped(Slice(file, a, b), relocate), Remapped(Slice(file, b, c), relocate))
            == Remapped(file[a..c], relocate)
  {
    RemappedTogether(file[a..b], file[b..c], relocate);
    assert file[a..b] + file[b..c] == file[a..c];
  }

  lemma ThreeSlices(file: seq<Line>, a: nat, b: nat, c: nat, d: nat, relocate: string -> string)
    requires a <= b <= c <= d <= |file|
    ensures Both(Both(Remapped(Slice(file, a, b), relocate), Remapped(Slice(file, b, c), relocate)),
                 Remapped(Slice(file, c, d), relocate))
            == Remapped(file[a..d], relocate)
  {
    TwoSlices(file, a, b, c, relocate);
    TwoSlices(file, a, c, d, relocate);
  }

  /** The body directly follows the include, or the beginning of the page if that comes later; or there is
      nothing after the include. */
  predicate Adjoining(begin: int, api: int, body: int, end: int) {
    if body == api then api == end else body == if begin <= api then api + 1 else begin
  }

  /** Without one the lines between the include and the body are lost: what is extracted is the page
      if and only if there are none. */
  lemma PageWithoutParameters(file: seq<Line>, f: Page, relocate: string -> string)
    requires Ordered(file, f) && f.param.None?
    ensures var e, whole := Emitted(file, f, relocate), Whole(file, f, relocate);
            e.Text? && whole.Some? ==>
              (Pieces(e) == whole.value <==>
                 Adjoining(f.begin.value, f.interface.value, f.body.value, f.end.value))
  {
    hide Remapped, Slice;
    TwoPieces(file, f.begin.value, f.interface.value, f.body.value, f.end.value + 1, relocate);
  }

  lemma TwoPieces(file: seq<Line>, begin: nat, api: nat, body: nat, after: nat, relocate: string -> string)
    requires begin <= after && api < after <= |file| && body < after && (api < begin ==> body != api)
    ensures var spec := Remapped(Slice(file, begin, api + 1), relocate);
            var text := if body == api then Some([]) else Remapped(Slice(file, body, after), relocate);
            var whole := Remapped(file[begin..after], relocate);
            spec.Some? && text.Some? && whole.Some? ==>
              (spec.value + text.value == whole.value <==> Adjoining(begin, api, body, after - 1))
  {
    hide Remapped, Slice;
    var spec := Remapped(Slice(file, begin, api + 1), relocate);
    var text := if body == api then Some([]) else Remapped(Slice(file, body, after), relocate);
    var whole := Remapped(file[begin..after], relocate);
    var same := Adjoining(begin, api, body, after - 1);
    if same {
      AdjoiningPieces(file, begin, api, body, after, relocate);
    }
    if spec.Some? && text.Some? && whole.Some? {
      assert same ==> spec.value + text.value == whole.value;
      SameOrDifferent(spec.value, text.value, whole.value, same);
    }
  }

  lemma AdjoiningPieces(file: seq<Line>, begin: nat, api: nat, body: nat, after: nat, relocate: string -> string)
    requires begin <= after && api < after <= |file| && body < after && (api < begin ==> body != api)
    requires Adjoining(begin, api, body, after - 1)
    ensures Both(Remapped(Slice(file, begin, api + 1), relocate),
                 if body == api then Some([]) else Remapped(Slice(file, body, after), relocate))
            == Remapped(file[begin..after], relocate)
  {
    hide Remapped;
    var whole := Remapped(file[begin..after], relocate);
    if body == api {
      assert Slice(file, begin, api + 1) == file[begin..after];
      assert whole.Some? ==> whole.value + [] == whole.value;
    } else if begin <= api {
      TwoSlices(file, begin, api + 1, after, relocate);
    } else {
      assert Slice(file, begin, api + 1) == [] && Slice(file, body, after) == file[begin..after];
      NothingRemapped(relocate);
      assert whole.Some? ==> [] + whole.value == whole.value;
    }
  }

  lemma NothingRemapped(relocate: string -> string)
    ensures Remapped([], relocate) == Some([])
  {
  }

  lemma SameOrDifferent(a: seq<string>, b: seq<string>, c: seq<string>, same: bool)
    requires if same then a + b == c else |a| + |b| != |c|
    ensures a + b == c <==> same
  {
  }

  /** Nothing can get lost between include and body: the page ends with the line after its include, or
      its body is marked there. */
  predicate BodyAtInclude(p: Page)
    requires p.interface.Some? && p.end.Some?
  {
    var next := p.interface.value + 1;
    if InfersBody(p) then p.end.value == next
    else p.body.value == next || (p.end.value == next && p.body.value > next)
  }

  lemma BodyFollows(file: seq<Line>, p: Page)
    requires ApiPage(file, p) && Fixup(file, p).param.None? && p.end.value + 1 < |file|
    ensures p.interface.value < p.end.value ==>
              (Fixup(file, p).body.value == p.interface.value + 1 <==> BodyAtInclude(p))
  {
    Sections(file, p);
    if InfersBody(p) && p.interface.value < p.end.value {
      NextParaSkips(file, p.interface.value);
    }
    hide Fixup, NextPara;
  }

  /** Before the end of the file the next paragraph never begins on the very next line. */
  lemma NextParaSkips(file: seq<Line>, line: nat)
    requires line + 2 < |file| && !Blank(file[line])
    ensures NextPara(file, line) >= line + 2
  {
    if Blank(file[line + 1]) {
      assert SkipText(file, line + 1) == line + 1;
    }
  }

  /** Everything on the page is extracted, once. */
  ghost predicate NothingLost(file: seq<Line>, p: Page)
    requires ApiPage(file, p)
  {
    var begin, api, end := p.begin.value, p.interface.value, p.end.value;
    if HasSection(file, p) then begin <= SectionStart(file, p) && api < end
    else Adjoining(begin, api, BodyStart(file, p), end)
  }

  /** With the include before the last line there must be a parameter section, or nothing between include
      and body. On the last line there must be neither a section nor a body before it. */
  lemma NothingLostInside(file: seq<Line>, p: Page)
    requires ApiPage(file, p) && p.begin.value <= p.interface.value && p.end.value + 1 < |file|
    ensures p.interface.value < p.end.value ==>
              (NothingLost(file, p) <==> HasSection(file, p) || BodyAtInclude(p))
    ensures p.interface.value == p.end.value ==>
              (NothingLost(file, p) <==>
                 && p.pageType != Some(Structs)
                 && (p.pageType in {Some(Funcpointers), Some(Protos)} ==> !IsParameterList(file[p.interface.value]))
                 && (InfersBody(p) || p.body.value >= p.interface.value))
  {
    Sections(file, p);
    if !HasSection(file, p) {
      BodyFollows(file, p);
    }
    hide Fixup, NextPara, Blank;
  }

  /** What is extracted of an API page is the page exactly if nothing is lost. */
  lemma PageExtracted(file: seq<Line>, p: Page, relocate: string -> string)
    requires ApiPage(file, p)
    ensures var f := Fixup(file, p);
            && Ordered(file, f)
            && (HasSection(file, p) && NothingLost(file, p) ==> ExtractedWhole(file, f, relocate))
            && var e, whole := Emitted(file, f, relocate), Whole(file, f, relocate);
            e.Text? && whole.Some? ==> (Pieces(e) == whole.value <==> NothingLost(file, p))
  {
    FixupOrders(file, p);
    Sections(file, p);
    var f := Fixup(file, p);
    hide Emitted, Fixup, NextPara, IsParameterList;
    if f.param.Some? {
      WholePage(file, f, relocate);
    } else {
      PageWithoutParameters(file, f, relocate);
    }
  }

  /** From the file to the page: what is extracted of a page opened once is what stands between its
      delimiters, exactly if nothing is lost. The include may stand anywhere before the second delimiter. */
  lemma BlockExtracted(file: seq<Line>, name: string, o: nat, relocate: string -> string)
    requires WellFormed(file) && Matched(file) && OpenedOnce(file, name, o) && HasInclude(file, name)
    ensures ApiPage(file, PageAt(file, |file|, name))
    ensures var p := PageAt(file, |file|, name);
            var f, first := Fixup(file, p), NextDelimiter(file, o + 1);
            && Ordered(file, f) && first < |file|
            && f.begin.value == first + 1 && f.end.value == NextDelimiter(file, first + 1) - 1
            && (HasSection(file, p) && NothingLost(file, p) ==> ExtractedWhole(file, f, relocate))
            && var e, whole := Emitted(file, f, relocate), Whole(file, f, relocate);
            e.Text? && whole.Some? ==> (Pieces(e) == whole.value <==> NothingLost(file, p))
    ensures var p := PageAt(file, |file|, name);
            && (p.begin.value <= p.interface.value < p.end.value ==>
                  (NothingLost(file, p) <==> HasSection(file, p) || BodyAtInclude(p)))
            && (p.begin.value <= p.interface.value == p.end.value ==>
                  (NothingLost(file, p) <==> !HasSection(file, p) && InfersBody(p)))
  {
    var p := PageAt(file, |file|, name);
    IsApiPage(file, name, o);
    PageOpenedOnce(file, name, o);
    FixupOrders(file, p);
    BlockOf(file, name, o);
    PageExtracted(file, p, relocate);
    Sections(file, p);
    if p.begin.value <= p.interface.value {
      NothingLostInside(file, p);
    }
    hide PageAt, Fixup, Emitted, Ordered, NothingLost, NextPara, WellFormed, OpenedOnce;
  }

  /** Line i has text, stands between the include and the body, and there is no parameter section. */
  ghost predicate LosesLine(file: seq<Line>, name: string, i: nat) {
    var p := PageAt(file, |file|, name);
    && ApiPage(file, p) && i < |file| && !Blank(file[i])
    && var f := Fixup(file, p);
    f.param.None? && f.interface.Some? && f.body.Some? && f.interface.value < i < f.body.value
  }

  /** A file with one page, of which the line right after the include is lost. */
  lemma LosesText()
    ensures var other := (t: string) => Line(t, Other);
            var file := [Line("[open,refpage='XrA',desc='an enum',type='enums']\n",
                              Open([(RefPageKey, "XrA"), (DescKey, "an enum"), (TypeKey, "enums")])),
                         Line("--\n", Delimiter),
                         Line("include::{generated}/api/enums/XrA.adoc[]\n", Include(ApiInclude, Api("enums"))),
                         other("More on it.\n"), other("\n"), other("Body.\n"), Line("--\n", Delimiter)];
            WellFormed(file) && Matched(file) && OpenedOnce(file, "XrA", 0) && LosesLine(file, "XrA", 3)
  {
    var other := (t: string) => Line(t, Other);
    var opening := [(RefPageKey, "XrA"), (DescKey, "an enum"), (TypeKey, "enums")];
    var file := [Line("[open,refpage='XrA',desc='an enum',type='enums']\n", Open(opening)),
                 Line("--\n", Delimiter),
                 Line("include::{generated}/api/enums/XrA.adoc[]\n", Include(ApiInclude, Api("enums"))),
                 other("More on it.\n"), other("\n"), other("Body.\n"), Line("--\n", Delimiter)];
    hide WellFormed, OpenedOnce, LosesLine, Blank, Attribute, Matched;
    EndsBlack(file[0]);
    EndsBlack(file[1]);
    EndsBlack(file[2]);
    EndsBlack(file[3]);
    EndsBlack(file[6]);
    ThreeAttributes("XrA", "an enum", "enums");
    LineAfterInclude(file, "XrA");
  }

  /** A file with one page, of a structure whose include is the last line of its block: nothing is left. */
  lemma DropsInclude(relocate: string -> string)
    ensures var file := [Line("[open,refpage='XrS',desc='a structure',type='structs']\n",
                              Open([(RefPageKey, "XrS"), (DescKey, "a structure"), (TypeKey, "structs")])),
                         Line("--\n", Delimiter),
                         Line("include::{generated}/api/structs/XrS.adoc[]\n", Include(ApiInclude, Structs)),
                         Line("--\n", Delimiter)];
            && WellFormed(file) && Matched(file) && OpenedOnce(file, "XrS", 0) && Named(file, |file|, "XrS")
            && PageAt(file, |file|, "XrS").interface == PageAt(file, |file|, "XrS").end
            && EmissionOf(file, "XrS", relocate) == Text([], Some(("Members", [])), None)
  {
    var opening := [(RefPageKey, "XrS"), (DescKey, "a structure"), (TypeKey, "structs")];
    var file := [Line("[open,refpage='XrS',desc='a structure',type='structs']\n", Open(opening)),
                 Line("--\n", Delimiter),
                 Line("include::{generated}/api/structs/XrS.adoc[]\n", Include(ApiInclude, Structs)),
                 Line("--\n", Delimiter)];
    hide WellFormed, OpenedOnce, Blank, Attribute, Matched, PageAt, EmissionOf, Named;
    EndsBlack(file[0]);
    EndsBlack(file[1]);
    EndsBlack(file[2]);
    EndsBlack(file[3]);
    ThreeAttributes("XrS", "a structure", "structs");
    OnlyInclude(file, "XrS", relocate);
  }

  lemma OnlyInclude(file: seq<Line>, name: string, relocate: string -> string)
    requires |file| == 4 && OnePage(file, name, Structs) && forall i :: 0 <= i < 4 ==> !Blank(file[i])
    ensures WellFormed(file) && Matched(file) && OpenedOnce(file, name, 0) && Named(file, 4, name)
    ensures PageAt(file, 4, name).interface == PageAt(file, 4, name).end
    ensures EmissionOf(file, name, relocate) == Text([], Some(("Members", [])), None)
  {
    OnePageFound(file, name, Structs);
    var p := PageAt(file, 4, name);
    hide WellFormed, OpenedOnce, Blank, PageAt, NextPara;
    PageLocated(file, name);
    Sections(file, p);
    NothingRemapped(relocate);
    hide Fixup, Remapped;
  }

  lemma EndsBlack(l: Line)
    requires |l.text| >= 2 && !ReflowText.IsWhite(l.text[|l.text| - 2])
    ensures !Blank(l)
  {
    assert l.text[|l.text| - 2] in l.text;
  }

  lemma LineAfterInclude(file: seq<Line>, name: string)
    requires |file| == 7 && OnePage(file, name, Api("enums"))
    requires forall i :: 0 <= i < 7 && i != 4 && i != 5 ==> !Blank(file[i])
    ensures WellFormed(file) && Matched(file) && OpenedOnce(file, name, 0) && LosesLine(file, name, 3)
  {
    OnePageFound(file, name, Api("enums"));
    NextParaSkips(file, 2);
    hide WellFormed, OpenedOnce, PageAt, NextPara, Blank;
    Sections(file, PageAt(file, 7, name));
    hide Fixup;
  }

  lemma ThreeAttributes(name: string, desc: string, pageType: string)
    ensures var attributes := [(RefPageKey, name), (DescKey, desc), (TypeKey, pageType)];
            && Attribute(attributes, RefPageKey) == Some(name) && Attribute(attributes, DescKey) == Some(desc)
            && Attribute(attributes, TypeKey) == Some(pageType)
  {
    var one, two := [(RefPageKey, name)], [(RefPageKey, name), (DescKey, desc)];
    var attributes := [(RefPageKey, name), (DescKey, desc), (TypeKey, pageType)];
    assert attributes[..2] == two && two[..1] == one;
    assert Attribute(one, RefPageKey) == Some(name) && Attribute(two, RefPageKey) == Some(name);
    assert Attribute(two, DescKey) == Some(desc);
  }

  /** The file consists of the block of one page: its include, then text. */
  predicate OnePage(file: seq<Line>, name: string, pageType: PageType) {
    var n := |file| - 1;
    && n >= 3 && Opened(file[0]) == Some(name) && file[1].kind.Delimiter? && file[n].kind.Delimiter?
    && file[2].kind == Include(ApiInclude, pageType)
    && forall i :: 3 <= i < n ==> file[i].kind.Other?
  }

  lemma {:induction false} OnePageAt(file: seq<Line>, name: string, pageType: PageType, k: nat)
    requires OnePage(file, name, pageType) && k <= |file|
    ensures At(file, k) == if k == 0 || k == |file| then Control(Outside, None)
                           else Control(if k == 1 then Start else Inside, Some(name))
  {
    if k > 0 {
      OnePageAt(file, name, pageType, k - 1);
    }
  }

  lemma OnePageFound(file: seq<Line>, name: string, pageType: PageType)
    requires OnePage(file, name, pageType)
    ensures WellFormed(file) && OpenedOnce(file, name, 0) && Named(file, |file|, name)
    ensures PageAt(file, |file|, name)
            == Page(name, Some(pageType), DescIn(file[0]), Some(2), Some(2), None, None, None, Some(|file| - 2), true)
  {
    forall k: nat | k <= |file|
      ensures At(file, k) == if k == 0 || k == |file| then Control(Outside, None)
                             else Control(if k == 1 then Start else Inside, Some(name))
    {
      OnePageAt(file, name, pageType, k);
    }
    hide At;
    forall f: Field
      ensures LastIn(file, name, f)
    {
      LastIsLast(file, |file|, name, f);
      match f
      case Begin => assert Sets(file, 1, name, Begin);
      case Interface => assert Sets(file, 2, name, Interface);
      case End => assert Sets(file, |file| - 1, name, End);
      case Type => assert Sets(file, 2, name, Type);
      case Desc => assert Sets(file, 0, name, Desc);
      case _ =>
    }
    hide Last;
    assert LastIn(file, name, Begin) && LastIn(file, name, Interface) && LastIn(file, name, Body);
    assert LastIn(file, name, Validity) && LastIn(file, name, End) && LastIn(file, name, Type) && LastIn(file, name, Desc);
  }

  ghost predicate LastIn(file: seq<Line>, name: string, f: Field) {
    Last(file, |file|, name, f) ==
      match f
      case Begin => Some(1)
      case Interface => Some(2)
      case Body => None
      case Validity => None
      case End => if |file| >= 1 then Some(|file| - 1) else None
      case Type => Some(2)
      case Desc => Some(0)
  }

  /** An API page with an include. */
  ghost predicate HasInclude(file: seq<Line>, name: string) {
    var p := PageAt(file, |file|, name);
    IsApi(p.pageType) && p.interface.Some?
  }

  lemma IsApiPage(file: seq<Line>, name: string, o: nat)
    requires WellFormed(file) && Matched(file) && OpenedOnce(file, name, o) && HasInclude(file, name)
    ensures var p := PageAt(file, |file|, name);
            && ApiPage(file, p) && p.end.value + 1 < |file|
            && (p.body.Some? ==> p.body.value <= p.end.value && p.body != p.interface)
  {
    PageOpenedOnce(file, name, o);
    PagesInFile(file, name);
    assert Named(file, |file|, name);
    PagesAreComplete(file, name);
    LastIsLast(file, |file|, name, Interface);
    LastIsLast(file, |file|, name, Body);
    hide WellFormed, OpenedOnce, Blank;
  }

  /** For an inferred body only blank lines are lost exactly when one of them, or none, follows the include. */
  lemma LostLines(file: seq<Line>, p: Page)
    requires ApiPage(file, p) && Fixup(file, p).param.None?
    requires InfersBody(p)
    ensures var body, api := Fixup(file, p).body.value, p.interface.value;
            && body < |file| && (api < p.end.value ==> api < body)
            && ((forall i :: api < i < body ==> Blank(file[i])) <==>
                body <= api + 1 || Blank(file[api + 1]))
  {
    Sections(file, p);
    var api := p.interface.value;
    if Blank(file[api + 1]) {
      assert SkipText(file, api + 1) == api + 1;
      assert SkipText(file, api) == api + 1;
    }
  }

  // ----- genRef -----

  /** What becomes of a page of the file. */
  ghost function EmissionOf(file: seq<Line>, name: string, relocate: string -> string): Emission
    requires WellFormed(file) && Named(file, |file|, name)
  {
    PageLocated(file, name);
    Emitted(file, Fixup(file, PageAt(file, |file|, name)), relocate)
  }

  lemma PageLocated(file: seq<Line>, name: string)
    requires WellFormed(file) && Named(file, |file|, name)
    ensures InFile(PageAt(file, |file|, name), file)
    ensures var f := Fixup(file, PageAt(file, |file|, name)); f.extract && Located(f)
  {
    PagesAreComplete(file, name);
    PagesInFile(file, name);
    FixupLocates(file, PageAt(file, |file|, name));
  }

  /** The emission is not an exception. */
  predicate Succeeds(e: Emission) {
    !e.UnknownType? && !e.BadInclude?
  }

  lemma PagesSaid(file: seq<Line>, said: map<string, Page>)
    requires WellFormed(file) && Told(said, file, |file|)
    ensures forall name :: name in said <==> Named(file, |file|, name)
    ensures forall name :: name in said ==> said[name] == PageAt(file, |file|, name) && InFile(said[name], file)
  {
    forall name | name in said
      ensures said[name] == PageAt(file, |file|, name) && InFile(said[name], file)
    {
      assert Named(file, |file|, name);
      PageLocated(file, name);
    }
  }

  /** Extract each page, up to the first that cannot be. */
  method EmitPages(file: seq<Line>, pages: map<string, PageInfo>, relocate: string -> string, ghost now: map<string, Page>)
    returns (r: Option<map<string, Emission>>)
    requires Shows(pages, now) && forall name :: name in now ==> Located(now[name])
    ensures r.Some? <==> forall name :: name in now ==> Succeeds(Emitted(file, now[name], relocate))
    ensures r.Some? ==> r.value.Keys == now.Keys
    ensures r.Some? ==> forall name :: name in r.value ==> r.value[name] == Emitted(file, now[name], relocate)
  {
    hide Emitted, Located;
    var emissions: map<string, Emission> := map[];
    var todo := pages.Keys;
    while todo != {}
      invariant todo <= pages.Keys && emissions.Keys == pages.Keys - todo
      invariant forall name :: name in emissions ==>
                  emissions[name] == Emitted(file, now[name], relocate) && Succeeds(emissions[name])
      decreases todo
    {
      var name :| name in todo;
      assert pages[name].View() == now[name];
      var emission := EmitPage(file, pages[name], relocate);
      if emission.UnknownType? || emission.BadInclude? {
        return None;
      }
      emissions := emissions[name := emission];
      todo := todo - {name};
    }
    return Some(emissions);
  }

  /** genRef, for a build that has every page: find the pages of a file, locate their sections, extract
      each. It fails if findRefs does or some page cannot be extracted. */
  method GenPages(file: seq<Line>, relocate: string -> string) returns (r: Option<map<string, Emission>>)
    ensures r.Some? <==>
              WellFormed(file) && forall name :: Named(file, |file|, name) ==> Succeeds(EmissionOf(file, name, relocate))
    ensures r.Some? ==> forall name :: name in r.value <==> Named(file, |file|, name)
    ensures r.Some? ==> forall name :: name in r.value ==> r.value[name] == EmissionOf(file, name, relocate)
  {
    var found, said := FindRefs(file);
    if found.None? {
      return None;
    }
    PagesSaid(file, said);
    ghost var now := FixupRefs(file, found.value, said);
    FixedUpLocated(file, said, now, relocate);
    r := EmitPages(file, found.value, relocate, now);
  }

  lemma FixedUpLocated(file: seq<Line>, said: map<string, Page>, now: map<string, Page>, relocate: string -> string)
    requires WellFormed(file) && Told(said, file, |file|)
    requires forall name :: name in said ==> InFile(said[name], file)
    requires AllFixedUp(file, said, now, said.Keys)
    ensures now.Keys == said.Keys
    ensures forall name :: name in now ==>
              Named(file, |file|, name) && Located(now[name])
              && Emitted(file, now[name], relocate) == EmissionOf(file, name, relocate)
  {
    PagesSaid(file, said);
    forall name | name in now
      ensures Named(file, |file|, name) && Located(now[name])
              && Emitted(file, now[name], relocate) == EmissionOf(file, name, relocate)
    {
      PageLocated(file, name);
      assert now[name] == Fixup(file, PageAt(file, |file|, name));
    }
  }
}
