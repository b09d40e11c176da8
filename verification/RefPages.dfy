/** Finding reference pages in a file, locating their sections, and extracting them
    (specification/scripts/reflib.py, specification/scripts/genRef.py). */
module RefPages {
  import opened Wrappers
  import opened RefPageScan

  // ----- findRefs -----

  function NewPage(name: string): Page {
    Page(name, None, None, None, None, None, None, None, None, true)
  }

  /** A pageInfo object. */
  class PageInfo {
    const name: string
    var pageType: Option<PageType>
    var desc: Option<string>
    var begin: Option<int>
    var interface: Option<int>
    var param: Option<int>
    var body: Option<int>
    var validity: Option<int>
    var end: Option<int>
    var extract: bool

    constructor (name: string)
      ensures View() == NewPage(name)
    {
      this.name := name;
      pageType, desc := None, None;
      begin, interface, param, body, validity, end := None, None, None, None, None, None;
      extract := true;
    }

    function View(): Page
      reads this
    {
      Page(name, pageType, desc, begin, interface, param, body, validity, end, extract)
    }
  }

  /** What the first n lines say about each page they open. */
  ghost predicate Told(said: map<string, Page>, file: seq<Line>, n: nat)
    requires n <= |file|
  {
    && (forall name {:trigger Named(file, n, name)} :: name in said <==> Named(file, n, name))
    && (forall name {:trigger PageAt(file, n, name)} :: name in said ==> said[name] == PageAt(file, n, name))
  }

  /** Each page is an object, with these fields. */
  ghost predicate Shows(pages: map<string, PageInfo>, said: map<string, Page>)
    reads pages.Values
  {
    pages.Keys == said.Keys && forall name :: name in pages ==> pages[name].View() == said[name] && said[name].name == name
  }

  lemma NamedNext(file: seq<Line>, n: nat, name: string)
    requires n < |file|
    ensures Named(file, n + 1, name) <==> Named(file, n, name) || Opened(file[n]) == Some(name)
  {
    if Opened(file[n]) == Some(name) {
      assert Named(file, n + 1, name);
    }
  }

  /** A page not page yet has nothing set. */
  lemma NothingSet(file: seq<Line>, n: nat, name: string)
    requires n <= |file| && !Named(file, n, name)
    ensures PageAt(file, n, name) == NewPage(name)
  {
    forall f: Field
      ensures Last(file, n, name, f).None?
    {
      LastIsLast(file, n, name, f);
      forall i | 0 <= i < n
        ensures !Sets(file, i, name, f)
      {
        assert Opened(file[i]) != Some(name);
        assert !Named(file, i, name);
        NotBefore(file, i, name);
      }
    }
  }

  /** A page to which pi does not refer is left alone, unless the line opens it. */
  lemma OthersStay(file: seq<Line>, n: nat, name: string)
    requires n < |file| && At(file, n).current != Some(name) && Opened(file[n]) != Some(name)
    ensures PageAt(file, n + 1, name) == PageAt(file, n, name)
  {
  }

  method FindRefs(file: seq<Line>) returns (r: Option<map<string, PageInfo>>, ghost said: map<string, Page>)
    ensures r.Some? <==> WellFormed(file)
    ensures r.Some? ==> Told(said, file, |file|) && Shows(r.value, said)
    ensures r.Some? ==> forall name :: name in r.value ==> fresh(r.value[name])
  {
    var pageMap: map<string, PageInfo> := map[];
    var openBlockState := Outside;
    var pi: PageInfo? := null;
    said := map[];
    hide PageAt;
    var line := 0;
    while line < |file|
      invariant 0 <= line <= |file|
      invariant Flat(file, line)
      invariant openBlockState == At(file, line).state
      invariant Current(pi, pageMap, file, line)
      invariant Told(said, file, line) && Shows(pageMap, said)
      invariant forall name :: name in pageMap ==> fresh(pageMap[name])
    {
      FlatNext(file, line);
      if file[line].kind.Open? {
        if openBlockState != Outside {
          return None, said;
        }
        openBlockState := Start;
        pageMap, pi, said := OpenBlock(file, line, pageMap, pi, said);
      } else {
        openBlockState, pi, said := FollowBlock(file, line, openBlockState, pi, pageMap, said);
      }
      line := line + 1;
    }
    if pi != null {
      return None, said;
    }
    return Some(pageMap), said;
  }

  /** pi is the page of the current block. */
  ghost predicate Current(pi: PageInfo?, pages: map<string, PageInfo>, file: seq<Line>, n: nat)
    requires n <= |file|
  {
    if pi == null then At(file, n).current.None?
    else At(file, n).current == Some(pi.name) && pi.name in pages && pages[pi.name] == pi
  }

  /** If no page is opened by the line, only that of the current block can change. */
  lemma ToldNext(said: map<string, Page>, file: seq<Line>, n: nat) returns (next: map<string, Page>)
    requires n < |file| && Told(said, file, n) && Opened(file[n]).None?
    ensures Told(next, file, n + 1)
    ensures var current := At(file, n).current;
            if current.Some? && current.value in said
            then said[current.value] == PageAt(file, n, current.value)
                 && next == said[current.value := PageAt(file, n + 1, current.value)]
            else next == said
  {
    hide PageAt, Named, Opened;
    next := map name | name in said :: PageAt(file, n + 1, name);
    forall name
      ensures name in next <==> Named(file, n + 1, name)
    {
      NamedNext(file, n, name);
    }
    forall name | name in said && At(file, n).current != Some(name)
      ensures next[name] == said[name]
    {
      OthersStay(file, n, name);
    }
  }

  /** A line `[open,...]`. */
  method OpenBlock(file: seq<Line>, line: nat, pages: map<string, PageInfo>, pi: PageInfo?, ghost said: map<string, Page>)
    returns (pageMap: map<string, PageInfo>, current: PageInfo?, ghost next: map<string, Page>)
    requires line < |file| && file[line].kind.Open? && At(file, line).state == Outside
    requires Told(said, file, line) && Shows(pages, said) && Current(pi, pages, file, line)
    modifies pages.Values
    ensures Told(next, file, line + 1) && Shows(pageMap, next) && Current(current, pageMap, file, line + 1)
    ensures forall name :: name in pageMap ==> fresh(pageMap[name]) || pageMap[name] in pages.Values
  {
    hide PageAt, Told, Shows, NewPage;
    OutsideNoPage(file, line);
    pageMap, current := pages, pi;
    var name, desc, pageType := ReadAttributes(file[line].kind.attributes);
    if name.None? || desc.None? || pageType.None? {
      next := ToldNext(said, file, line);
    } else {
      next := ToldOpened(said, file, line, name.value);
      ghost var was;
      pageMap, was := PageFor(pages, name.value, said);
      current := pageMap[name.value];
      assert next == was[name.value := Described(was[name.value], desc, ToPageType(pageType))];
      Describe(current, desc, ToPageType(pageType), pageMap, was);
    }
  }

  /** The page of this name, a new one if there is none. */
  method PageFor(pages: map<string, PageInfo>, name: string, ghost said: map<string, Page>)
    returns (pageMap: map<string, PageInfo>, ghost was: map<string, Page>)
    requires Shows(pages, said)
    ensures was == if name in said then said else said[name := NewPage(name)]
    ensures Shows(pageMap, was) && name in pageMap && pageMap[name].name == name
    ensures pages.Keys <= pageMap.Keys
    ensures forall other :: other in pageMap ==> fresh(pageMap[other]) || pageMap[other] in pages.Values
  {
    pageMap, was := pages, said;
    if name !in pages {
      var page := new PageInfo(name);
      pageMap, was := pages[name := page], said[name := NewPage(name)];
    }
  }

  function Described(p: Page, desc: Option<string>, pageType: Option<PageType>): Page {
    p.(desc := desc, pageType := pageType)
  }

  method Describe(
      pi: PageInfo, desc: Option<string>, pageType: Option<PageType>,
      ghost pages: map<string, PageInfo>, ghost said: map<string, Page>)
    requires Shows(pages, said) && pi.name in pages && pages[pi.name] == pi
    modifies pi
    ensures Shows(pages, said[pi.name := Described(said[pi.name], desc, pageType)])
  {
    forall name | name in pages && name != pi.name
      ensures pages[name] != pi
    {
      assert pages[name].View() == said[name];
    }
    pi.desc, pi.pageType := desc, pageType;
  }

  lemma OpenedSays(file: seq<Line>, n: nat, page: string)
    requires n < |file| && Opened(file[n]) == Some(page) && At(file, n).current.None?
    ensures PageAt(file, n + 1, page) == Described(PageAt(file, n, page), DescIn(file[n]), TypeIn(file[n]))
  {
  }

  lemma ToldOpened(said: map<string, Page>, file: seq<Line>, n: nat, page: string) returns (next: map<string, Page>)
    requires n < |file| && Opened(file[n]) == Some(page) && At(file, n).current.None? && Told(said, file, n)
    ensures Told(next, file, n + 1)
    ensures var p := if page in said then said[page] else NewPage(page);
            next == said[page := Described(p, DescIn(file[n]), TypeIn(file[n]))]
  {
    hide PageAt, Opened, At;
    next := map name | name in said.Keys + {page} :: PageAt(file, n + 1, name);
    forall name
      ensures name in next <==> Named(file, n + 1, name)
    {
      NamedNext(file, n, name);
    }
    forall name | name in said && name != page
      ensures next[name] == said[name]
    {
      OthersStay(file, n, name);
    }
    if page !in said {
      NothingSet(file, n, page);
    }
    OpenedSays(file, n, page);
  }

  /** Any other line. */
  method FollowBlock(
      file: seq<Line>, line: nat, openBlockState: State, pi: PageInfo?,
      ghost pages: map<string, PageInfo>, ghost said: map<string, Page>)
    returns (state: State, current: PageInfo?, ghost next: map<string, Page>)
    requires line < |file| && !file[line].kind.Open? && At(file, line).state == openBlockState
    requires Told(said, file, line) && Shows(pages, said) && Current(pi, pages, file, line)
    modifies pi
    ensures Told(next, file, line + 1) && Shows(pages, next)
    ensures At(file, line + 1).state == state && Current(current, pages, file, line + 1)
  {
    state, current := openBlockState, pi;
    next := ToldNext(said, file, line);
    if pi != null {
      forall name | name in pages && name != pi.name
        ensures pages[name] != pi
      {
        assert pages[name].View() == said[name];
      }
      NoteLine(file, line, openBlockState, pi);
    }
    if file[line].kind.Delimiter? {
      if openBlockState == Start {
        state := Inside;
      } else if openBlockState == Inside {
        state, current := Outside, null;
      }
    }
  }

  /** Any other line inside the block of a page. */
  method NoteLine(file: seq<Line>, line: nat, openBlockState: State, pi: PageInfo)
    requires line < |file| && !file[line].kind.Open?
    requires At(file, line) == Control(openBlockState, Some(pi.name))
    requires pi.View() == PageAt(file, line, pi.name)
    modifies pi
    ensures pi.View() == PageAt(file, line + 1, pi.name)
  {
    OutsideNoPage(file, line);
    match file[line].kind {
      case Delimiter => NoteDelimiter(file, line, openBlockState, pi);
      case Include(_, _) => NoteInclude(file, line, openBlockState, pi);
      case Endif =>
        if pi.interface == Some(line - 1) {
          pi.interface := Some(line);
        }
      case RefBody => pi.body := Some(line);
      case RefError => pi.validity := Some(line);
      case _ =>
    }
  }

  method NoteInclude(file: seq<Line>, line: nat, openBlockState: State, pi: PageInfo)
    requires line < |file| && file[line].kind.Include?
    requires At(file, line) == Control(openBlockState, Some(pi.name))
    requires pi.View() == PageAt(file, line, pi.name)
    modifies pi
    ensures pi.View() == PageAt(file, line + 1, pi.name)
  {
    var category := file[line].kind.category;
    if file[line].kind.generated == ValidityInclude {
      pi.pageType, pi.validity := Some(category), Some(line);
    } else if file[line].kind.generated == ApiInclude {
      pi.pageType, pi.interface := Some(category), Some(line);
    }
  }

  method NoteDelimiter(file: seq<Line>, line: nat, openBlockState: State, pi: PageInfo)
    requires line < |file| && file[line].kind.Delimiter? && openBlockState != Outside
    requires At(file, line) == Control(openBlockState, Some(pi.name))
    requires pi.View() == PageAt(file, line, pi.name)
    modifies pi
    ensures pi.View() == PageAt(file, line + 1, pi.name)
  {
    if openBlockState == Start {
      pi.begin := Some(line + 1);
    } else {
      pi.end := Some(line - 1);
    }
  }

  method ReadAttributes(attributes: Attributes)
    returns (name: Option<string>, desc: Option<string>, pageType: Option<string>)
    ensures name == Attribute(attributes, RefPageKey)
    ensures desc == Attribute(attributes, DescKey)
    ensures pageType == Attribute(attributes, TypeKey)
  {
    name, desc, pageType := None, None, None;
    for i := 0 to |attributes|
      invariant name == Attribute(attributes[..i], RefPageKey)
      invariant desc == Attribute(attributes[..i], DescKey)
      invariant pageType == Attribute(attributes[..i], TypeKey)
    {
      assert attributes[..i + 1][..i] == attributes[..i];
      var (key, value) := attributes[i];
      if key == RefPageKey {
        name := Some(value);
      } else if key == DescKey {
        desc := Some(value);
      } else if key == TypeKey {
        pageType := Some(value);
      }
    }
    assert attributes[..|attributes|] == attributes;
  }
}
