/** What becomes of a file, line by line, as a pure function (specification/scripts/reflow.py): the tags it
    is given and the text that is written. */
module ReflowRun {
  import opened Wrappers
  import opened ReflowText
  import opened ReflowPara
  import opened ReflowTags
  import opened ReflowBlocks

  const DEFAULT_API := "{refpage}"

  datatype Setup = Setup(markup: Markup, margin: int, breakPeriod: bool, reflow: bool, maxvu: nat)

  /** What has been written, the paragraph being accumulated and its indents, the name for tags and the next
      tag number. */
  datatype Run = Run(
    output: seq<string>, para: seq<string>, lead: nat, hang: nat, apiName: string, next: Option<nat>)

  function FirstRun(next: Option<nat>): Run {
    Run([], [], 0, 0, DEFAULT_API, next)
  }

  /** The paragraph is given the next number: an untagged statement of a Valid Usage block. */
  predicate TakesTag(c: Setup, r: Run, vu: bool) {
    vu && r.next.Some? && r.para != [] && Taggable(r.para[0]) && r.next.value <= c.maxvu
  }

  function WithTag(c: Setup, r: Run, vu: bool): (para: seq<string>)
    ensures r.para != [] ==> para != []
  {
    if TakesTag(c, r, vu)
    then [TagLine(r.para[0], r.apiName, c.markup.paramName(r.para), r.next.value)] + r.para[1..]
    else r.para
  }

  /** The paragraph as it is written: tagged, and laid out if its block is reflowed. */
  function Laid(c: Setup, r: Run, reflowed: bool, vu: bool): seq<string> {
    var para := WithTag(c, r, vu);
    if r.para != [] && reflowed && c.reflow then Reflow(c.margin, c.breakPeriod, r.lead, r.hang, para).para else para
  }

  /** The number after the paragraph. */
  function NextNumber(c: Setup, r: Run, vu: bool): Option<nat> {
    if TakesTag(c, r, vu) then Some(r.next.value + 1) else r.next
  }

  /** The paragraph has been written, and its indents are forgotten. */
  function Flushed(c: Setup, r: Run, reflowed: bool, vu: bool): Run {
    Run(r.output + Laid(c, r, reflowed, vu), [], 0, 0, r.apiName, NextNumber(c, r, vu))
  }

  /** A line that ends the paragraph follows it unchanged. */
  function AfterEnding(c: Setup, r: Run, line: string, reflowed: bool, vu: bool): Run {
    var f := Flushed(c, r, reflowed, vu);
    f.(output := f.output + [line])
  }

  lemma EndingAfterFlushed(c: Setup, r: Run, f: Run, line: string, reflowed: bool, vu: bool)
    requires f == Flushed(c, r, reflowed, vu)
    ensures AfterEnding(c, r, line, reflowed, vu) == f.(output := f.output + [line])
  {
    hide Flushed;
  }

  /** A bullet, or less indentation, starts another paragraph. The hanging indent is set once. */
  function AfterText(c: Setup, r: Run, line: string, reflowed: bool, vu: bool): Run {
    var f := if (r.para != [] && Indent(line) < r.hang) || BeginsBullet(line) then Flushed(c, r, reflowed, vu) else r;
    Accumulated(f, line)
  }

  function Accumulated(f: Run, line: string): Run {
    if f.para == [] then f.(para := [line], lead := Indent(line), hang := Indent(line))
    else f.(para := f.para + [line], hang := if f.hang == f.lead then Indent(line) else f.hang)
  }

  /** The name for tags: that of the first include in an open block, and none after it. */
  function ApiAfter(m: Markup, stack: seq<Block>, apiName: string, line: string): string {
    match KindOf(m, line)
    case Delimiter(_) => ApiAfterBlock(stack, apiName, line)
    case Ending(_) =>
      var api := if m.endPara(line) then m.includedApi(line) else None;
      if api.Some? && apiName == DEFAULT_API then api.value else apiName
    case Plain => apiName
  }

  function ApiAfterBlock(stack: seq<Block>, apiName: string, line: string): string {
    if stack != [] && stack[|stack| - 1].delimiter == line && "--" <= line then DEFAULT_API else apiName
  }

  /** One line. Under a document title, where the credits stand, text is written as it is. */
  function AfterLine(c: Setup, stack: seq<Block>, underTitle: bool, r: Run, line: string): Run {
    var reflowed, vu := TopReflowed(stack), TopValidUsage(stack);
    var a := if KindOf(c.markup, line) == Plain && !underTitle then AfterText(c, r, line, reflowed, vu)
             else AfterEnding(c, r, line, reflowed, vu);
    a.(apiName := ApiAfter(c.markup, stack, r.apiName, line))
  }

  // The cases of AfterLine and of AfterText, for the methods that meet them one by one.

  lemma AfterDelimiter(c: Setup, stack: seq<Block>, underTitle: bool, r: Run, line: string)
    requires KindOf(c.markup, line).Delimiter?
    ensures AfterLine(c, stack, underTitle, r, line)
            == AfterEnding(c, r, line, TopReflowed(stack), TopValidUsage(stack))
               .(apiName := ApiAfterBlock(stack, r.apiName, line))
  {
  }

  lemma AfterOther(c: Setup, stack: seq<Block>, underTitle: bool, r: Run, line: string)
    requires !KindOf(c.markup, line).Delimiter?
    ensures var e := AfterEnding(c, r, line, TopReflowed(stack), TopValidUsage(stack));
            AfterLine(c, stack, underTitle, r, line) ==
              if KindOf(c.markup, line).Ending? then
                var api := c.markup.includedApi(line);
                if c.markup.endPara(line)
                then e.(apiName := if api.Some? && r.apiName == DEFAULT_API then api.value else r.apiName)
                else e
              else if underTitle then e
              else AfterText(c, r, line, TopReflowed(stack), TopValidUsage(stack))
  {
  }

  lemma NothingToWrite(c: Setup, r: Run, reflowed: bool, vu: bool)
    ensures r.para == [] ==> Flushed(c, r, reflowed, vu) == r.(lead := 0, hang := 0)
  {
  }

  lemma LineFacts(c: Setup, stack: seq<Block>, underTitle: bool, r: Run, line: string)
    ensures AfterLine(c, stack, underTitle, r, line).next.Some? <==> r.next.Some?
    ensures KindOf(c.markup, line) == Plain && !underTitle && BeginsBullet(line) ==>
              AfterLine(c, stack, underTitle, r, line).para == [line]
  {
  }

  lemma TextStarts(c: Setup, r: Run, line: string, reflowed: bool, vu: bool)
    ensures AfterText(c, r, line, reflowed, vu)
            == Accumulated(if (r.para != [] && Indent(line) < r.hang) || BeginsBullet(line)
                           then Flushed(c, r, reflowed, vu) else r, line)
    ensures BeginsBullet(line) ==> AfterText(c, r, line, reflowed, vu).para == [line]
  {
  }

  predicate UnderTitle(m: Markup, lines: seq<string>, n: nat)
    requires n <= |lines|
  {
    n > 0 && KindOf(m, lines[n - 1]) == Ending(true)
  }

  /** After n lines. */
  function RunAt(c: Setup, lines: seq<string>, next: Option<nat>, n: nat): Run
    requires n <= |lines|
  {
    if n == 0 then FirstRun(next)
    else AfterLine(c, StackAt(c.markup, lines, n - 1), UnderTitle(c.markup, lines, n - 1),
                   RunAt(c, lines, next, n - 1), lines[n - 1])
  }

  /** After the whole file, with its last paragraph. */
  function WholeRun(c: Setup, lines: seq<string>, next: Option<nat>): Run {
    var stack := StackAt(c.markup, lines, |lines|);
    Flushed(c, RunAt(c, lines, next, |lines|), TopReflowed(stack), TopValidUsage(stack))
  }
}
