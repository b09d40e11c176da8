/** Which lines of a file make up a paragraph, how it is written, and the name in the tags it is given
    (specification/scripts/reflow.py). */
module ReflowParagraphs {
  import opened Wrappers
  import opened ReflowText
  import opened ReflowPara
  import opened ReflowTags
  import opened ReflowBlocks
  import opened ReflowRun

  /** Line k is text, and not the credits under a document title. */
  predicate IsText(m: Markup, lines: seq<string>, k: nat)
    requires k < |lines|
  {
    KindOf(m, lines[k]) == Plain && (k > 0 ==> KindOf(m, lines[k - 1]) != Ending(true))
  }

  /** Lines i to j make up one paragraph: no line but the first begins with a bullet; up to line h they are
      indented as the first one is, line h is indented further, and from there on no line is indented less
      than line h. Without such a line, h is j. */
  predicate OneParagraph(m: Markup, lines: seq<string>, i: nat, h: nat, j: nat)
    requires i < h <= j <= |lines|
  {
    && (forall k :: i <= k < j ==> IsText(m, lines, k))
    && (forall k :: i < k < j ==> !BeginsBullet(lines[k]))
    && (forall k :: i < k < h ==> Indent(lines[k]) == Indent(lines[i]))
    && (h < j ==> Indent(lines[i]) < Indent(lines[h]))
    && (forall k :: h < k < j ==> Indent(lines[h]) <= Indent(lines[k]))
  }

  /** They are accumulated, with the indents of lines i and h, and nothing is written. */
  lemma {:induction false} ParagraphRead(
    c: Setup, lines: seq<string>, next: Option<nat>, i: nat, h: nat, j: nat)
    requires i < h <= j <= |lines| && OneParagraph(c.markup, lines, i, h, j)
    requires RunAt(c, lines, next, i).para == []
    ensures RunAt(c, lines, next, j)
            == RunAt(c, lines, next, i).(para := lines[i..j], lead := Indent(lines[i]),
                                         hang := Indent(lines[if h < j then h else i]))
    decreases j
  {
    hide StackAt, KindOf, Indent, BeginsBullet, RunAt, AfterLine;
    var k := j - 1;
    var r, stack := RunAt(c, lines, next, k), StackAt(c.markup, lines, k);
    RunNext(c, lines, next, k);
    assert IsText(c.markup, lines, k);
    if j == i + 1 {
      TextBegins(c, stack, r, lines[k]);
      assert lines[i..j] == [lines[i]];
    } else {
      ParagraphRead(c, lines, next, i, if h <= k then h else k, k);
      TextJoins(c, stack, r, lines[k]);
      assert lines[i..j] == lines[i..k] + [lines[k]];
    }
  }

  lemma TextBegins(c: Setup, stack: seq<Block>, r: Run, line: string)
    requires KindOf(c.markup, line) == Plain && r.para == []
    ensures AfterLine(c, stack, false, r, line) == r.(para := [line], lead := Indent(line), hang := Indent(line))
  {
    NothingToWrite(c, r, TopReflowed(stack), TopValidUsage(stack));
    hide Flushed, BeginsBullet, Indent, KindOf;
  }

  lemma TextJoins(c: Setup, stack: seq<Block>, r: Run, line: string)
    requires KindOf(c.markup, line) == Plain && r.para != [] && !BeginsBullet(line) && r.hang <= Indent(line)
    ensures AfterLine(c, stack, false, r, line)
            == r.(para := r.para + [line], hang := if r.hang == r.lead then Indent(line) else r.hang)
  {
    hide Flushed, BeginsBullet, Indent, KindOf;
  }

  /** A bullet or a line that is indented less begins another paragraph, and the one so far is written: laid
      out with its indents, or as it is if its block is not reflowed. (In a Valid Usage block it may get a
      tag, see TagPara.) */
  lemma ParagraphEnds(c: Setup, lines: seq<string>, next: Option<nat>, j: nat)
    requires j < |lines| && IsText(c.markup, lines, j)
    requires var r := RunAt(c, lines, next, j); r.para != [] && (Indent(lines[j]) < r.hang || BeginsBullet(lines[j]))
    requires !TopValidUsage(StackAt(c.markup, lines, j)) || next.None?
    ensures var r, s := RunAt(c, lines, next, j), RunAt(c, lines, next, j + 1);
            && s.para == [lines[j]] && s.lead == s.hang == Indent(lines[j]) && s.next == r.next
            && s.output == r.output +
                 if TopReflowed(StackAt(c.markup, lines, j)) && c.reflow
                 then Reflow(c.margin, c.breakPeriod, r.lead, r.hang, r.para).para else r.para
  {
    NoNumbers(c, lines, next, j);
    hide StackAt, KindOf, Indent, BeginsBullet, Reflow, RunAt;
    var stack := StackAt(c.markup, lines, j);
    assert RunAt(c, lines, next, j + 1)
           == AfterLine(c, stack, UnderTitle(c.markup, lines, j), RunAt(c, lines, next, j), lines[j]) by {
      RunNext(c, lines, next, j);
    }
  }

  lemma RunNext(c: Setup, lines: seq<string>, next: Option<nat>, j: nat)
    requires j < |lines|
    ensures RunAt(c, lines, next, j + 1)
            == AfterLine(c, StackAt(c.markup, lines, j), UnderTitle(c.markup, lines, j), RunAt(c, lines, next, j), lines[j])
  {
  }

  lemma {:induction false} NoNumbers(c: Setup, lines: seq<string>, next: Option<nat>, j: nat)
    requires j <= |lines|
    ensures RunAt(c, lines, next, j).next.Some? <==> next.Some?
  {
    if j > 0 {
      NoNumbers(c, lines, next, j - 1);
      hide StackAt, KindOf, Laid;
      LineFacts(c, StackAt(c.markup, lines, j - 1), UnderTitle(c.markup, lines, j - 1), RunAt(c, lines, next, j - 1),
                lines[j - 1]);
      hide AfterLine;
    }
  }

  /** Any other line than text ends the paragraph in the same way, and follows it unchanged. */
  lemma OtherLineEnds(c: Setup, lines: seq<string>, next: Option<nat>, j: nat)
    requires j < |lines| && !IsText(c.markup, lines, j)
    requires !TopValidUsage(StackAt(c.markup, lines, j)) || next.None?
    ensures var r, s := RunAt(c, lines, next, j), RunAt(c, lines, next, j + 1);
            && s.para == [] && s.next == r.next
            && s.output == r.output +
                 (if r.para != [] && TopReflowed(StackAt(c.markup, lines, j)) && c.reflow
                  then Reflow(c.margin, c.breakPeriod, r.lead, r.hang, r.para).para else r.para) + [lines[j]]
  {
    NoNumbers(c, lines, next, j);
    RunNext(c, lines, next, j);
    hide StackAt, KindOf, Indent, BeginsBullet, Reflow, RunAt;
  }

  /** A file that is one paragraph of text comes out as that paragraph, laid out with the indents of its first
      line and of the first line that is indented further. */
  lemma WholeParagraph(c: Setup, lines: seq<string>, h: nat)
    requires 0 < h <= |lines| && OneParagraph(c.markup, lines, 0, h, |lines|) && c.reflow
    ensures WholeRun(c, lines, None).output
            == Reflow(c.margin, c.breakPeriod, Indent(lines[0]), Indent(lines[if h < |lines| then h else 0]), lines).para
  {
    NothingFirst();
    ParagraphRead(c, lines, None, 0, h, |lines|);
    assert forall k :: 0 <= k < |lines| ==> IsText(c.markup, lines, k);
    NoDelimiters(c.markup, lines, |lines|);
    assert RunAt(c, lines, None, 0) == FirstRun(None);
    hide RunAt, StackAt, KindOf, Indent, Reflow, BeginsBullet, OneParagraph, Flushed, FirstRun;
    assert lines[0..|lines|] == lines;
    FlushedText(c, RunAt(c, lines, None, |lines|));
    assert [] + Reflow(c.margin, c.breakPeriod, Indent(lines[0]), Indent(lines[if h < |lines| then h else 0]), lines).para
           == Reflow(c.margin, c.breakPeriod, Indent(lines[0]), Indent(lines[if h < |lines| then h else 0]), lines).para;
  }

  lemma NothingFirst()
    ensures FirstRun(None).output == [] && FirstRun(None).para == []
  {
  }

  lemma FlushedText(c: Setup, r: Run)
    requires r.para != [] && c.reflow
    ensures Flushed(c, r, true, false).output == r.output + Reflow(c.margin, c.breakPeriod, r.lead, r.hang, r.para).para
  {
    hide Reflow;
  }

  lemma {:induction false} NoDelimiters(m: Markup, lines: seq<string>, n: nat)
    requires n <= |lines| && forall k :: 0 <= k < n ==> IsText(m, lines, k)
    ensures StackAt(m, lines, n) == []
  {
    if n > 0 {
      assert IsText(m, lines, n - 1);
      NoDelimiters(m, lines, n - 1);
    }
  }

  // ----- the name in the tags -----

  /** Line k closes an open block. */
  predicate Closes(m: Markup, lines: seq<string>, k: nat)
    requires k < |lines|
  {
    && KindOf(m, lines[k]).Delimiter? && "--" <= lines[k]
    && var stack := StackAt(m, lines, k);
    stack != [] && stack[|stack| - 1].delimiter == lines[k]
  }

  /** Line k includes the prototype or structure of this name. */
  predicate Includes(m: Markup, lines: seq<string>, k: nat, name: string)
    requires k < |lines|
  {
    KindOf(m, lines[k]).Ending? && m.endPara(lines[k]) && m.includedApi(lines[k]) == Some(name)
  }

  ghost predicate NoInclude(m: Markup, lines: seq<string>, k: nat)
    requires k < |lines|
  {
    forall name :: !Includes(m, lines, k, name)
  }

  /** Closing an open block forgets the name. */
  lemma CloseForgets(c: Setup, lines: seq<string>, next: Option<nat>, k: nat)
    requires k < |lines| && Closes(c.markup, lines, k)
    ensures RunAt(c, lines, next, k + 1).apiName == DEFAULT_API
  {
    NameNext(c, lines, next, k);
    hide StackAt, KindOf, RunAt;
  }

  lemma NameNext(c: Setup, lines: seq<string>, next: Option<nat>, k: nat)
    requires k < |lines|
    ensures RunAt(c, lines, next, k + 1).apiName
            == ApiAfter(c.markup, StackAt(c.markup, lines, k), RunAt(c, lines, next, k).apiName, lines[k])
  {
    RunNext(c, lines, next, k);
    hide RunAt, StackAt, KindOf, AfterEnding, AfterText, ApiAfter;
  }

  /** Without an include the name stays forgotten ... */
  lemma {:induction false} NoNameYet(c: Setup, lines: seq<string>, next: Option<nat>, i: nat, j: nat)
    requires i <= j <= |lines| && RunAt(c, lines, next, i).apiName == DEFAULT_API
    requires forall k :: i <= k < j ==> NoInclude(c.markup, lines, k)
    ensures RunAt(c, lines, next, j).apiName == DEFAULT_API
    decreases j
  {
    hide StackAt, KindOf, RunAt, ApiAfter, NoInclude;
    if i < j {
      NoNameYet(c, lines, next, i, j - 1);
      NameNext(c, lines, next, j - 1);
      NotSet(c.markup, lines, j - 1);
    }
  }

  /** ... and the first include sets it for all lines up to the one that closes an open block. */
  lemma {:induction false} NameStays(c: Setup, lines: seq<string>, next: Option<nat>, j: nat, n: nat, name: string)
    requires j < n <= |lines| && Includes(c.markup, lines, j, name) && name != DEFAULT_API
    requires RunAt(c, lines, next, j).apiName == DEFAULT_API
    requires forall k :: j < k < n ==> !Closes(c.markup, lines, k)
    ensures RunAt(c, lines, next, n).apiName == name
    decreases n
  {
    hide StackAt, KindOf, RunAt, ApiAfter, Includes, Closes;
    NameNext(c, lines, next, n - 1);
    if n > j + 1 {
      NameStays(c, lines, next, j, n - 1, name);
      assert !Closes(c.markup, lines, n - 1);
      NameKept(c.markup, lines, n - 1, name);
    } else {
      NameSet(c.markup, lines, j, name);
    }
  }

  lemma NameKept(m: Markup, lines: seq<string>, k: nat, name: string)
    requires k < |lines| && !Closes(m, lines, k) && name != DEFAULT_API
    ensures ApiAfter(m, StackAt(m, lines, k), name, lines[k]) == name
  {
    hide StackAt, KindOf;
  }

  lemma NotSet(m: Markup, lines: seq<string>, k: nat)
    requires k < |lines| && NoInclude(m, lines, k)
    ensures ApiAfter(m, StackAt(m, lines, k), DEFAULT_API, lines[k]) == DEFAULT_API
  {
    hide StackAt, KindOf;
    var api := m.includedApi(lines[k]);
    assert api.Some? ==> !Includes(m, lines, k, api.value);
  }

  lemma NameSet(m: Markup, lines: seq<string>, k: nat, name: string)
    requires k < |lines| && Includes(m, lines, k, name)
    ensures ApiAfter(m, StackAt(m, lines, k), DEFAULT_API, lines[k]) == name
  {
    hide StackAt, KindOf;
  }

  /** The tag of a paragraph that gets one has the name and the number of that moment, and goes on to the
      next number. */
  lemma TagHasName(c: Setup, r: Run)
    requires TakesTag(c, r, true)
    ensures WithTag(c, r, true)
            == [TagLine(r.para[0], r.apiName, c.markup.paramName(r.para), r.next.value)] + r.para[1..]
    ensures Flushed(c, r, true, true).next == Some(r.next.value + 1)
    ensures !TakesTag(c, r.(next := Some(c.maxvu + 1)), true)
  {
  }
}
