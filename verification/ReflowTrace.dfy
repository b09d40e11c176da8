/** What the lines of a file do to the text written so far, one after the other
    (specification/scripts/reflow.py). */
module ReflowTrace {
  import opened Wrappers
  import opened ReflowText
  import opened ReflowPara
  import opened ReflowTags
  import opened ReflowBlocks
  import opened Sequences

  /** The lines dealt with, the same lines with their tags, what has been written for them, the paragraph
      being accumulated, and the next tag number. */
  datatype Progress = Progress(
    source: seq<string>, tagged: seq<string>, output: seq<string>, para: seq<string>, next: nat)

  /** The words of the output are those of the tagged lines. */
  ghost predicate Balanced(p: Progress) {
    |p.tagged| == |p.source| && Words(p.output) == Words(p.tagged)
  }

  /** If the paragraph of b is a Valid Usage statement without a tag, and there is a number for it, it was
      given that. */
  ghost predicate StatementTagged(b: Progress, a: Progress, tagging: bool, maxvu: nat) {
    b.para != [] && tagging && Taggable(b.para[0]) && b.next <= maxvu ==>
      |b.source| < |a.tagged| && IsTagged(b.para[0], a.tagged[|b.source|], b.next)
  }

  /** Writing only adds, and numbers are not used again. */
  ghost predicate Onward(b: Progress, a: Progress) {
    b.source <= a.source && b.tagged <= a.tagged && b.output <= a.output && b.next <= a.next
  }

  /** The paragraph has been written. */
  ghost predicate Written(b: Progress, a: Progress, reflowed: bool, tagging: bool, maxvu: nat) {
    && Onward(b, a) && a.source == b.source + b.para && a.para == []
    && StatementTagged(b, a, tagging, maxvu)
    && (!reflowed ==> a.output == b.output + b.para)
  }

  /** A line has been read: it continues the paragraph, or that was written first. Unless text is reflowed
      the line is added as it is. */
  ghost predicate Taken(b: Progress, a: Progress, line: string, reflowed: bool, tagging: bool, maxvu: nat) {
    && Onward(b, a) && a.source + a.para == b.source + b.para + [line]
    && (a.para == b.para + [line] || (|a.para| <= 1 && StatementTagged(b, a, tagging, maxvu)))
    && (!reflowed ==> a.output + a.para == b.output + b.para + [line])
  }

  /** A line that ends a paragraph is itself written unchanged. */
  ghost predicate Ended(b: Progress, a: Progress, line: string, reflowed: bool, tagging: bool, maxvu: nat) {
    && Taken(b, a, line, reflowed, tagging, maxvu) && a.para == []
    && a.output != [] && a.output[|a.output| - 1] == line
  }

  lemma NothingWritten(p: Progress, reflowed: bool, tagging: bool, maxvu: nat)
    requires p.para == []
    ensures Written(p, p, reflowed, tagging, maxvu)
  {
  }

  lemma EndedAfterWritten(b: Progress, mid: Progress, a: Progress, line: string, reflowed: bool, tagging: bool, maxvu: nat)
    requires Written(b, mid, reflowed, tagging, maxvu)
    requires a.source == mid.source + [line] && a.tagged == mid.tagged + [line] && a.output == mid.output + [line]
    requires a.para == [] && a.next == mid.next
    ensures Ended(b, a, line, reflowed, tagging, maxvu)
  {
  }

  lemma TakenAfterWritten(b: Progress, mid: Progress, a: Progress, line: string, reflowed: bool, tagging: bool, maxvu: nat)
    requires Written(b, mid, reflowed, tagging, maxvu) && a == mid.(para := [line])
    ensures Taken(b, a, line, reflowed, tagging, maxvu)
  {
  }

  lemma TakenDirectly(b: Progress, a: Progress, line: string, reflowed: bool, tagging: bool, maxvu: nat)
    requires a == b.(para := b.para + [line])
    ensures Taken(b, a, line, reflowed, tagging, maxvu)
  {
  }

  /** One turn of the loop over the lines. */
  ghost predicate Step(m: Markup, lines: seq<string>, k: nat, b: Progress, a: Progress, numbering: bool, maxvu: nat)
    requires k < |lines|
  {
    var stack := StackAt(m, lines, k);
    && Balanced(a)
    && Taken(b, a, lines[k], TopReflowed(stack), numbering && TopValidUsage(stack), maxvu)
    && (KindOf(m, lines[k]).Delimiter? ==>
          Ended(b, a, lines[k], TopReflowed(stack), numbering && TopValidUsage(stack), maxvu))
    && (BeginsParagraph(m, lines, k) ==> a.para == [lines[k]])
  }

  /** A bullet in text: not under a document title, where the credits stand. */
  ghost predicate BeginsParagraph(m: Markup, lines: seq<string>, k: nat)
    requires k < |lines|
  {
    && KindOf(m, lines[k]) == Plain && (k > 0 ==> KindOf(m, lines[k - 1]) != Ending(true))
    && BeginsBullet(lines[k])
  }

  ghost predicate IsTrace(m: Markup, lines: seq<string>, trace: seq<Progress>, numbering: bool, maxvu: nat) {
    && 1 <= |trace| <= |lines| + 1
    && trace[0].source == trace[0].tagged == trace[0].output == trace[0].para == []
    && forall k :: 0 <= k < |trace| - 1 ==> Step(m, lines, k, trace[k], trace[k + 1], numbering, maxvu)
  }

  lemma {:induction false} SourceAt(m: Markup, lines: seq<string>, trace: seq<Progress>, numbering: bool, maxvu: nat, k: nat)
    requires IsTrace(m, lines, trace, numbering, maxvu) && k < |trace|
    ensures trace[k].source + trace[k].para == lines[..k] && Balanced(trace[k])
  {
    if k > 0 {
      SourceAt(m, lines, trace, numbering, maxvu, k - 1);
      assert Step(m, lines, k - 1, trace[k - 1], trace[k], numbering, maxvu);
      assert lines[..k] == lines[..k - 1] + [lines[k - 1]];
    } else {
      assert trace[0].source + trace[0].para == lines[..0];
    }
  }

  lemma {:induction false} OnwardFrom(m: Markup, lines: seq<string>, trace: seq<Progress>, numbering: bool, maxvu: nat, k: nat, l: nat)
    requires IsTrace(m, lines, trace, numbering, maxvu) && k <= l < |trace|
    ensures Onward(trace[k], trace[l])
    decreases l
  {
    if k < l {
      OnwardFrom(m, lines, trace, numbering, maxvu, k, l - 1);
      assert Step(m, lines, l - 1, trace[l - 1], trace[l], numbering, maxvu);
    }
  }

  // ----- passthrough blocks come out as they are -----

  /** Lines i to j are a passthrough block with no delimiter of a reflowed block in it. */
  ghost predicate PassesThrough(m: Markup, lines: seq<string>, i: nat, j: nat) {
    OpensPassthrough(m, lines, i) && NextLike(lines, i, j) && NoReflowedBlock(m, lines, i, j)
  }

  /** Position a of the output is where these lines stand: after the words of the lines before them. */
  ghost predicate StandsAt(tagged: seq<string>, output: seq<string>, i: nat, block: seq<string>, a: nat) {
    && i < |tagged| && block != [] && a + |block| <= |output|
    && output[a..a + |block|] == block
    && Words(output[..a + 1]) == Words(tagged[..i + 1])
  }

  ghost predicate Stands(tagged: seq<string>, output: seq<string>, i: nat, block: seq<string>) {
    exists a: nat :: StandsAt(tagged, output, i, block, a)
  }

  lemma {:induction false} BlockWritten(
    m: Markup, lines: seq<string>, trace: seq<Progress>, numbering: bool, maxvu: nat, i: nat, j: nat, k: nat)
    requires IsTrace(m, lines, trace, numbering, maxvu) && |trace| == |lines| + 1
    requires PassesThrough(m, lines, i, j) && i < k <= j + 1
    ensures trace[k].output + trace[k].para == trace[i + 1].output + lines[i + 1..k]
    decreases k
  {
    hide StackAt, KindOf, Step, Taken;
    var base := trace[i + 1].output;
    if k == i + 1 {
      DelimiterEnds(m, lines, trace, numbering, maxvu, i);
      EmptyStretch(base, trace[k].para, lines[i + 1..k]);
    } else {
      BlockWritten(m, lines, trace, numbering, maxvu, i, j, k - 1);
      PassthroughStays(m, lines, i, j);
      VerbatimStep(m, lines, trace, numbering, maxvu, k - 1);
      LongerStretch(trace[k - 1], trace[k], base, lines, i + 1, k - 1);
    }
  }

  lemma DelimiterEnds(m: Markup, lines: seq<string>, trace: seq<Progress>, numbering: bool, maxvu: nat, k: nat)
    requires IsTrace(m, lines, trace, numbering, maxvu) && k < |trace| - 1 && KindOf(m, lines[k]).Delimiter?
    ensures var a := trace[k + 1]; a.para == [] && a.output != [] && a.output[|a.output| - 1] == lines[k]
  {
    assert Step(m, lines, k, trace[k], trace[k + 1], numbering, maxvu);
  }

  lemma VerbatimStep(m: Markup, lines: seq<string>, trace: seq<Progress>, numbering: bool, maxvu: nat, k: nat)
    requires IsTrace(m, lines, trace, numbering, maxvu) && k < |trace| - 1 && !TopReflowed(StackAt(m, lines, k))
    ensures trace[k + 1].output + trace[k + 1].para == trace[k].output + trace[k].para + [lines[k]]
  {
    assert Step(m, lines, k, trace[k], trace[k + 1], numbering, maxvu);
  }

  lemma EmptyStretch(base: seq<string>, para: seq<string>, stretch: seq<string>)
    requires para == [] && |stretch| == 0
    ensures base + para == base + stretch
  {
  }

  lemma LongerStretch(b: Progress, a: Progress, base: seq<string>, lines: seq<string>, i: nat, k: nat)
    requires i <= k < |lines| && b.output + b.para == base + lines[i..k]
    requires a.output + a.para == b.output + b.para + [lines[k]]
    ensures a.output + a.para == base + lines[i..k + 1]
  {
    assert lines[i..k + 1] == lines[i..k] + [lines[k]];
    Associative(base, lines[i..k], [lines[k]]);
  }

  /** The block stands in the output of the whole file. */
  lemma BlockKept(
    m: Markup, lines: seq<string>, trace: seq<Progress>, numbering: bool, maxvu: nat,
    tagged: seq<string>, output: seq<string>, i: nat, j: nat)
    requires IsTrace(m, lines, trace, numbering, maxvu) && |trace| == |lines| + 1
    requires PassesThrough(m, lines, i, j)
    requires trace[|lines|].tagged <= tagged && trace[|lines|].output <= output
    ensures Stands(tagged, output, i, lines[i..j + 1])
  {
    hide StackAt, KindOf, Step, Words;
    var first, last := trace[i + 1], trace[j + 1];
    DelimiterEnds(m, lines, trace, numbering, maxvu, i);
    DelimiterEnds(m, lines, trace, numbering, maxvu, j);
    BlockWritten(m, lines, trace, numbering, maxvu, i, j, j + 1);
    OnwardFrom(m, lines, trace, numbering, maxvu, i + 1, |lines|);
    OnwardFrom(m, lines, trace, numbering, maxvu, j + 1, |lines|);
    SourceAt(m, lines, trace, numbering, maxvu, i + 1);
    var a := BlockStands(lines, i, j, first, last, tagged, output);
  }

  lemma BlockStands(
    lines: seq<string>, i: nat, j: nat, first: Progress, last: Progress, tagged: seq<string>, output: seq<string>)
    returns (a: nat)
    requires i <= j < |lines| && Balanced(first) && first.source == lines[..i + 1] && first.para == [] && last.para == []
    requires first.output != [] && first.output[|first.output| - 1] == lines[i]
    requires last.output + last.para == first.output + lines[i + 1..j + 1]
    requires first.tagged <= tagged && first.output <= output && last.output <= output
    ensures StandsAt(tagged, output, i, lines[i..j + 1], a)
  {
    a := |first.output| - 1;
    EmptyStretch(last.output, last.para, []);
    assert last.output + [] == last.output;
    WholeBlock(lines, i, j, first.output, last.output, output);
    assert |first.tagged| == i + 1 && tagged[..i + 1] == first.tagged;
    assert output[..a + 1] == first.output;
  }

  lemma WholeBlock(lines: seq<string>, i: nat, j: nat, first: seq<string>, last: seq<string>, output: seq<string>)
    requires i <= j < |lines| && first != [] && first[|first| - 1] == lines[i]
    requires last == first + lines[i + 1..j + 1] && last <= output
    ensures |first| - 1 + |lines[i..j + 1]| <= |output|
    ensures output[|first| - 1..|first| - 1 + |lines[i..j + 1]|] == lines[i..j + 1]
  {
    var a, block := |first| - 1, lines[i..j + 1];
    assert |block| == j + 1 - i && |last| == a + |block|;
    forall d | 0 <= d < |block|
      ensures output[a + d] == block[d]
    {
      assert output[a + d] == last[a + d];
    }
  }

  // ----- statements are tagged -----

  /** Line k begins an untagged statement in a Valid Usage block. */
  ghost predicate Statement(m: Markup, lines: seq<string>, k: nat)
    requires k < |lines|
  {
    BeginsParagraph(m, lines, k) && Taggable(lines[k]) && TopValidUsage(StackAt(m, lines, k))
  }

  ghost predicate GivenTag(lines: seq<string>, tagged: seq<string>, k: nat)
    requires k < |lines|
  {
    k < |tagged| && exists n :: IsTagged(lines[k], tagged[k], n)
  }

  /** Statements among the lines dealt with are tagged; the paragraph being accumulated is one only if it
      begins with it, and in the block in which it began. */
  ghost predicate TaggedSoFar(m: Markup, lines: seq<string>, k: nat, p: Progress)
    requires k <= |lines|
  {
    && (forall s :: 0 <= s < |p.source| && s < k && Statement(m, lines, s) ==> GivenTag(lines, p.tagged, s))
    && (forall s :: |p.source| < s < k ==> !BeginsParagraph(m, lines, s))
    && (p.para != [] ==> |p.source| < k && StackAt(m, lines, k) == StackAt(m, lines, |p.source|))
  }

  lemma StackSame(m: Markup, lines: seq<string>, k: nat)
    requires k < |lines|
    ensures !KindOf(m, lines[k]).Delimiter? ==> StackAt(m, lines, k + 1) == StackAt(m, lines, k)
  {
  }

  lemma TaggedNext(m: Markup, lines: seq<string>, k: nat, b: Progress, a: Progress, maxvu: nat)
    requires k < |lines| && Step(m, lines, k, b, a, true, maxvu) && TaggedSoFar(m, lines, k, b)
    requires b.source + b.para == lines[..k] && a.source + a.para == lines[..k + 1]
    requires |b.tagged| == |b.source| && a.next <= maxvu
    ensures TaggedSoFar(m, lines, k + 1, a)
  {
    StackSame(m, lines, k);
    if a.para == b.para + [lines[k]] {
      TaggedKept(m, lines, k, b, a);
    } else {
      TaggedWritten(m, lines, k, b, a);
    }
    hide TaggedSoFar, StackAt, KindOf;
  }

  /** The line has joined the paragraph. */
  lemma TaggedKept(m: Markup, lines: seq<string>, k: nat, b: Progress, a: Progress)
    requires k < |lines| && TaggedSoFar(m, lines, k, b) && |b.tagged| == |b.source|
    requires |b.source| + |b.para| == k && |a.source| == |b.source| && b.tagged <= a.tagged
    requires a.para == b.para + [lines[k]] && StackAt(m, lines, k + 1) == StackAt(m, lines, k)
    requires BeginsParagraph(m, lines, k) ==> b.para == []
    ensures TaggedSoFar(m, lines, k + 1, a)
  {
    hide StackAt, BeginsParagraph;
    forall s | 0 <= s < |a.source| && Statement(m, lines, s)
      ensures GivenTag(lines, a.tagged, s)
    {
      StillGiven(lines, b.tagged, a.tagged, s);
    }
  }

  /** The paragraph before the line has been written. */
  lemma TaggedWritten(m: Markup, lines: seq<string>, k: nat, b: Progress, a: Progress)
    requires k < |lines| && TaggedSoFar(m, lines, k, b) && |b.tagged| == |b.source| && b.tagged <= a.tagged
    requires b.source + b.para == lines[..k] && |a.source| + |a.para| == k + 1 && |a.para| <= 1
    requires b.para != [] && TopValidUsage(StackAt(m, lines, k)) && Taggable(b.para[0]) ==>
               |b.source| < |a.tagged| && exists n :: IsTagged(b.para[0], a.tagged[|b.source|], n)
    requires a.para != [] ==> StackAt(m, lines, k + 1) == StackAt(m, lines, k)
    requires BeginsParagraph(m, lines, k) ==> a.para != []
    ensures TaggedSoFar(m, lines, k + 1, a)
  {
    hide StackAt, BeginsParagraph, Taggable, IsTagged;
    var first := |b.source|;
    forall s | 0 <= s < |a.source| && Statement(m, lines, s)
      ensures GivenTag(lines, a.tagged, s)
    {
      if s < first {
        StillGiven(lines, b.tagged, a.tagged, s);
      } else {
        assert s == first && b.para != [];
        assert lines[..k][first] == b.para[0];
      }
    }
  }

  lemma StillGiven(lines: seq<string>, tagged: seq<string>, more: seq<string>, s: nat)
    requires s < |lines| && s < |tagged| && tagged <= more
    ensures GivenTag(lines, tagged, s) ==> GivenTag(lines, more, s)
  {
    assert more[s] == tagged[s];
  }

  /** If numbers are left in the end, no statement has gone without. */
  lemma {:induction false} AllTagged(m: Markup, lines: seq<string>, trace: seq<Progress>, maxvu: nat, k: nat)
    requires IsTrace(m, lines, trace, true, maxvu) && k < |trace| && trace[k].next <= maxvu
    ensures TaggedSoFar(m, lines, k, trace[k])
  {
    if k > 0 {
      OnwardFrom(m, lines, trace, true, maxvu, k - 1, k);
      AllTagged(m, lines, trace, maxvu, k - 1);
      SourceAt(m, lines, trace, true, maxvu, k - 1);
      SourceAt(m, lines, trace, true, maxvu, k);
      TaggedNext(m, lines, k - 1, trace[k - 1], trace[k], maxvu);
    }
  }

  // ----- and otherwise they do not -----

  /** What becomes of the text in ListingWithOpenBlock: its two lines are run together. */
  lemma ListingRelaid()
    ensures Reflow(76, true, 0, 2, ["if (x)\n", "  y\n"]).para == ["if (x) y\n"]
  {
    ListingWords();
    ListingLayout();
    ListingLine();
    assert RenderAll([Line(0, ["if", "(x)", "y"])]) == ["if (x) y\n"];
  }

  lemma ListingLine()
    ensures Render(Line(0, ["if", "(x)"])) == "if (x)\n" && Render(Line(0, ["if", "(x)", "y"])) == "if (x) y\n"
    ensures Render(Line(2, ["y"])) == "  y\n"
  {
    var two, three := ["if", "(x)"], ["if", "(x)", "y"];
    assert three[..2] == two && two[..1] == ["if"];
    assert JoinWords(two) == "if" + " " + "(x)" == "if (x)";
    assert JoinWords(three) == "if (x)" + " " + "y" == "if (x) y";
    assert Text(Line(0, two)) == "if (x)" && Text(Line(0, three)) == "if (x) y";
    assert Spaces(2) == "  " && Text(Line(2, ["y"])) == "  y";
  }

  lemma ListingLayout()
    ensures Layout(Style(76, true, 0, 2, false), [Tagged("if", false), Tagged("(x)", true), Tagged("y", true)])
            == [Line(0, ["if", "(x)", "y"])]
  {
    var s, ws := Style(76, true, 0, 2, false), [Tagged("if", false), Tagged("(x)", true), Tagged("y", true)];
    assert "if"[1] == 'f' && "(x)"[0] == '(' && "(x)"[2] == ')' && "y"[0] == 'y';
    assert "[[VUID-"[0] == '[' && |"(x)"| == 3 && |"if"| == 2 && |"y"| == 1;
    assert Filled(s, ws, 1) == Fill([], Some(Line(0, ["if"])), 2, [true]);
    assert Place(s, ws, 1, 2) == Join;
    assert ["if"] + ["(x)"] == ["if", "(x)"] && ["if", "(x)"] + ["y"] == ["if", "(x)", "y"];
    assert Filled(s, ws, 2) == Fill([], Some(Line(0, ["if", "(x)"])), 6, [true, false]);
    assert Place(s, ws, 2, 6) == Join;
    assert Filled(s, ws, 3) == Fill([], Some(Line(0, ["if", "(x)", "y"])), 8, [true, false, false]);
  }

  lemma ListingWords()
    ensures var para := ["if (x)\n", "  y\n"];
            && TagText(para) == [Tagged("if", false), Tagged("(x)", true), Tagged("y", true)]
            && StyleFor(76, true, 0, 2, para) == Style(76, true, 0, 2, false)
  {
    var para := ["if (x)\n", "  y\n"];
    ListingLines();
    TagTextTwo(para[0], para[1]);
    hide Split, BeginsBullet, TagText;
    assert TagWords(["if", "(x)"]) == [Tagged("if", false), Tagged("(x)", true)];
    assert TagWords(["y"]) == [Tagged("y", true)];
  }

  lemma ListingLines()
    ensures Split("if (x)\n") == ["if", "(x)"] && Split("  y\n") == ["y"]
    ensures !BeginsBullet("if (x)\n") && !BeginsBullet("  y\n")
  {
    var first, second := Line(0, ["if", "(x)"]), Line(2, ["y"]);
    ListingLine();
    hide Split, JoinWords, BeginsBullet;
    SplitRender(first);
    SplitRender(second);
    RenderBullet(first);
    RenderBullet(second);
    assert !IsBullet("if") && !IsBullet("y") by {
      assert "if"[0] == 'i' && "y"[0] == 'y' && |"{empty}::"| == 9 && "::"[0] == ':';
    }
  }
}
