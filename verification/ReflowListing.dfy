/** A code listing that reflowing does not leave alone (specification/scripts/reflow.py). */
module ReflowListing {
  import opened Wrappers
  import opened ReflowText
  import opened ReflowPara
  import opened ReflowTags
  import opened ReflowBlocks
  import opened ReflowTrace
  import opened ReflowRun

  /** Text that none of the patterns of the script can match. */
  predicate Ordinary(line: string) {
    var t := Chomp(line);
    && t != "" && t[0] !in {'[', '/', '<', ':', '+', '.', '=', '|', '`', '-'} && ':' !in t
    && exists i :: 0 <= i < |t| && 'a' <= t[i] <= 'z'
  }

  lemma OrdinaryIsPlain(m: Markup, line: string)
    requires m == ScriptMarkup(m.includedApi, m.paramName) && Ordinary(line) && line != COMMON_BLOCK
    ensures KindOf(m, line) == Plain
  {
    NoDelimiter(line);
    NotEnding(line);
    NotContinued(line);
    hide IsBlockReflow, IsBlockPassthrough, IsEndPara, IsEndParaContinue;
  }

  lemma NoDelimiter(line: string)
    requires Ordinary(line)
    ensures !IsBlockReflow(line) && !IsBlockPassthrough(line)
  {
    var t := Chomp(line);
    var i :| 0 <= i < |t| && 'a' <= t[i] <= 'z';
    assert t[i] in t;
  }

  /** Nothing with a colon at position j begins at position k. */
  lemma NoColon(t: string, k: nat, part: string, j: nat)
    requires ':' !in t && k <= |t| && j < |part| && part[j] == ':'
    ensures !(part <= t[k..])
  {
    if k + j < |t| {
      assert t[k..][j] == t[k + j];
      assert t[k + j] in t;
    }
  }

  lemma NotEnding(line: string)
    requires Ordinary(line)
    ensures !IsEndPara(line)
  {
    var t := Chomp(line);
    var i :| 0 <= i < |t| && 'a' <= t[i] <= 'z';
    assert t[i] in t;
    forall k | 1 <= k <= |t|
      ensures !("::" <= t[k..])
    {
      NoColon(t, k, "::", 0);
    }
    if |t| >= 2 {
      NoColon(t, |t| - 2, "::", 0);
    }
    assert t[0..] == t;
    NoColon(t, 0, ":", 0);
  }

  lemma NotContinued(line: string)
    requires Ordinary(line)
    ensures !IsEndParaContinue(line)
  {
    var t := Chomp(line);
    forall k | 1 <= k < |t|
      ensures !Over(t[..k], {'='})
    {
      assert t[..k][0] == t[0] && t[0] in t[..k];
    }
    assert t[0..] == t && |"image:"| == 6;
    NoColon(t, 0, "image:", 5);
  }

  /** Five lines: a delimiter, that of an open block, two lines of text of which the second is indented,
      and the first line again. */
  predicate Listing(m: Markup, lines: seq<string>) {
    && |lines| == 5 && lines[4] == lines[0] && lines[1] != lines[0]
    && KindOf(m, lines[0]) == Delimiter(false) && KindOf(m, lines[1]) == Delimiter(true)
    && KindOf(m, lines[2]) == Plain && KindOf(m, lines[3]) == Plain
    && lines[0] !in {COMMON_BLOCK, VALID_USAGE} && lines[1] != COMMON_BLOCK
    && Indent(lines[2]) == 0 && Indent(lines[3]) == 2
    && !BeginsBullet(lines[2]) && !BeginsBullet(lines[3])
  }

  lemma ListingStacks(m: Markup, lines: seq<string>)
    requires Listing(m, lines)
    ensures var outer, inner := Block(lines[0], false, false), Block(lines[1], true, false);
            && StackAt(m, lines, 0) == [] && StackAt(m, lines, 1) == [outer]
            && StackAt(m, lines, 2) == StackAt(m, lines, 3) == StackAt(m, lines, 4) == [outer, inner]
  {
    hide KindOf, Indent, BeginsBullet;
    assert StackAt(m, lines, 0) == [];
    assert StackAt(m, lines, 1) == [Block(lines[0], false, false)];
  }

  /** The first four lines: the text is accumulated, with the indentation of its second line. */
  lemma ListingRead(c: Setup, lines: seq<string>, next: Option<nat>)
    requires Listing(c.markup, lines)
    ensures RunAt(c, lines, next, 2) == Run([lines[0], lines[1]], [], 0, 0, DEFAULT_API, next)
    ensures RunAt(c, lines, next, 4) == Run([lines[0], lines[1]], lines[2..4], 0, 2, DEFAULT_API, next)
  {
    ListingStacks(c.markup, lines);
    hide StackAt, KindOf, Indent, BeginsBullet, Laid, NextNumber;
    DelimiterRead(c, lines, next, 0);
    DelimiterRead(c, lines, next, 1);
    assert RunAt(c, lines, next, 3) == Run([lines[0], lines[1]], [lines[2]], 0, 0, DEFAULT_API, next);
    assert lines[2..4] == [lines[2]] + [lines[3]];
  }

  /** A delimiter after no text is written as it is. */
  lemma DelimiterRead(c: Setup, lines: seq<string>, next: Option<nat>, k: nat)
    requires k < |lines| && KindOf(c.markup, lines[k]).Delimiter?
    requires var r := RunAt(c, lines, next, k); r.para == [] && r.apiName == DEFAULT_API
    ensures var r := RunAt(c, lines, next, k);
            RunAt(c, lines, next, k + 1) == Run(r.output + [lines[k]], [], 0, 0, DEFAULT_API, r.next)
  {
    hide KindOf, StackAt;
  }

  /** The two lines of text are reflowed. */
  lemma ListingWritten(c: Setup, lines: seq<string>, next: Option<nat>)
    requires Listing(c.markup, lines) && c.reflow
    ensures WholeRun(c, lines, next).output
            == [lines[0], lines[1]] + Reflow(c.margin, c.breakPeriod, 0, 2, lines[2..4]).para + [lines[4]]
  {
    ListingStacks(c.markup, lines);
    ListingRead(c, lines, next);
    hide StackAt, KindOf, Indent, BeginsBullet, Reflow;
    var stack := StackAt(c.markup, lines, 5);
    var r := RunAt(c, lines, next, 5);
    assert r.para == [] && r.output
           == [lines[0], lines[1]] + Reflow(c.margin, c.breakPeriod, 0, 2, lines[2..4]).para + [lines[4]];
    NothingToWrite(c, r, TopReflowed(stack), TopValidUsage(stack));
    hide RunAt, Flushed;
  }

  /** What the script makes of such a file, whatever the numbering: the listing does not stand in the
      output, nor anything of its length. */
  lemma ListingNotKept(m: Markup, next: Option<nat>, maxvu: nat, tagged: seq<string>)
    requires m == ScriptMarkup(m.includedApi, m.paramName)
    ensures var lines := ["----\n", "--\n", "if (x)\n", "  y\n", "----\n"];
            var r := WholeRun(Setup(m, 76, true, true, maxvu), lines, next);
            && OpensPassthrough(m, lines, 0) && NextLike(lines, 0, 4)
            && r.output == ["----\n", "--\n", "if (x) y\n", "----\n"]
            && !Stands(tagged, r.output, 0, lines[0..5])
  {
    var lines := ["----\n", "--\n", "if (x)\n", "  y\n", "----\n"];
    hide Listing, OpensPassthrough, NextLike, WholeRun, Reflow, StackAt, Stands, ScriptMarkup, TopReflowed;
    ListingWithOpenBlock(m);
    IsListing(m);
    ListingRelaid();
    RelaidOutput(Setup(m, 76, true, true, maxvu), "----\n", "--\n", "if (x)\n", "  y\n", "if (x) y\n", next);
    TooShort(tagged, ["----\n", "--\n", "if (x) y\n", "----\n"], lines[0..5]);
  }

  lemma RelaidOutput(c: Setup, a: string, b: string, x: string, y: string, z: string, next: Option<nat>)
    requires Listing(c.markup, [a, b, x, y, a]) && c.reflow && Reflow(c.margin, c.breakPeriod, 0, 2, [x, y]).para == [z]
    ensures WholeRun(c, [a, b, x, y, a], next).output == [a, b, z, a]
  {
    var lines := [a, b, x, y, a];
    hide Listing, WholeRun, Reflow;
    ListingWritten(c, lines, next);
    assert lines[2..4] == [x, y];
  }

  lemma TooShort(tagged: seq<string>, output: seq<string>, block: seq<string>)
    requires |block| > |output|
    ensures !Stands(tagged, output, 0, block)
  {
  }

  lemma IsListing(m: Markup)
    requires m == ScriptMarkup(m.includedApi, m.paramName)
    ensures Listing(m, ["----\n", "--\n", "if (x)\n", "  y\n", "----\n"])
  {
    hide KindOf, BeginsBullet, Indent, Ordinary, Listing, Split, ScriptMarkup;
    KindsOfDelimiters(m);
    FirstText();
    SecondText();
    ListingLines();
    OrdinaryIsPlain(m, "if (x)\n");
    OrdinaryIsPlain(m, "  y\n");
    assert |COMMON_BLOCK| == 22 && |VALID_USAGE| == 13 && |"----\n"| == 5 && |"--\n"| == 3;
    MakesListing(m, "----\n", "--\n", "if (x)\n", "  y\n");
  }

  lemma MakesListing(m: Markup, a: string, b: string, x: string, y: string)
    requires KindOf(m, a) == Delimiter(false) && KindOf(m, b) == Delimiter(true) && |a| == 5 && |b| == 3
    requires KindOf(m, x) == Plain && KindOf(m, y) == Plain && Indent(x) == 0 && Indent(y) == 2
    requires !BeginsBullet(x) && !BeginsBullet(y) && |COMMON_BLOCK| == 22 && |VALID_USAGE| == 13
    ensures Listing(m, [a, b, x, y, a])
  {
    hide KindOf, BeginsBullet, Indent;
  }

  lemma FirstText()
    ensures var text := "if (x)\n"; Ordinary(text) && Indent(text) == 0 && text != COMMON_BLOCK
  {
    var text := "if (x)\n";
    assert |text| == 7 && text[0] == 'i' && text[1] == 'f' && text[2] == ' ' && text[3] == '(';
    assert text[4] == 'x' && text[5] == ')' && text[6] == '\n';
    assert Chomp(text)[0] == 'i' && |COMMON_BLOCK| == 22;
  }

  lemma SecondText()
    ensures var text := "  y\n"; Ordinary(text) && Indent(text) == 2 && text != COMMON_BLOCK
  {
    var text := "  y\n";
    assert |text| == 4 && text[0] == ' ' && text[1] == ' ' && text[2] == 'y' && text[3] == '\n';
    assert Chomp(text)[2] == 'y' && |COMMON_BLOCK| == 22;
    assert text[1..][0] == ' ' && text[1..][1..] == text[2..] && text[2..][0] == 'y';
    assert Indent(text[2..]) == 0 && Indent(text[1..]) == 1;
  }
}
