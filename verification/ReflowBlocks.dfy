/** The lines of a file as the reflow script classifies them, and the stack of blocks they open and close
    (specification/scripts/reflow.py). */
module ReflowBlocks {
  import opened Wrappers
  import opened ReflowText

  /** The line patterns of the script, as predicates. */
  datatype Markup = Markup(
    blockReflow: string -> bool,
    endPara: string -> bool,
    endParaContinue: string -> bool,
    blockPassthrough: string -> bool,
    includedApi: string -> Option<string>,  // the API name of an include of a prototype or structure
    paramName: seq<string> -> string)       // the first pname: or code: of a paragraph, or None

  const COMMON_BLOCK := "// Common Valid Usage\n"
  const VALID_USAGE := ".Valid Usage\n"

  /** The delimiter of a block, a line that ends the paragraph before it, or text. */
  datatype LineKind = Delimiter(reflowed: bool) | Ending(title: bool) | Plain

  /** The patterns are tried in this order. */
  function KindOf(m: Markup, line: string): LineKind {
    if line == COMMON_BLOCK || m.blockReflow(line) then Delimiter(true)
    else if m.endPara(line) then Ending(false)
    else if m.endParaContinue(line) then Ending("= " <= line)
    else if m.blockPassthrough(line) then Delimiter(false)
    else Plain
  }

  datatype Block = Block(delimiter: string, reflowed: bool, vu: bool)

  /** A delimiter closes the innermost block if it is the line that opened it, and opens a block
      otherwise. */
  function Switch(stack: seq<Block>, line: string, reflowed: bool, vu: bool): seq<Block> {
    if stack != [] && stack[|stack| - 1].delimiter == line then stack[..|stack| - 1]
    else stack + [Block(line, reflowed, vu)]
  }

  function NextStack(m: Markup, stack: seq<Block>, previous: Option<string>, line: string): seq<Block> {
    match KindOf(m, line)
    case Delimiter(reflowed) =>
      Switch(stack, line, reflowed, line == COMMON_BLOCK || (reflowed && previous == Some(VALID_USAGE)))
    case _ => stack
  }

  function Previous(lines: seq<string>, n: nat): Option<string>
    requires n <= |lines|
  {
    if n == 0 then None else Some(lines[n - 1])
  }

  /** The patterns in the order in which they are tried, case by case. */
  lemma KindCases(m: Markup, line: string)
    ensures line == COMMON_BLOCK || m.blockReflow(line) <==> KindOf(m, line) == Delimiter(true)
    ensures KindOf(m, line) != Delimiter(true) ==>
              && (m.endPara(line) ==> KindOf(m, line) == Ending(false))
              && (!m.endPara(line) && m.endParaContinue(line) ==> KindOf(m, line) == Ending("= " <= line))
              && (!m.endPara(line) && !m.endParaContinue(line) ==>
                    KindOf(m, line) == if m.blockPassthrough(line) then Delimiter(false) else Plain)
  {
  }

  lemma StackCases(m: Markup, stack: seq<Block>, previous: Option<string>, line: string)
    ensures var kind := KindOf(m, line);
            NextStack(m, stack, previous, line) ==
              if !kind.Delimiter? then stack
              else Switch(stack, line, kind.reflowed,
                          line == COMMON_BLOCK || (kind.reflowed && previous == Some(VALID_USAGE)))
  {
  }

  /** The open blocks after n lines, innermost last. */
  function StackAt(m: Markup, lines: seq<string>, n: nat): seq<Block>
    requires n <= |lines|
  {
    if n == 0 then []
    else NextStack(m, StackAt(m, lines, n - 1), Previous(lines, n - 1), lines[n - 1])
  }

  predicate TopReflowed(stack: seq<Block>) {
    stack == [] || stack[|stack| - 1].reflowed
  }

  predicate TopValidUsage(stack: seq<Block>) {
    stack != [] && stack[|stack| - 1].vu
  }

  // ----- passthrough blocks -----

  /** Line i opens a block whose contents must not be reflowed. */
  predicate OpensPassthrough(m: Markup, lines: seq<string>, i: nat) {
    && i < |lines| && KindOf(m, lines[i]) == Delimiter(false)
    && var stack := StackAt(m, lines, i);
    !(stack != [] && stack[|stack| - 1].delimiter == lines[i])
  }

  /** Line j is the first line after i that is like it. */
  predicate NextLike(lines: seq<string>, i: nat, j: nat) {
    i < j < |lines| && lines[j] == lines[i] && forall k :: i < k < j ==> lines[k] != lines[i]
  }

  /** From depth on, the blocks are passthrough blocks; the outermost of them is the given one. */
  ghost predicate PassingFrom(m: Markup, stack: seq<Block>, depth: nat, delimiter: string) {
    && depth < |stack| && stack[depth].delimiter == delimiter
    && forall d :: depth <= d < |stack| ==> !stack[d].reflowed && KindOf(m, stack[d].delimiter) == Delimiter(false)
  }

  lemma PassingNext(m: Markup, stack: seq<Block>, depth: nat, delimiter: string, previous: Option<string>, line: string)
    requires PassingFrom(m, stack, depth, delimiter) && line != delimiter
    ensures KindOf(m, line) != Delimiter(true) ==> PassingFrom(m, NextStack(m, stack, previous, line), depth, delimiter)
    ensures KindOf(m, line) == Delimiter(true) ==> TopReflowed(NextStack(m, stack, previous, line))
  {
    var top := stack[|stack| - 1];
    if KindOf(m, line).Delimiter? && top.delimiter == line {
      assert |stack| - 1 != depth;
    }
  }

  lemma {:induction false} StaysPassing(m: Markup, lines: seq<string>, i: nat, k: nat)
    requires OpensPassthrough(m, lines, i) && i < k <= |lines|
    requires forall r :: i < r < k ==> lines[r] != lines[i] && KindOf(m, lines[r]) != Delimiter(true)
    ensures PassingFrom(m, StackAt(m, lines, k), |StackAt(m, lines, i)|, lines[i])
  {
    if k > i + 1 {
      StaysPassing(m, lines, i, k - 1);
      PassingNext(m, StackAt(m, lines, k - 1), |StackAt(m, lines, i)|, lines[i], Previous(lines, k - 1), lines[k - 1]);
    }
  }

  /** The innermost block is not reflowed while lines i + 1, ..., j are processed. */
  ghost predicate NeverReflowed(m: Markup, lines: seq<string>, i: nat, j: nat)
    requires j < |lines|
  {
    forall k :: i < k <= j ==> !TopReflowed(StackAt(m, lines, k))
  }

  /** Nothing between lines i and j delimits a block to be reflowed. */
  ghost predicate NoReflowedBlock(m: Markup, lines: seq<string>, i: nat, j: nat)
    requires j < |lines|
  {
    forall r :: i < r < j ==> KindOf(m, lines[r]) != Delimiter(true)
  }

  /** Between the line that opens a passthrough block and the next line like it, the innermost block is
      never reflowed, if and only if no delimiter of a reflowed block stands in between. */
  lemma PassthroughStays(m: Markup, lines: seq<string>, i: nat, j: nat)
    requires OpensPassthrough(m, lines, i) && NextLike(lines, i, j)
    ensures NeverReflowed(m, lines, i, j) <==> NoReflowedBlock(m, lines, i, j)
  {
    if r :| i < r < j && KindOf(m, lines[r]) == Delimiter(true) {
      var k := OpensReflowed(m, lines, i, j, r);
      assert TopReflowed(StackAt(m, lines, k));
    } else {
      forall k | i < k <= j
        ensures !TopReflowed(StackAt(m, lines, k))
      {
        StaysPassing(m, lines, i, k);
      }
    }
  }

  lemma OpensReflowed(m: Markup, lines: seq<string>, i: nat, j: nat, r: nat) returns (k: nat)
    requires OpensPassthrough(m, lines, i) && NextLike(lines, i, j)
    requires i < r < j && KindOf(m, lines[r]) == Delimiter(true)
    ensures i < k <= j && TopReflowed(StackAt(m, lines, k))
  {
    var first := FirstReflowed(m, lines, i, r);
    StaysPassing(m, lines, i, first);
    PassingNext(m, StackAt(m, lines, first), |StackAt(m, lines, i)|, lines[i], Previous(lines, first), lines[first]);
    k := first + 1;
  }

  lemma {:induction false} FirstReflowed(m: Markup, lines: seq<string>, i: nat, r: nat) returns (first: nat)
    requires i < r < |lines| && KindOf(m, lines[r]) == Delimiter(true)
    ensures i < first <= r && KindOf(m, lines[first]) == Delimiter(true)
    ensures forall k :: i < k < first ==> KindOf(m, lines[k]) != Delimiter(true)
    decreases r
  {
    if k :| i < k < r && KindOf(m, lines[k]) == Delimiter(true) {
      first := FirstReflowed(m, lines, i, k);
    } else {
      first := r;
    }
  }

  // ----- the patterns of the script -----

  function Chomp(line: string): string {
    if line != "" && line[|line| - 1] == '\n' then line[..|line| - 1] else line
  }

  predicate Over(t: string, chars: set<char>) {
    forall c :: c in t ==> c in chars
  }

  predicate LowerCase(t: string) {
    forall c :: c in t ==> 'a' <= c <= 'z'
  }

  /** -- or four or more of * = _ */
  predicate IsBlockReflow(line: string) {
    var t := Chomp(line);
    t == "--" || (|t| >= 4 && Over(t, {'*', '=', '_'}))
  }

  /** |===, ```, or four or more of - + . / ~ */
  predicate IsBlockPassthrough(line: string) {
    var t := Chomp(line);
    || (|t| >= 4 && t[0] == '|' && Over(t[1..], {'='}))
    || t == "```"
    || (|t| >= 4 && Over(t, {'-', '+', '.', '/', '~'}))
  }

  /** Blank lines, block attributes, comments, page breaks, attribute settings, directives, list
      continuations and labels. */
  predicate IsEndPara(line: string) {
    var t := Chomp(line);
    || Over(t, {' '})
    || (|t| >= 2 && t[0] == '[' && t[|t| - 1] == ']')
    || "//" <= t || t == "<<<<" || ":" <= t || t == "+"
    || (exists k :: 1 <= k <= |t| && LowerCase(t[..k]) && "::" <= t[k..])
    || (|t| >= 2 && t[|t| - 2..] == "::")
  }

  /** Titles, of blocks and of sections, and images. */
  predicate IsEndParaContinue(line: string) {
    var t := Chomp(line);
    || (|line| >= 2 && line[0] == '.' && line[1] != '.')
    || (exists k :: 1 <= k < |t| && Over(t[..k], {'='}) && t[k] == ' ')
    || ("image:" <= t && t[|t| - 1] == ']' && '[' in t)
  }

  function ScriptMarkup(includedApi: string -> Option<string>, paramName: seq<string> -> string): Markup {
    Markup(IsBlockReflow, IsEndPara, IsEndParaContinue, IsBlockPassthrough, includedApi, paramName)
  }

  /** The delimiters of listings and of open blocks. */
  lemma KindsOfDelimiters(m: Markup)
    requires m == ScriptMarkup(m.includedApi, m.paramName)
    ensures KindOf(m, "----\n") == Delimiter(false)
    ensures KindOf(m, "--\n") == Delimiter(true)
  {
    assert |"----\n"| == 5 && |COMMON_BLOCK| == 22;
    DashesAreText();
    DashesAreDelimiters();
    hide IsBlockReflow, IsBlockPassthrough, IsEndPara, IsEndParaContinue;
  }

  lemma DashesAreDelimiters()
    ensures IsBlockPassthrough("----\n") && IsBlockReflow("--\n")
  {
    assert Chomp("----\n") == "----" && Chomp("--\n") == "--";
  }

  /** The delimiter of a comment block counts as a comment before it can count as a delimiter. */
  lemma CommentBlocksAreNone(m: Markup)
    requires m == ScriptMarkup(m.includedApi, m.paramName)
    ensures IsBlockPassthrough("////\n") && KindOf(m, "////\n") == Ending(false)
  {
    var t := Chomp("////\n");
    assert t == "////" && t[0] == '/' && '/' in t;
    assert "//" <= t;
    assert |"////\n"| == 5 && |COMMON_BLOCK| == 22;
  }

  lemma DashesAreText()
    ensures !IsBlockReflow("----\n") && !IsEndPara("----\n") && !IsEndParaContinue("----\n")
  {
    var line := "----\n";
    assert |line| == 5 && line[4] == '\n' && line[0] == line[1] == line[2] == line[3] == '-';
    hide IsBlockReflow, IsEndPara, IsEndParaContinue;
    DashedNotReflowed(line);
    DashedEndsNothing(line);
    DashedContinuesNothing(line);
  }

  /** Four dashes and a line break. */
  predicate Dashed(line: string) {
    |line| == 5 && line[4] == '\n' && forall i :: 0 <= i < 4 ==> line[i] == '-'
  }

  lemma DashedNotReflowed(line: string)
    requires Dashed(line)
    ensures !IsBlockReflow(line)
  {
    var t := Chomp(line);
    assert t[0] == '-' && '-' in t;
  }

  lemma DashedEndsNothing(line: string)
    requires Dashed(line)
    ensures !IsEndPara(line)
  {
    var t := Chomp(line);
    assert t[0] == '-' && t[2] == '-' && '-' in t;
    forall k | 1 <= k <= |t|
      ensures !LowerCase(t[..k])
    {
      assert t[..k][0] == '-' && '-' in t[..k];
    }
  }

  lemma DashedContinuesNothing(line: string)
    requires Dashed(line)
    ensures !IsEndParaContinue(line)
  {
    var t := Chomp(line);
    assert t[0] == '-';
    forall k | 1 <= k < |t|
      ensures !Over(t[..k], {'='})
    {
      assert t[..k][0] == '-' && '-' in t[..k];
    }
  }

  /** A listing with an open block delimiter in it: the text after that is reflowed, although the listing
      is still open. */
  lemma ListingWithOpenBlock(m: Markup)
    requires m == ScriptMarkup(m.includedApi, m.paramName)
    ensures var lines := ["----\n", "--\n", "if (x)\n", "  y\n", "----\n"];
            && OpensPassthrough(m, lines, 0) && NextLike(lines, 0, 4)
            && StackAt(m, lines, 2) == [Block("----\n", false, false), Block("--\n", true, false)]
            && TopReflowed(StackAt(m, lines, 2))
  {
    var lines := ["----\n", "--\n", "if (x)\n", "  y\n", "----\n"];
    KindsOfDelimiters(m);
    hide KindOf, StackAt, OpensPassthrough, NextLike;
    assert |"--\n"| == 3 && |"----\n"| == 5 && |"if (x)\n"| == 7 && |"  y\n"| == 4 && |VALID_USAGE| == 13;
    OpenBlockOpens(m, lines, "----\n", "--\n");
    LikeByLength(lines);
  }

  lemma LikeByLength(lines: seq<string>)
    requires |lines| == 5 && lines[4] == lines[0]
    requires |lines[1]| != |lines[0]| && |lines[2]| != |lines[0]| && |lines[3]| != |lines[0]|
    ensures NextLike(lines, 0, 4)
  {
  }

  lemma OpenBlockOpens(m: Markup, lines: seq<string>, outer: string, inner: string)
    requires |lines| >= 2 && lines[0] == outer && lines[1] == inner
    requires KindOf(m, outer) == Delimiter(false) && KindOf(m, inner) == Delimiter(true)
    requires outer != COMMON_BLOCK && outer != VALID_USAGE && inner != COMMON_BLOCK
    ensures OpensPassthrough(m, lines, 0)
    ensures StackAt(m, lines, 2) == [Block(outer, false, false), Block(inner, true, false)]
  {
    assert StackAt(m, lines, 0) == [];
    assert StackAt(m, lines, 1) == [Block(outer, false, false)];
  }
}
