/** The block state machine of specification/scripts/reflow.py: it accumulates paragraphs, reflows them
    unless the enclosing block forbids it, and numbers Valid Usage statements. */
module ReflowMachine {
  import opened Wrappers
  import opened ReflowText
  import opened ReflowPara
  import opened ReflowTags
  import opened ReflowBlocks
  import opened ReflowTrace
  import opened ReflowRun
  import opened ReflowTagText

  class ReflowState {
    const markup: Markup
    const margin: int
    const breakPeriod: bool
    const reflow: bool
    const maxvu: nat

    var blockStack: seq<Option<string>>
    var reflowStack: seq<bool>
    var vuStack: seq<bool>
    var para: seq<string>
    var leadIndent: nat
    var hangIndent: nat
    var lastTitle: bool
    var nextvu: Option<nat>
    var apiName: string
    /** What has been written. */
    var output: seq<string>

    /** The lines that have been dealt with, up to the paragraph being accumulated; the same lines with
        the tags they were given; and the first tag number. */
    ghost var source: seq<string>
    ghost var tagged: seq<string>
    ghost const firstvu: nat

    /** The open blocks that the three stacks describe. */
    ghost var blocks: seq<Block>

    /** The stacks stand together, over a bottom that is never popped, and only blocks that are reflowed
        are Valid Usage blocks. */
    ghost predicate ValidStacks()
      reads this`blockStack, this`reflowStack, this`vuStack, this`blocks
    {
      && |blockStack| == |reflowStack| == |vuStack| >= 1
      && blockStack[0] == None && reflowStack[0] && !vuStack[0]
      && (forall i :: 1 <= i < |blockStack| ==> blockStack[i].Some?)
      && (forall i :: 0 <= i < |vuStack| ==> vuStack[i] ==> reflowStack[i])
      && |blocks| == |blockStack| - 1
      && (forall i :: 0 <= i < |blocks| ==>
            Some(blocks[i].delimiter) == blockStack[i + 1]
            && blocks[i].reflowed == reflowStack[i + 1] && blocks[i].vu == vuStack[i + 1])
    }

    /** The output is the source, tagged and reflowed. */
    ghost predicate ValidBooks()
      reads this`nextvu, this`source, this`tagged, this`output
    {
      && (nextvu.Some? ==> nextvu.value <= firstvu || nextvu.value <= maxvu + 1)
      && Books(source, tagged, output, firstvu, NextTag(), nextvu.Some?, reflow)
    }

    ghost predicate Valid()
      reads this`blockStack, this`reflowStack, this`vuStack, this`blocks
      reads this`nextvu, this`source, this`tagged, this`output
    {
      ValidStacks() && ValidBooks()
    }

    ghost function View(): Progress
      reads this`source, this`tagged, this`output, this`para, this`nextvu
    {
      Progress(source, tagged, output, para, NextTag())
    }

    /** The state of the pure function. */
    ghost function RunView(): Run
      reads this`output, this`para, this`leadIndent, this`hangIndent, this`apiName, this`nextvu
    {
      Run(output, para, leadIndent, hangIndent, apiName, nextvu)
    }

    ghost function Config(): Setup {
      Setup(markup, margin, breakPeriod, reflow, maxvu)
    }

    ghost function NextTag(): nat
      reads this`nextvu
    {
      if nextvu.Some? then nextvu.value else firstvu
    }

    constructor (markup: Markup, margin: int, breakPeriod: bool, reflow: bool, nextvu: Option<nat>, maxvu: nat)
      ensures Valid() && source == [] && para == [] && output == []
      ensures this.nextvu == nextvu && firstvu == (if nextvu.Some? then nextvu.value else 0)
      ensures this.markup == markup && this.margin == margin && this.reflow == reflow && this.maxvu == maxvu
      ensures blocks == [] && !lastTitle && tagged == []
      ensures Config() == Setup(markup, margin, breakPeriod, reflow, maxvu) && RunView() == FirstRun(nextvu)
    {
      this.markup, this.margin, this.breakPeriod, this.reflow := markup, margin, breakPeriod, reflow;
      this.nextvu, this.maxvu := nextvu, maxvu;
      blockStack, reflowStack, vuStack := [None], [true], [false];
      para, leadIndent, hangIndent, lastTitle, apiName := [], 0, 0, false, DEFAULT_API;
      output, source, tagged, blocks := [], [], [], [];
      firstvu := if nextvu.Some? then nextvu.value else 0;
    }

    /** reflowPara: go through the lines and words of the paragraph, filling output lines. */
    method ReflowPara() returns (outPara: seq<string>)
      requires para != []
      modifies this`hangIndent
      ensures reflow ==> Reflowed(outPara, hangIndent)
                         == Reflow(margin, breakPeriod, leadIndent, old(hangIndent), para)
      ensures !reflow ==> outPara == para && hangIndent == old(hangIndent)
    {
      if !reflow {
        return para;
      }
      ghost var s := if TagText(para) == [] then Style(0, false, 0, 0, false)
                     else StyleFor(margin, breakPeriod, leadIndent, old(hangIndent), para);
      var wordCount := 0;
      var prevWord := " ";
      var outLine: Option<string> := None;
      var outLineLen: nat := 0;
      var bulletPoint := false;
      outPara := [];
      ghost var hang0 := hangIndent;
      for i := 0 to |para|
        invariant wordCount == |TagText(para[..i])|
        invariant Reached(hang0, s, TagText(para), wordCount, prevWord, bulletPoint, outPara, outLine, outLineLen)
      {
        TagTextAt(para, i);
        wordCount, prevWord, bulletPoint, outPara, outLine, outLineLen :=
          ReflowLine(i, wordCount, prevWord, bulletPoint, outPara, outLine, outLineLen, hang0, s);
      }
      outPara := CloseLast(wordCount, prevWord, bulletPoint, outPara, outLine, outLineLen, hang0, s);
    }

    /** All words are placed: the last line completes the paragraph. */
    method CloseLast(wordCount: nat, prevWord: string, bulletPoint: bool, outPara0: seq<string>,
                     outLine: Option<string>, outLineLen: nat, ghost hang0: nat, ghost s: Style)
      returns (outPara: seq<string>)
      requires para != [] && wordCount == |TagText(para[..|para|])|
      requires TagText(para) != [] ==> s == StyleFor(margin, breakPeriod, leadIndent, hang0, para)
      requires Reached(hang0, s, TagText(para), wordCount, prevWord, bulletPoint, outPara0, outLine, outLineLen)
      ensures Reflowed(outPara, hangIndent) == Reflow(margin, breakPeriod, leadIndent, hang0, para)
    {
      assert para[..|para|] == para;
      outPara := outPara0;
      if outLine.Some? {
        outPara := outPara + [outLine.value + "\n"];
      }
      if wordCount > 0 {
        assert outPara == RenderAll(Lines(Filled(s, TagText(para), wordCount)));
      }
    }

    /** Where the loops of reflowPara are after n words. */
    ghost predicate Reached(hang0: nat, s: Style, ws: seq<Tagged>, n: nat, prevWord: string, bulletPoint: bool,
                            outPara: seq<string>, outLine: Option<string>, outLineLen: nat)
      reads this`hangIndent
    {
      if n == 0 then outPara == [] && outLine == None && hangIndent == hang0
      else FilledSoFar(s, ws, n, prevWord, outPara, outLine, outLineLen)
           && hangIndent == s.hang && bulletPoint == s.bullet
    }

    /** The words of one line. */
    method ReflowLine(i: nat, wordCount0: nat, prevWord0: string, bulletPoint0: bool, outPara0: seq<string>,
                      outLine0: Option<string>, outLineLen0: nat, ghost hang0: nat, ghost s: Style)
      returns (wordCount: nat, prevWord: string, bulletPoint: bool,
               outPara: seq<string>, outLine: Option<string>, outLineLen: nat)
      requires i < |para| && wordCount0 == |TagText(para[..i])|
      requires TagText(para) != [] ==> s == StyleFor(margin, breakPeriod, leadIndent, hang0, para)
      requires Reached(hang0, s, TagText(para), wordCount0, prevWord0, bulletPoint0, outPara0, outLine0, outLineLen0)
      modifies this`hangIndent
      ensures wordCount == wordCount0 + |Split(para[i])|
      ensures Reached(hang0, s, TagText(para), wordCount, prevWord, bulletPoint, outPara, outLine, outLineLen)
    {
      hide Reached, StyleFor, Split;
      ghost var ws := TagText(para);
      wordCount, prevWord, bulletPoint, outPara, outLine, outLineLen :=
        wordCount0, prevWord0, bulletPoint0, outPara0, outLine0, outLineLen0;
      var words := Split(para[i]);
      for j := 0 to |words|
        invariant wordCount == wordCount0 + j
        invariant Reached(hang0, s, ws, wordCount, prevWord, bulletPoint, outPara, outLine, outLineLen)
      {
        var word := words[j];
        var endEscape := j == |words| - 1 && word == "+";
        TagTextWord(para, i, j, wordCount);
        wordCount := wordCount + 1;
        bulletPoint, outPara, outLine, outLineLen :=
          ReflowWord(word, prevWord, endEscape, wordCount, bulletPoint, outPara, outLine, outLineLen, hang0, s, ws);
        prevWord := word;
      }
    }

    /** One word. */
    method ReflowWord(word: string, prevWord: string, endEscape: bool, wordCount: nat, bulletPoint0: bool,
                      outPara0: seq<string>, outLine0: Option<string>, outLineLen0: nat,
                      ghost hang0: nat, ghost s: Style, ghost ws: seq<Tagged>)
      returns (bulletPoint: bool, outPara: seq<string>, outLine: Option<string>, outLineLen: nat)
      requires para != [] && ws == TagText(para) && ws != [] && s == StyleFor(margin, breakPeriod, leadIndent, hang0, para)
      requires 1 <= wordCount <= |ws| && ws[wordCount - 1].word == word
      requires endEscape == (word == "+" && ws[wordCount - 1].last)
      requires Reached(hang0, s, ws, wordCount - 1, prevWord, bulletPoint0, outPara0, outLine0, outLineLen0)
      modifies this`hangIndent
      ensures Reached(hang0, s, ws, wordCount, word, bulletPoint, outPara, outLine, outLineLen)
    {
      if wordCount == 1 {
        outPara, outLine, outLineLen, bulletPoint := FirstWord(word, s, ws);
      } else {
        bulletPoint := bulletPoint0;
        outPara, outLine, outLineLen := FitWord(word, prevWord, endEscape, wordCount, bulletPoint,
                                                outPara0, outLine0, outLineLen0, s, ws);
      }
    }

    /** The first word: it goes on the first line, and if it is a bullet it may set the hanging indent. */
    method FirstWord(word: string, ghost s: Style, ghost ws: seq<Tagged>)
      returns (outPara: seq<string>, outLine: Option<string>, outLineLen: nat, bulletPoint: bool)
      requires para != [] && ws == TagText(para) && ws != [] && word == ws[0].word
      requires s == StyleFor(margin, breakPeriod, leadIndent, hangIndent, para)
      modifies this`hangIndent
      ensures FilledSoFar(s, ws, 1, word, outPara, outLine, outLineLen)
      ensures hangIndent == s.hang && bulletPoint == s.bullet
    {
      outPara := [];
      outLine := Some(Spaces(leadIndent) + word);
      outLineLen := leadIndent + |word|;
      if BeginsBullet(para[0]) {
        bulletPoint := true;
        if |para| == 1 {
          hangIndent := outLineLen + 1;
        }
      } else {
        bulletPoint := false;
      }
    }

    /** One further word: add it to the current line, close the line, start another one. */
    method FitWord(word: string, prevWord: string, endEscape: bool, wordCount: nat, bulletPoint: bool,
                   para0: seq<string>, line0: Option<string>, len0: nat, ghost s: Style, ghost ws: seq<Tagged>)
      returns (outPara: seq<string>, outLine: Option<string>, outLineLen: nat)
      requires 2 <= wordCount <= |ws| && ws[wordCount - 1].word == word
      requires endEscape == (word == "+" && ws[wordCount - 1].last)
      requires bulletPoint == s.bullet && hangIndent == s.hang && margin == s.margin && breakPeriod == s.breakPeriod
      requires FilledSoFar(s, ws, wordCount - 1, prevWord, para0, line0, len0)
      ensures FilledSoFar(s, ws, wordCount, word, outPara, outLine, outLineLen)
    {
      outPara, outLine, outLineLen := para0, line0, len0;
      var addWord, closeLine, startLine := true, false, false;
      var newLen := outLineLen + 1 + |word|;
      var firstBullet := wordCount == 2 && bulletPoint;
      if endEscape {
        addWord, closeLine, startLine := true, true, false;
      } else if VuidAnchor(word) {
        addWord, closeLine, startLine := true, true, false;
      } else if newLen > margin {
        if firstBullet {
          addWord, closeLine, startLine := true, true, false;
        } else if IsBullet(word) {
          addWord, closeLine, startLine := true, true, false;
        } else {
          addWord, closeLine, startLine := false, true, true;
        }
      } else if breakPeriod && (wordCount > 2 || !firstBullet) && EndSentence(prevWord) {
        addWord, closeLine, startLine := false, true, true;
      }
      ghost var f := Filled(s, ws, wordCount - 1);
      assert Filled(s, ws, wordCount) == Put(s, ws, wordCount - 1, f);
      if addWord {
        if outLine.Some? {
          TextAppend(f.line.value, word);
          outLine := Some(outLine.value + " " + word);
          outLineLen := newLen;
        } else {
          startLine := true;
        }
      }
      if closeLine {
        if outLine.Some? {
          outPara := outPara + [outLine.value + "\n"];
          outLine := None;
        }
      }
      if startLine {
        outLine := Some(Spaces(hangIndent) + word);
        outLineLen := hangIndent + |word|;
      }
    }

    /** The innermost block allows reflowing / is a Valid Usage block. */
    predicate Reflowable()
      requires reflowStack != []
      reads this`reflowStack
    {
      reflowStack[|reflowStack| - 1]
    }

    predicate ValidUsage()
      requires vuStack != []
      reads this`vuStack
    {
      vuStack[|vuStack| - 1]
    }

    predicate Tagging()
      requires vuStack != []
      reads this`vuStack, this`nextvu
    {
      ValidUsage() && nextvu.Some?
    }

    /** Give the paragraph the next tag, if it is an untagged Valid Usage statement and there is one. */
    method TagPara()
      requires para != [] && vuStack != [] && Tagging()
      modifies this`para, this`nextvu
      ensures nextvu.Some? && para != []
      ensures TaggedFrom(old(para), para, old(nextvu).value, nextvu.value)
      ensures if Taggable(old(para)[0]) && old(nextvu).value <= maxvu
              then nextvu.value == old(nextvu).value + 1 && IsTagged(old(para)[0], para[0], old(nextvu).value)
              else nextvu == old(nextvu)
      ensures para == WithTag(Config(), old(RunView()), true) && nextvu == NextNumber(Config(), old(RunView()), true)
    {
      TaggedSame(para, nextvu.value);
      if "  **" <= para[0] {
        // A nested bullet point: not to be numbered.
      } else if !Contains(para[0], "VUID") {
        if "  *" <= para[0] {
          var newline := TagLine(para[0], apiName, markup.paramName(para), nextvu.value);
          if nextvu.value <= maxvu {
            TaggedFirst(para, newline, nextvu.value);
            para := [newline] + para[1..];
            nextvu := Some(nextvu.value + 1);
          }
        }
      }
    }

    /** Write out the accumulated paragraph, tagged and reflowed as the innermost block asks for, and
        forget it. */
    method EmitPara()
      requires Valid()
      modifies this`para, this`leadIndent, this`hangIndent, this`nextvu, this`output, this`source, this`tagged
      ensures Valid() && para == [] && leadIndent == 0 && hangIndent == 0
      ensures nextvu.Some? <==> old(nextvu).Some?
      ensures Written(old(View()), View(), old(Reflowable()), old(Tagging()), maxvu)
      ensures RunView() == Flushed(Config(), old(RunView()), old(Reflowable()), old(ValidUsage()))
      // No number is given out otherwise.
      ensures View().next == if old(para) != [] && old(Tagging()) && Taggable(old(para)[0]) && old(View()).next <= maxvu
                             then old(View()).next + 1 else old(View()).next
      ensures !old(Tagging()) ==> tagged == old(tagged + para)
      ensures reflow && old(Reflowable()) && old(para) != [] ==>
                var t := tagged[|old(tagged)|..];
                && t != []
                && output == old(output) + Reflow(margin, breakPeriod, old(leadIndent), old(hangIndent), t).para
    {
      WriteAny();
      hide Valid, Taggable, IsTagged, Reflow, Flushed, Written;
      ghost var written, laid := View().(para := []), RunView().(para := [], lead := 0, hang := 0);
      ResetPara();
      assert View() == written && RunView() == laid;
    }

    /** Write the paragraph, if there is one. */
    method WriteAny()
      requires Valid()
      modifies this`para, this`hangIndent, this`nextvu, this`output, this`source, this`tagged
      ensures Valid()
      ensures nextvu.Some? <==> old(nextvu).Some?
      ensures Written(old(View()), View().(para := []), old(Reflowable()), old(Tagging()), maxvu)
      ensures RunView().(para := [], lead := 0, hang := 0)
              == Flushed(Config(), old(RunView()), old(Reflowable()), old(ValidUsage()))
      ensures View().next == if old(para) != [] && old(Tagging()) && Taggable(old(para)[0]) && old(View()).next <= maxvu
                             then old(View()).next + 1 else old(View()).next
      ensures !old(Tagging()) ==> tagged == old(tagged + para)
      ensures |old(tagged)| <= |tagged|
      ensures reflow && old(Reflowable()) && old(para) != [] ==>
                var t := tagged[|old(tagged)|..];
                && t != []
                && output == old(output) + Reflow(margin, breakPeriod, leadIndent, old(hangIndent), t).para
    {
      ghost var reflowed, vu, tagging := Reflowable(), ValidUsage(), Tagging();
      hide Valid, Taggable, IsTagged, Reflow, Flushed, Written;
      if para != [] {
        WritePara();
      } else {
        NothingToWrite(Config(), RunView(), reflowed, vu);
        NothingWritten(View(), reflowed, tagging, maxvu);
      }
    }

    /** Reset the paragraph, including its indentation. */
    method ResetPara()
      modifies this`para, this`leadIndent, this`hangIndent
      ensures para == [] && leadIndent == 0 && hangIndent == 0
    {
      para := [];
      leadIndent := 0;
      hangIndent := 0;
    }

    method WritePara()
      requires Valid() && para != []
      modifies this`para, this`hangIndent, this`nextvu, this`output, this`source, this`tagged
      ensures Valid()
      ensures nextvu.Some? <==> old(nextvu).Some?
      ensures Written(old(View()), View().(para := []), old(Reflowable()), old(Tagging()), maxvu)
      ensures RunView().(para := [], lead := 0, hang := 0)
              == Flushed(Config(), old(RunView()), old(Reflowable()), old(ValidUsage()))
      ensures View().next == if old(Tagging()) && Taggable(old(para)[0]) && old(View()).next <= maxvu
                             then old(View()).next + 1 else old(View()).next
      ensures !old(Tagging()) ==> tagged == old(tagged + para)
      ensures |old(tagged)| < |tagged|
      ensures reflow && old(Reflowable()) ==>
                output == old(output)
                          + Reflow(margin, breakPeriod, leadIndent, old(hangIndent), tagged[|old(tagged)|..]).para
    {
      hide Valid, Taggable, IsTagged, Reflow, Laid, NextNumber;
      WriteText();
      assert tagged[|old(tagged)|..] == para;
    }

    method WriteText()
      requires Valid() && para != []
      modifies this`para, this`hangIndent, this`nextvu, this`output, this`source, this`tagged
      ensures Valid()
      ensures source == old(source + para)
      ensures nextvu.Some? <==> old(nextvu).Some?
      ensures !old(Reflowable()) ==> output == old(output + para)
      ensures old(output) <= output
      ensures para != [] && tagged == old(tagged) + para && (!old(Tagging()) ==> para == old(para))
      ensures if old(Tagging()) && Taggable(old(para)[0]) && old(View()).next <= maxvu
              then View().next == old(View()).next + 1 && |old(source)| < |tagged|
                   && IsTagged(old(para)[0], tagged[|old(source)|], old(View()).next)
              else View().next == old(View()).next
      ensures reflow && old(Reflowable()) ==>
                output == old(output) + Reflow(margin, breakPeriod, leadIndent, old(hangIndent), para).para
      ensures output == old(output) + Laid(Config(), old(RunView()), old(Reflowable()), old(ValidUsage()))
      ensures nextvu == NextNumber(Config(), old(RunView()), old(ValidUsage()))
    {
      hide Laid, NextNumber;
      hide Books, Taggable, IsTagged, Reflow;
      ghost var para0, from := para, NextTag();
      BooksLengths(source, tagged, output, firstvu, from, nextvu.Some?, reflow);
      var lines := FinalLines();
      BooksNext(source, tagged, output, para0, para, lines, firstvu, from, NextTag(), nextvu.Some?, reflow);
      output, source, tagged := output + lines, source + para0, tagged + para;
    }

    /** The paragraph as it is to be written. */
    method FinalLines() returns (lines: seq<string>)
      requires ValidStacks() && para != []
      requires nextvu.Some? ==> nextvu.value <= firstvu || nextvu.value <= maxvu + 1
      modifies this`para, this`hangIndent, this`nextvu
      ensures nextvu.Some? ==> nextvu.value <= firstvu || nextvu.value <= maxvu + 1
      ensures Books(old(para), para, lines, old(NextTag()), NextTag(), nextvu.Some?, reflow)
      ensures nextvu.Some? <==> old(nextvu).Some?
      ensures !old(Reflowable()) ==> lines == old(para)
      ensures reflow && old(Reflowable()) ==>
                lines == Reflow(margin, breakPeriod, leadIndent, old(hangIndent), para).para
      ensures para != [] && (!old(Tagging()) ==> para == old(para))
      ensures if old(Tagging()) && Taggable(old(para)[0]) && old(NextTag()) <= maxvu
              then NextTag() == old(NextTag()) + 1 && IsTagged(old(para)[0], para[0], old(NextTag()))
              else NextTag() == old(NextTag())
      ensures lines == Laid(Config(), old(RunView()), old(Reflowable()), old(ValidUsage()))
      ensures nextvu == NextNumber(Config(), old(RunView()), old(ValidUsage()))
    {
      hide Words, TaggedFrom, Taggable, IsTagged, Reflow;
      TaggedSame(para, NextTag());
      if Tagging() {
        TagPara();
      }
      lines := para;
      if Reflowable() {
        lines := ReflowPara();
        if reflow {
          ReflowKeepsWords(margin, breakPeriod, leadIndent, old(hangIndent), para);
        }
      }
    }

    /** `line` ends the paragraph and is itself written unchanged. */
    method EndPara(line: string)
      requires Valid()
      modifies this`para, this`leadIndent, this`hangIndent, this`nextvu, this`output, this`source, this`tagged
      ensures Valid()
      ensures nextvu.Some? <==> old(nextvu).Some?
      ensures Ended(old(View()), View(), line, old(Reflowable()), old(Tagging()), maxvu)
      ensures RunView() == AfterEnding(Config(), old(RunView()), line, old(Reflowable()), old(ValidUsage()))
    {
      ghost var before, reflowed, tagging := View(), Reflowable(), Tagging();
      ghost var run, vu := RunView(), ValidUsage();
      hide Valid, Flushed, AfterEnding, Written, Ended, Reflow, Taggable;
      EmitPara();
      ghost var mid, flushed := View(), RunView();
      WriteLine(line);
      EndedAfterWritten(before, mid, View(), line, reflowed, tagging, maxvu);
      EndingAfterFlushed(Config(), run, flushed, line, reflowed, vu);
    }

    method WriteLine(line: string)
      requires Valid()
      modifies this`output, this`source, this`tagged
      ensures Valid()
      ensures source == old(source) + [line] && tagged == old(tagged) + [line] && output == old(output) + [line]
    {
      TaggedSame([line], NextTag());
      BooksNext(source, tagged, output, [line], [line], [line],
                firstvu, NextTag(), NextTag(), nextvu.Some?, reflow);
      output, source, tagged := output + [line], source + [line], tagged + [line];
    }

    /** `line` ends the innermost block if it is the line that began it, and begins a block otherwise. */
    method EndBlock(line: string, reflowBlock: bool, vuBlock: bool)
      requires Valid() && (vuBlock ==> reflowBlock)
      modifies this`blockStack, this`reflowStack, this`vuStack, this`blocks, this`apiName
      modifies this`para, this`leadIndent, this`hangIndent, this`nextvu, this`output, this`source, this`tagged
      ensures Valid()
      ensures nextvu.Some? <==> old(nextvu).Some?
      ensures Ended(old(View()), View(), line, old(Reflowable()), old(Tagging()), maxvu)
      ensures blocks == Switch(old(blocks), line, reflowBlock, vuBlock)
      ensures RunView() == AfterEnding(Config(), old(RunView()), line, old(Reflowable()), old(ValidUsage()))
                           .(apiName := ApiAfterBlock(old(blocks), old(apiName), line))
    {
      hide Ended, AfterEnding, ApiAfterBlock, Switch;
      EndPara(line);
      SwitchBlock(line, reflowBlock, vuBlock);
    }

    method SwitchBlock(line: string, reflowBlock: bool, vuBlock: bool)
      requires ValidStacks() && (vuBlock ==> reflowBlock)
      modifies this`blockStack, this`reflowStack, this`vuStack, this`apiName, this`blocks
      ensures ValidStacks()
      ensures blocks == Switch(old(blocks), line, reflowBlock, vuBlock)
      ensures apiName == ApiAfterBlock(old(blocks), old(apiName), line)
    {
      var n := |blockStack| - 1;
      if blockStack[n] == Some(line) {
        if "--" <= line {
          apiName := DEFAULT_API;
        }
        blockStack, reflowStack, vuStack := blockStack[..n], reflowStack[..n], vuStack[..n];
        blocks := blocks[..n - 1];
      } else {
        blockStack := blockStack + [Some(line)];
        reflowStack := reflowStack + [reflowBlock];
        vuStack := vuStack + [vuBlock];
        blocks := blocks + [Block(line, reflowBlock, vuBlock)];
      }
    }

    /** `line` starts or continues a paragraph; less indentation or a bullet starts another one. */
    method AddLine(line: string)
      requires Valid()
      modifies this`para, this`leadIndent, this`hangIndent, this`nextvu, this`output, this`source, this`tagged
      ensures Valid()
      ensures nextvu.Some? <==> old(nextvu).Some?
      ensures Taken(old(View()), View(), line, old(Reflowable()), old(Tagging()), maxvu)
      ensures BeginsBullet(line) ==> para == [line]
      ensures RunView() == AfterText(Config(), old(RunView()), line, old(Reflowable()), old(ValidUsage()))
    {
      ghost var before, reflowed, tagging := View(), Reflowable(), Tagging();
      TextStarts(Config(), RunView(), line, reflowed, ValidUsage());
      hide Flushed, AfterText, Accumulated, Taken, Valid, Indent, BeginsBullet;
      var indent := Indent(line);
      if (para != [] && indent < hangIndent) || BeginsBullet(line) {
        NewParagraph(line, indent);
      } else {
        Accumulate(line, indent);
        TakenDirectly(before, View(), line, reflowed, tagging, maxvu);
      }
    }

    /** The paragraph so far is written; `line` starts another one. */
    method NewParagraph(line: string, indent: nat)
      requires Valid() && indent == Indent(line)
      modifies this`para, this`leadIndent, this`hangIndent, this`nextvu, this`output, this`source, this`tagged
      ensures Valid()
      ensures nextvu.Some? <==> old(nextvu).Some?
      ensures Taken(old(View()), View(), line, old(Reflowable()), old(Tagging()), maxvu)
      ensures para == [line]
      ensures RunView()
              == Accumulated(Flushed(Config(), old(RunView()), old(Reflowable()), old(ValidUsage())), line)
    {
      ghost var before, reflowed, tagging := View(), Reflowable(), Tagging();
      hide Flushed, Accumulated, Taken, Written, Valid, Indent, Taggable, IsTagged, Reflow;
      EmitPara();
      ghost var mid := View();
      Accumulate(line, indent);
      TakenAfterWritten(before, mid, View(), line, reflowed, tagging, maxvu);
    }

    method Accumulate(line: string, indent: nat)
      requires indent == Indent(line)
      modifies this`para, this`leadIndent, this`hangIndent
      ensures para == old(para) + [line]
      ensures RunView() == Accumulated(old(RunView()), line)
    {
      if para == [] {
        para := [line];
        leadIndent := indent;
        hangIndent := indent;
      } else {
        if hangIndent == leadIndent {
          hangIndent := indent;
        }
        para := para + [line];
      }
    }

    /** One step of the dispatch loop of reflowFile. previous is the line before, if there is one. */
    method ProcessLine(line: string, previous: Option<string>)
      requires Valid()
      modifies this
      ensures Valid()
      ensures nextvu.Some? <==> old(nextvu).Some?
      // The line is accounted for, and written as it is in a block whose contents must not be reflowed.
      ensures Taken(old(View()), View(), line, old(Reflowable()), old(Tagging()), maxvu)
      ensures KindOf(markup, line).Delimiter? ==>
                Ended(old(View()), View(), line, old(Reflowable()), old(Tagging()), maxvu)
      ensures KindOf(markup, line) == Plain && !old(lastTitle) && BeginsBullet(line) ==> para == [line]
      ensures blocks == NextStack(markup, old(blocks), previous, line)
      ensures lastTitle <==> KindOf(markup, line) == Ending(true)
      ensures RunView() == AfterLine(Config(), old(blocks), old(lastTitle), old(RunView()), line)
    {
      hide Taken, Ended, Valid, KindOf, NextStack, AfterLine, BeginsBullet;
      LineFacts(Config(), blocks, lastTitle, RunView(), line);
      var thisTitle := Dispatch(line, previous);
      lastTitle := thisTitle;
    }

    /** The branches of the dispatch. */
    method Dispatch(line: string, previous: Option<string>) returns (thisTitle: bool)
      requires Valid()
      modifies this`blockStack, this`reflowStack, this`vuStack, this`blocks, this`apiName
      modifies this`para, this`leadIndent, this`hangIndent, this`nextvu, this`output, this`source, this`tagged
      ensures Valid()
      ensures Taken(old(View()), View(), line, old(Reflowable()), old(Tagging()), maxvu)
      ensures KindOf(markup, line).Delimiter? ==>
                Ended(old(View()), View(), line, old(Reflowable()), old(Tagging()), maxvu)
      ensures blocks == NextStack(markup, old(blocks), previous, line)
      ensures thisTitle <==> KindOf(markup, line) == Ending(true)
      ensures RunView() == AfterLine(Config(), old(blocks), lastTitle, old(RunView()), line)
    {
      TopOfStack();
      KindCases(markup, line);
      StackCases(markup, blocks, previous, line);
      StackCases(markup, blocks, None, line);
      if KindOf(markup, line) == Delimiter(true) {
        AfterDelimiter(Config(), blocks, lastTitle, RunView(), line);
      }
      hide Taken, Ended, Valid, Switch, AfterLine, AfterEnding, ApiAfterBlock, KindOf, NextStack;
      thisTitle := false;
      if line == COMMON_BLOCK {
        EndBlock(line, true, true);
      } else if markup.blockReflow(line) {
        EndBlock(line, true, previous == Some(VALID_USAGE));
      } else {
        thisTitle := DispatchOther(line);
      }
    }

    /** Lines other than the delimiters of blocks to be reflowed. */
    method DispatchOther(line: string) returns (thisTitle: bool)
      requires Valid() && KindOf(markup, line) != Delimiter(true)
      modifies this`blockStack, this`reflowStack, this`vuStack, this`blocks, this`apiName
      modifies this`para, this`leadIndent, this`hangIndent, this`nextvu, this`output, this`source, this`tagged
      ensures Valid()
      ensures Taken(old(View()), View(), line, old(Reflowable()), old(Tagging()), maxvu)
      ensures KindOf(markup, line).Delimiter? ==>
                Ended(old(View()), View(), line, old(Reflowable()), old(Tagging()), maxvu)
      ensures blocks == NextStack(markup, old(blocks), None, line)
      ensures thisTitle <==> KindOf(markup, line) == Ending(true)
      ensures RunView() == AfterLine(Config(), old(blocks), lastTitle, old(RunView()), line)
    {
      hide Ended, Switch, AfterLine, AfterText, AfterEnding, ApiAfterBlock, Taken, KindOf, NextStack;
      TopOfStack();
      hide Valid;
      KindCases(markup, line);
      StackCases(markup, blocks, None, line);
      if markup.endPara(line) || markup.endParaContinue(line) {
        thisTitle := EndsParagraph(line);
      } else {
        thisTitle := false;
        if markup.blockPassthrough(line) {
          AfterDelimiter(Config(), blocks, lastTitle, RunView(), line);
        } else {
          AfterOther(Config(), blocks, lastTitle, RunView(), line);
        }
        ProcessText(line);
      }
    }

    /** A line that ends a paragraph. Only the second kind can be a title. */
    method EndsParagraph(line: string) returns (thisTitle: bool)
      requires Valid() && KindOf(markup, line).Ending? && (markup.endPara(line) || markup.endParaContinue(line))
      modifies this`apiName
      modifies this`para, this`leadIndent, this`hangIndent, this`nextvu, this`output, this`source, this`tagged
      ensures Valid()
      ensures Taken(old(View()), View(), line, old(Reflowable()), old(Tagging()), maxvu)
      ensures thisTitle <==> KindOf(markup, line) == Ending(true)
      ensures RunView() == AfterLine(Config(), blocks, lastTitle, old(RunView()), line)
    {
      TopOfStack();
      KindCases(markup, line);
      AfterOther(Config(), blocks, lastTitle, RunView(), line);
      hide Ended, Valid, AfterLine, AfterEnding, KindOf, TopReflowed, TopValidUsage;
      thisTitle := false;
      if markup.endPara(line) {
        EndParaAt(line);
      } else {
        EndPara(line);
        thisTitle := "= " <= line;
      }
    }

    /** `line` ends the paragraph, and may be the include that gives tags their name. */
    method EndParaAt(line: string)
      requires Valid()
      modifies this`apiName
      modifies this`para, this`leadIndent, this`hangIndent, this`nextvu, this`output, this`source, this`tagged
      ensures Valid()
      ensures Taken(old(View()), View(), line, old(Reflowable()), old(Tagging()), maxvu)
      ensures var api := markup.includedApi(line);
              RunView() == AfterEnding(Config(), old(RunView()), line, old(Reflowable()), old(ValidUsage()))
                           .(apiName := if api.Some? && old(apiName) == DEFAULT_API then api.value else old(apiName))
    {
      hide Valid;
      EndPara(line);
      var api := markup.includedApi(line);
      if api.Some? && apiName == DEFAULT_API {
        apiName := api.value;
      }
    }

    /** A passthrough delimiter, the credits under a title, or text. */
    method ProcessText(line: string)
      requires Valid()
      modifies this`blockStack, this`reflowStack, this`vuStack, this`blocks, this`apiName
      modifies this`para, this`leadIndent, this`hangIndent, this`nextvu, this`output, this`source, this`tagged
      ensures Valid()
      ensures Taken(old(View()), View(), line, old(Reflowable()), old(Tagging()), maxvu)
      ensures markup.blockPassthrough(line) ==>
                Ended(old(View()), View(), line, old(Reflowable()), old(Tagging()), maxvu)
      ensures blocks == if markup.blockPassthrough(line) then Switch(old(blocks), line, false, false) else old(blocks)
      ensures RunView() == if markup.blockPassthrough(line)
                           then AfterEnding(Config(), old(RunView()), line, old(Reflowable()), old(ValidUsage()))
                                .(apiName := ApiAfterBlock(old(blocks), old(apiName), line))
                           else if lastTitle
                           then AfterEnding(Config(), old(RunView()), line, old(Reflowable()), old(ValidUsage()))
                           else AfterText(Config(), old(RunView()), line, old(Reflowable()), old(ValidUsage()))
    {
      if markup.blockPassthrough(line) {
        EndBlock(line, false, false);
      } else if lastTitle {
        EndPara(line);
      } else {
        AddLine(line);
      }
    }

    lemma BooksBalance()
      requires Valid()
      ensures Balanced(View())
    {
      TaggedOrder(source, tagged, firstvu, NextTag());
    }

    /** The innermost block is that of the pure stack. */
    lemma TopOfStack()
      requires ValidStacks()
      ensures Reflowable() == TopReflowed(blocks) && ValidUsage() == TopValidUsage(blocks)
    {
    }
  }

  // ----- files -----

  function First(nextvu: Option<nat>): nat {
    if nextvu.Some? then nextvu.value else 0
  }

  /** Passthrough blocks with nothing to be reflowed inside stand in the output unchanged, and at their
      place. */
  ghost predicate KeepsPassthrough(m: Markup, lines: seq<string>, tagged: seq<string>, output: seq<string>) {
    forall i: nat, j: nat :: PassesThrough(m, lines, i, j) ==> Stands(tagged, output, i, lines[i..j + 1])
  }

  ghost predicate TagsStatements(m: Markup, lines: seq<string>, tagged: seq<string>) {
    forall k :: 0 <= k < |lines| && Statement(m, lines, k) ==> GivenTag(lines, tagged, k)
  }

  /** reflowFile: the output is the file with tags put in, numbered on from nextvu and not beyond maxvu,
      and then reflowed; without numbering it has the words of the file, and without reflowing it is the
      file. If numbers are left, every statement has been given one. */
  method ReflowFile(markup: Markup, margin: int, reflow: bool, lines: seq<string>, nextvu: Option<nat>, maxvu: nat)
    returns (output: seq<string>, next: Option<nat>, ghost tagged: seq<string>)
    ensures Books(lines, tagged, output, First(nextvu), First(next), nextvu.Some?, reflow)
    ensures nextvu.Some? <==> next.Some?
    ensures First(next) <= First(nextvu) || First(next) <= maxvu + 1
    ensures nextvu.None? ==> Words(output) == Words(lines)
    ensures nextvu.None? && !reflow ==> output == lines
    ensures KeepsPassthrough(markup, lines, tagged, output)
    ensures nextvu.Some? && First(next) <= maxvu ==> TagsStatements(markup, lines, tagged)
    // Taking the assigned tags out of the output gives back the words of the file.
    ensures BulletsSpaced(lines) ==> OnlyTagsAdded(Words(lines), Words(output), First(nextvu), First(next))
    // Output and next number are those of the pure function.
    ensures var r := WholeRun(Setup(markup, margin, true, reflow, maxvu), lines, nextvu);
            output == r.output && next == r.next
  {
    hide AfterLine, Flushed, OnlyTagsAdded, BulletsSpaced;
    ghost var c := Setup(markup, margin, true, reflow, maxvu);
    hide Taken, Ended, Written, Words, KindOf, KeepsPassthrough, TagsStatements;
    var state := new ReflowState(markup, margin, true, reflow, nextvu, maxvu);
    ghost var trace := [state.View()];
    for i := 0 to |lines|
      invariant fresh(state) && state.Valid() && state.markup == markup && state.maxvu == maxvu
      invariant state.nextvu.Some? <==> nextvu.Some?
      invariant |trace| == i + 1 && trace[i] == state.View()
      invariant IsTrace(markup, lines, trace, nextvu.Some?, maxvu)
      invariant state.blocks == StackAt(markup, lines, i)
      invariant state.Config() == c && state.RunView() == RunAt(c, lines, nextvu, i)
      invariant state.lastTitle <==> i > 0 && KindOf(markup, lines[i - 1]) == Ending(true)
    {
      state.TopOfStack();
      state.ProcessLine(lines[i], if i > 0 then Some(lines[i - 1]) else None);
      state.BooksBalance();
      LongerTrace(markup, lines, trace, state.View(), nextvu.Some?, maxvu);
      trace := trace + [state.View()];
    }
    state.TopOfStack();
    state.EmitPara();
    state.BooksBalance();
    output, next, tagged := state.output, state.nextvu, state.tagged;
    WholeFile(markup, lines, trace, state.View(), nextvu.Some?, maxvu);
    if BulletsSpaced(lines) {
      OutputWords(lines, tagged, output, First(nextvu), First(next), nextvu.Some?, reflow);
    }
  }

  lemma LongerTrace(m: Markup, lines: seq<string>, trace: seq<Progress>, a: Progress, numbering: bool, maxvu: nat)
    requires IsTrace(m, lines, trace, numbering, maxvu) && |trace| <= |lines|
    requires Step(m, lines, |trace| - 1, trace[|trace| - 1], a, numbering, maxvu)
    ensures IsTrace(m, lines, trace + [a], numbering, maxvu)
  {
  }

  /** What the trace of a file, and the writing of its last paragraph, amount to. */
  lemma WholeFile(m: Markup, lines: seq<string>, trace: seq<Progress>, last: Progress, numbering: bool, maxvu: nat)
    requires IsTrace(m, lines, trace, numbering, maxvu) && |trace| == |lines| + 1
    requires Written(trace[|lines|], last, TopReflowed(StackAt(m, lines, |lines|)),
                     numbering && TopValidUsage(StackAt(m, lines, |lines|)), maxvu)
    requires Balanced(last)
    ensures last.source == lines
    ensures KeepsPassthrough(m, lines, last.tagged, last.output)
    ensures numbering && last.next <= maxvu ==> TagsStatements(m, lines, last.tagged)
  {
    SourceAt(m, lines, trace, numbering, maxvu, |lines|);
    assert lines[..|lines|] == lines;
    forall i: nat, j: nat | PassesThrough(m, lines, i, j)
      ensures Stands(last.tagged, last.output, i, lines[i..j + 1])
    {
      BlockKept(m, lines, trace, numbering, maxvu, last.tagged, last.output, i, j);
    }
    if numbering && last.next <= maxvu {
      AllTagged(m, lines, trace, maxvu, |lines|);
      LastTagged(m, lines, trace[|lines|], last, maxvu);
    }
  }

  lemma LastTagged(m: Markup, lines: seq<string>, b: Progress, last: Progress, maxvu: nat)
    requires TaggedSoFar(m, lines, |lines|, b) && Balanced(b) && b.source + b.para == lines
    requires var stack := StackAt(m, lines, |lines|);
             Written(b, last, TopReflowed(stack), TopValidUsage(stack), maxvu)
    requires last.source == lines && last.next <= maxvu
    ensures TagsStatements(m, lines, last.tagged)
  {
    forall k | 0 <= k < |lines| && Statement(m, lines, k)
      ensures GivenTag(lines, last.tagged, k)
    {
      if k < |b.source| {
        assert GivenTag(lines, b.tagged, k) && last.tagged[k] == b.tagged[k];
      } else {
        assert k == |b.source| && lines[k] == b.para[0];
      }
    }
  }

  /** Over several files the numbering goes on from each file to the next. */
  method ReflowFiles(
    markup: Markup, margin: int, reflow: bool, files: seq<seq<string>>, nextvu: Option<nat>, maxvu: nat)
    returns (outputs: seq<seq<string>>, ghost taggeds: seq<seq<string>>, ghost numbers: seq<nat>)
    ensures |outputs| == |taggeds| == |files| && |numbers| == |files| + 1
    ensures numbers[0] == First(nextvu)
    ensures forall k :: 0 <= k < |files| ==>
              Books(files[k], taggeds[k], outputs[k], numbers[k], numbers[k + 1], nextvu.Some?, reflow)
    ensures forall k :: 0 <= k <= |files| ==> numbers[k] <= First(nextvu) || numbers[k] <= maxvu + 1
    ensures forall k :: 0 <= k < |files| ==> KeepsPassthrough(markup, files[k], taggeds[k], outputs[k])
    ensures nextvu.Some? ==> forall k :: 0 <= k < |files| && numbers[k + 1] <= maxvu ==>
                               TagsStatements(markup, files[k], taggeds[k])
    ensures nextvu.None? ==> forall k :: 0 <= k < |files| ==> Words(outputs[k]) == Words(files[k])
    ensures nextvu.None? && !reflow ==> forall k :: 0 <= k < |files| ==> outputs[k] == files[k]
  {
    hide KeepsPassthrough, TagsStatements, Books, Words;
    var next := nextvu;
    outputs, taggeds, numbers := [], [], [First(nextvu)];
    for i := 0 to |files|
      invariant |outputs| == |taggeds| == i && |numbers| == i + 1
      invariant numbers[0] == First(nextvu) && numbers[i] == First(next) && (next.Some? <==> nextvu.Some?)
      invariant forall k :: 0 <= k < i ==>
                  Books(files[k], taggeds[k], outputs[k], numbers[k], numbers[k + 1], nextvu.Some?, reflow)
      invariant forall k :: 0 <= k <= i ==> numbers[k] <= First(nextvu) || numbers[k] <= maxvu + 1
      invariant forall k :: 0 <= k < i ==> KeepsPassthrough(markup, files[k], taggeds[k], outputs[k])
      invariant nextvu.Some? ==> forall k :: 0 <= k < i && numbers[k + 1] <= maxvu ==>
                                   TagsStatements(markup, files[k], taggeds[k])
    {
      var output;
      ghost var tagged;
      output, next, tagged := ReflowFile(markup, margin, reflow, files[i], next, maxvu);
      outputs, taggeds, numbers := outputs + [output], taggeds + [tagged], numbers + [First(next)];
    }
    WithoutNumbering(markup, reflow, files, outputs, taggeds, numbers, nextvu.Some?);
  }

  lemma WithoutNumbering(
    m: Markup, reflow: bool, files: seq<seq<string>>, outputs: seq<seq<string>>, taggeds: seq<seq<string>>,
    numbers: seq<nat>, numbering: bool)
    requires |outputs| == |taggeds| == |files| && |numbers| == |files| + 1
    requires forall k :: 0 <= k < |files| ==>
               Books(files[k], taggeds[k], outputs[k], numbers[k], numbers[k + 1], numbering, reflow)
    ensures !numbering ==> forall k :: 0 <= k < |files| ==> Words(outputs[k]) == Words(files[k])
    ensures !numbering && !reflow ==> forall k :: 0 <= k < |files| ==> outputs[k] == files[k]
  {
    forall k | 0 <= k < |files|
      ensures !numbering ==> Words(outputs[k]) == Words(files[k]) && (!reflow ==> outputs[k] == files[k])
    {
      assert Books(files[k], taggeds[k], outputs[k], numbers[k], numbers[k + 1], numbering, reflow);
    }
  }

  /** The variables of reflowPara after n words. */
  ghost predicate FilledSoFar(s: Style, ws: seq<Tagged>, n: nat, prevWord: string,
                              outPara: seq<string>, outLine: Option<string>, outLineLen: nat)
  {
    1 <= n <= |ws| &&
    var f := Filled(s, ws, n);
    && prevWord == ws[n - 1].word
    && outPara == RenderAll(f.out)
    && outLine == (if f.line.Some? then Some(Text(f.line.value)) else None)
    && outLineLen == f.len
    && (f.line.Some? ==> f.line.value.words != [])
  }

  lemma {:induction false} TagTextPrefix(para: seq<string>, i: nat)
    requires i <= |para|
    ensures TagText(para[..i]) <= TagText(para)
    decreases |para| - i
  {
    if i < |para| {
      TagTextPrefix(para, i + 1);
      assert para[..i + 1][..i] == para[..i];
    } else {
      assert para[..i] == para;
    }
  }

  lemma TagTextNext(para: seq<string>, i: nat)
    requires i < |para|
    ensures TagText(para[..i + 1]) == TagText(para[..i]) + TagWords(Split(para[i]))
  {
    assert para[..i + 1][..i] == para[..i];
  }

  /** The words of line i among the words of the paragraph: how many, and which. */
  lemma TagTextAt(para: seq<string>, i: nat)
    requires i < |para|
    ensures var k, words := |TagText(para[..i])|, Split(para[i]);
            && k + |words| <= |TagText(para)|
            && |TagText(para[..i + 1])| == k + |words|
  {
    TagTextNext(para, i);
    TagTextPrefix(para, i + 1);
  }

  lemma TagTextWord(para: seq<string>, i: nat, j: nat, k: nat)
    requires i < |para| && j < |Split(para[i])| && k == |TagText(para[..i])| + j
    ensures k < |TagText(para)|
    ensures TagText(para)[k] == Tagged(Split(para[i])[j], j == |Split(para[i])| - 1)
  {
    TagTextNext(para, i);
    TagTextPrefix(para, i + 1);
    assert TagText(para[..i + 1])[k] == TagWords(Split(para[i]))[j];
  }
}
