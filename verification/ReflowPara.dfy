/** The greedy line filler reflowPara of specification/scripts/reflow.py: its specification, word by
    word, and what it guarantees. */
module ReflowPara {
  import opened Wrappers
  import opened ReflowText

  /** A word of the paragraph; last says whether it is the last one of its input line. */
  datatype Tagged = Tagged(word: string, last: bool)

  datatype Style = Style(margin: int, breakPeriod: bool, lead: nat, hang: nat, bullet: bool)

  /** The lines laid out so far: finished ones, and the one being filled if there is one. len is the
      length of that line; it keeps its value when the line is closed. starts tells of each word
      whether it started a line. */
  datatype Fill = Fill(out: seq<Line>, line: Option<Line>, len: nat, starts: seq<bool>)

  /** Does the word go on the current line and end it, go on the current line, or start a new one? */
  datatype Placement = Close | Join | Start

  function Place(s: Style, ws: seq<Tagged>, n: nat, len: nat): Placement
    requires 1 <= n < |ws|
  {
    var w := ws[n].word;
    var newLen := len + 1 + |w|;
    var firstBullet := n == 1 && s.bullet;
    if w == "+" && ws[n].last then Close
    else if VuidAnchor(w) then Close
    else if newLen > s.margin then (if firstBullet || IsBullet(w) then Close else Start)
    else if s.breakPeriod && !firstBullet && EndSentence(ws[n - 1].word) then Start
    else Join
  }

  /** Put word n into the layout. Without a current line every placement starts one. */
  function Put(s: Style, ws: seq<Tagged>, n: nat, f: Fill): Fill
    requires 1 <= n < |ws|
  {
    var w := ws[n].word;
    if f.line.None? then Fill(f.out, Some(Line(s.hang, [w])), s.hang + |w|, f.starts + [true])
    else
      var longer := Line(f.line.value.indent, f.line.value.words + [w]);
      match Place(s, ws, n, f.len)
      case Close => Fill(f.out + [longer], None, f.len + 1 + |w|, f.starts + [false])
      case Join => Fill(f.out, Some(longer), f.len + 1 + |w|, f.starts + [false])
      case Start => Fill(f.out + [f.line.value], Some(Line(s.hang, [w])), s.hang + |w|, f.starts + [true])
  }

  /** The layout after the first n words. */
  function Filled(s: Style, ws: seq<Tagged>, n: nat): Fill
    requires 1 <= n <= |ws|
  {
    if n == 1 then Fill([], Some(Line(s.lead, [ws[0].word])), s.lead + |ws[0].word|, [true])
    else Put(s, ws, n - 1, Filled(s, ws, n - 1))
  }

  function Lines(f: Fill): seq<Line> {
    f.out + (if f.line.Some? then [f.line.value] else [])
  }

  function Layout(s: Style, ws: seq<Tagged>): seq<Line> {
    if ws == [] then [] else Lines(Filled(s, ws, |ws|))
  }

  // ----- every word is kept, in order -----

  function Plain(ws: seq<Tagged>): seq<string> {
    if ws == [] then [] else Plain(ws[..|ws| - 1]) + [ws[|ws| - 1].word]
  }

  /** The words of lines, each with a mark on the last word of its line. */
  function TagWords(ws: seq<string>): (r: seq<Tagged>)
    ensures |r| == |ws|
    ensures forall i :: 0 <= i < |r| ==> r[i] == Tagged(ws[i], i == |ws| - 1)
  {
    seq(|ws|, i requires 0 <= i < |ws| => Tagged(ws[i], i == |ws| - 1))
  }

  function TagLines(ls: seq<Line>): seq<Tagged> {
    if ls == [] then [] else TagLines(ls[..|ls| - 1]) + TagWords(ls[|ls| - 1].words)
  }

  /** t are the first n words, and marks those after which another line was started. */
  ghost predicate Marks(ws: seq<Tagged>, n: nat, t: seq<Tagged>, starts: seq<bool>)
    requires n <= |ws|
  {
    && |t| == |starts| == n
    && (forall i :: 0 <= i < n ==> t[i].word == ws[i].word)
    && (forall i :: 0 <= i < n ==> (t[i].last <==> i == n - 1 || starts[i + 1]))
  }

  /** The layout f holds the first n words, and its lines end where the next word started one. */
  ghost predicate Placed(ws: seq<Tagged>, n: nat, f: Fill)
    requires n <= |ws|
  {
    Marks(ws, n, TagLines(Lines(f)), f.starts) && (f.line.Some? ==> f.line.value.words != [])
  }

  lemma MarksStart(ws: seq<Tagged>, n: nat, t: seq<Tagged>, starts: seq<bool>)
    requires n < |ws| && Marks(ws, n, t, starts)
    ensures Marks(ws, n + 1, t + [Tagged(ws[n].word, true)], starts + [true])
  {
  }

  lemma MarksJoin(ws: seq<Tagged>, n: nat, t: seq<Tagged>, t': seq<Tagged>, starts: seq<bool>)
    requires n < |ws| && Marks(ws, n, t, starts)
    requires |t'| == n + 1 && t'[n] == Tagged(ws[n].word, true)
    requires forall i :: 0 <= i < n ==> t'[i] == Tagged(t[i].word, t[i].last && i < n - 1)
    ensures Marks(ws, n + 1, t', starts + [false])
  {
  }

  lemma TagLinesAppend(ls: seq<Line>, l: Line)
    ensures TagLines(ls + [l]) == TagLines(ls) + TagWords(l.words)
  {
    assert (ls + [l])[..|ls|] == ls;
  }

  /** One more word on the last line: it takes over the mark. */
  lemma TagLinesJoin(ls: seq<Line>, l: Line, w: string)
    requires l.words != []
    ensures var t, t' := TagLines(ls + [l]), TagLines(ls + [Line(l.indent, l.words + [w])]);
            && |t| > 0 && |t'| == |t| + 1 && t'[|t|] == Tagged(w, true)
            && t[|t| - 1].last
            && forall i :: 0 <= i < |t| ==> t'[i] == Tagged(t[i].word, t[i].last && i < |t| - 1)
  {
    TagLinesAppend(ls, l);
    TagLinesAppend(ls, Line(l.indent, l.words + [w]));
  }

  lemma {:induction false} WordsArePlaced(s: Style, ws: seq<Tagged>, n: nat)
    requires 1 <= n <= |ws|
    ensures Placed(ws, n, Filled(s, ws, n))
  {
    if n == 1 {
      PlaceFirst(ws, Filled(s, ws, n));
    } else {
      var e := Filled(s, ws, n - 1);
      WordsArePlaced(s, ws, n - 1);
      PlaceNext(s, ws, n - 1, e, Filled(s, ws, n));
    }
  }

  lemma PlaceFirst(ws: seq<Tagged>, f: Fill)
    requires ws != [] && f.out == [] && f.line.Some? && f.line.value.words == [ws[0].word] && f.starts == [true]
    ensures Placed(ws, 1, f)
  {
    assert Lines(f) == [f.line.value];
    TagOneLine(f.line.value);
  }

  lemma TagOneLine(l: Line)
    ensures TagLines([l]) == TagWords(l.words)
  {
    TagLinesAppend([], l);
    assert [] + [l] == [l];
    assert TagLines([]) + TagWords(l.words) == TagWords(l.words);
  }

  lemma PlaceNext(s: Style, ws: seq<Tagged>, n: nat, e: Fill, f: Fill)
    requires 1 <= n < |ws| && Placed(ws, n, e) && f == Put(s, ws, n, e)
    ensures Placed(ws, n + 1, f)
  {
    var w := ws[n].word;
    if f.starts[n] {
      var started := Line(s.hang, [w]);
      assert Lines(f) == Lines(e) + [started];
      TagLinesAppend(Lines(e), started);
      assert TagWords([w]) == [Tagged(w, true)];
      MarksStart(ws, n, TagLines(Lines(e)), e.starts);
    } else {
      var l := e.line.value;
      assert Lines(e) == e.out + [l] && Lines(f) == e.out + [Line(l.indent, l.words + [w])];
      TagLinesJoin(e.out, l, w);
      MarksJoin(ws, n, TagLines(Lines(e)), TagLines(Lines(f)), e.starts);
    }
  }

  /** The words of text lines, each with a mark on the last word of its line. */
  function TagText(para: seq<string>): (ws: seq<Tagged>)
    ensures forall i :: 0 <= i < |ws| ==> IsWord(ws[i].word)
  {
    if para == [] then []
    else
      var last := Split(para[|para| - 1]);
      assert forall i :: 0 <= i < |last| ==> last[i] in last;
      TagText(para[..|para| - 1]) + TagWords(last)
  }

  ghost predicate LineOfWords(l: Line) {
    forall w :: w in l.words ==> IsWord(w)
  }

  lemma {:induction false} TagRendered(ls: seq<Line>)
    requires forall i :: 0 <= i < |ls| ==> LineOfWords(ls[i])
    ensures TagText(RenderAll(ls)) == TagLines(ls)
  {
    if ls != [] {
      var init, last := ls[..|ls| - 1], ls[|ls| - 1];
      TagRendered(init);
      SplitRender(last);
      assert RenderAll(ls)[..|ls| - 1] == RenderAll(init);
    }
  }

  /** The words of the lines are among the words that were laid out. */
  lemma {:induction false} TagLinesWords(ls: seq<Line>)
    requires forall i :: 0 <= i < |TagLines(ls)| ==> IsWord(TagLines(ls)[i].word)
    ensures forall i :: 0 <= i < |ls| ==> LineOfWords(ls[i])
  {
    if ls != [] {
      var init, last := ls[..|ls| - 1], ls[|ls| - 1];
      assert TagLines(ls) == TagLines(init) + TagWords(last.words);
      WordsOfBoth(TagLines(init), TagWords(last.words));
      TagLinesWords(init);
      forall w | w in last.words
        ensures IsWord(w)
      {
        var i :| 0 <= i < |last.words| && last.words[i] == w;
        assert TagWords(last.words)[i].word == w;
      }
    }
  }

  lemma WordsOfBoth(a: seq<Tagged>, b: seq<Tagged>)
    requires forall i :: 0 <= i < |a + b| ==> IsWord((a + b)[i].word)
    ensures forall i :: 0 <= i < |a| ==> IsWord(a[i].word)
    ensures forall i :: 0 <= i < |b| ==> IsWord(b[i].word)
  {
    assert forall i :: 0 <= i < |a| ==> a[i] == (a + b)[i];
    assert forall i :: 0 <= i < |b| ==> b[i] == (a + b)[|a| + i];
  }

  /** Splitting the rendered layout gives back the words of the paragraph, in order. */
  lemma LayoutKeepsWords(s: Style, ws: seq<Tagged>)
    requires ws != [] && forall i :: 0 <= i < |ws| ==> IsWord(ws[i].word)
    ensures TagText(RenderAll(Layout(s, ws))) == TagLines(Layout(s, ws))
    ensures Marks(ws, |ws|, TagText(RenderAll(Layout(s, ws))), Filled(s, ws, |ws|).starts)
    ensures forall i :: 0 <= i < |Layout(s, ws)| ==> LineOfWords(Layout(s, ws)[i])
  {
    WordsArePlaced(s, ws, |ws|);
    TagLinesWords(Layout(s, ws));
    TagRendered(Layout(s, ws));
  }

  // ----- the margin -----

  /** A line is within the margin, or holds one word only. */
  predicate Fits(s: Style, l: Line) {
    |Text(l)| <= s.margin || |l.words| == 1
  }

  /** A word that is put on the current line whatever its length: a `+`, a Valid Usage anchor, a
      bullet, or the word after the bullet that begins the paragraph. */
  predicate Forced(s: Style, k: nat, l: Line)
    requires l.words != []
  {
    var w := l.words[|l.words| - 1];
    w == "+" || VuidAnchor(w) || IsBullet(w) || (s.bullet && k == 0 && |l.words| == 2)
  }

  /** Line k fits, or would but for a last word that was forced on it. */
  predicate WithinMargin(s: Style, k: nat, l: Line) {
    l.words != [] &&
    (Fits(s, l) || (Forced(s, k, l) && Fits(s, Line(l.indent, l.words[..|l.words| - 1]))))
  }

  ghost predicate FillWithinMargin(s: Style, n: nat, f: Fill) {
    && (f.line.Some? ==> f.line.value.words != [] && f.len == |Text(f.line.value)| && Fits(s, f.line.value))
    && (n == 1 ==> f.out == [] && (f.line.Some? ==> |f.line.value.words| == 1))
    && (forall k :: 0 <= k < |f.out| ==> WithinMargin(s, k, f.out[k]))
  }

  lemma FillNextWithinMargin(s: Style, ws: seq<Tagged>, n: nat, e: Fill)
    requires 1 <= n < |ws| && FillWithinMargin(s, n, e)
    ensures FillWithinMargin(s, n + 1, Put(s, ws, n, e))
  {
    var f, w := Put(s, ws, n, e), ws[n].word;
    if e.line.Some? {
      var l := e.line.value;
      TextAppend(l, w);
      var longer := Line(l.indent, l.words + [w]);
      assert longer.words[..|longer.words| - 1] == l.words;
      assert Place(s, ws, n, e.len) == Close && !Fits(s, longer) ==> Forced(s, |e.out|, longer);
    }
  }

  lemma {:induction false} FilledWithinMargin(s: Style, ws: seq<Tagged>, n: nat)
    requires 1 <= n <= |ws|
    ensures FillWithinMargin(s, n, Filled(s, ws, n))
  {
    if n > 1 {
      hide FillWithinMargin, Put;
      FilledWithinMargin(s, ws, n - 1);
      FillNextWithinMargin(s, ws, n - 1, Filled(s, ws, n - 1));
    }
  }

  /** Every line of the layout is within the margin, up to single and forced words. */
  lemma LayoutWithinMargin(s: Style, ws: seq<Tagged>, k: nat)
    requires k < |Layout(s, ws)|
    ensures WithinMargin(s, k, Layout(s, ws)[k])
  {
    FilledWithinMargin(s, ws, |ws|);
  }

  // ----- reflowing once more -----

  /** One paragraph: its text, and the indents that are left behind. */
  datatype Reflowed = Reflowed(para: seq<string>, hang: nat)

  function StyleFor(margin: int, breakPeriod: bool, lead: nat, hang: nat, para: seq<string>): Style
    requires para != [] && TagText(para) != []
  {
    var bullet := BeginsBullet(para[0]);
    Style(margin, breakPeriod, lead,
          if bullet && |para| == 1 then lead + |TagText(para)[0].word| + 1 else hang, bullet)
  }

  /** reflowPara, as a function of the lines accumulated and the indents. */
  function Reflow(margin: int, breakPeriod: bool, lead: nat, hang: nat, para: seq<string>): Reflowed
    requires para != []
  {
    var ws := TagText(para);
    if ws == [] then Reflowed([], hang)
    else
      var s := StyleFor(margin, breakPeriod, lead, hang, para);
      Reflowed(RenderAll(Layout(s, ws)), s.hang)
  }

  /** The second run sees the same words, marked where the first run ended its lines. */
  ghost predicate SecondRun(s: Style, ws: seq<Tagged>, s2: Style, ws2: seq<Tagged>) {
    && ws != []
    && Marks(ws, |ws|, ws2, Filled(s, ws, |ws|).starts)
    && s2.margin == s.margin && s2.breakPeriod == s.breakPeriod && s2.lead == s.lead
    // A different hanging indent does not matter if no further line is started ...
    && (s2.hang == s.hang || forall i :: 1 <= i < |ws| ==> !Filled(s, ws, |ws|).starts[i])
    // ... and the paragraph begins with a bullet as before, or only now that its first line has grown.
    && (s.bullet && |ws| > 1 ==> s2.bullet)
    && (s2.bullet ==> |ws| > 1 && !Filled(s, ws, |ws|).starts[1])
  }

  lemma StartsGrow(s: Style, ws: seq<Tagged>, n: nat, f: Fill)
    requires 1 <= n < |ws|
    ensures f.starts <= Put(s, ws, n, f).starts
  {
  }

  lemma {:induction false} StartsArePrefix(s: Style, ws: seq<Tagged>, n: nat)
    requires 1 <= n <= |ws|
    ensures |Filled(s, ws, n).starts| == n && Filled(s, ws, n).starts <= Filled(s, ws, |ws|).starts
    decreases |ws| - n
  {
    StartsCount(s, ws, n);
    if n < |ws| {
      StartsArePrefix(s, ws, n + 1);
      StartsGrow(s, ws, n, Filled(s, ws, n));
      assert Filled(s, ws, n + 1) == Put(s, ws, n, Filled(s, ws, n));
      hide Filled, Put;
    }
  }

  lemma StartsCount(s: Style, ws: seq<Tagged>, n: nat)
    requires 1 <= n <= |ws|
    ensures |Filled(s, ws, n).starts| == n
  {
    WordsArePlaced(s, ws, n);
    hide Filled, TagLines;
  }

  /** Word n, a `+`, was moved to a line of its own although the line before it was still open, and
      that line does not end in a `+` that was appended to it. */
  ghost predicate Stranded(s: Style, ws: seq<Tagged>, n: nat)
    requires 1 <= n < |ws|
  {
    var starts := Filled(s, ws, |ws|).starts;
    && |starts| == |ws|
    && ws[n].word == "+" && starts[n] && (n == |ws| - 1 || starts[n + 1])
    && Filled(s, ws, n).line.Some?
    && !(ws[n - 1].word == "+" && !starts[n - 1])
  }

  /** The second run after n words, given the first: it lays out the same, except that it has already
      closed a line that ends in an appended `+` when the next word is about to start another one. */
  ghost function InStep(ws: seq<Tagged>, n: nat, f: Fill, next: bool): Fill
    requires 1 <= n <= |ws| && |f.starts| == n
  {
    if f.line.Some? && next && ws[n - 1].word == "+" && !f.starts[n - 1]
    then Fill(f.out + [f.line.value], None, f.len, f.starts) else f
  }

  /** One word in both runs. `starts` tells whether the first run starts a line with it, `ends` whether
      it ends one there. */
  lemma PutTogether(s: Style, ws: seq<Tagged>, s2: Style, ws2: seq<Tagged>, n: nat, f: Fill, starts: bool, ends: bool)
    requires 1 <= n < |ws| == |ws2| && |f.starts| == n
    requires ws2[n].word == ws[n].word && ws2[n - 1].word == ws[n - 1].word
    requires Put(s, ws, n, f).starts[n] == starts && ws2[n].last == ends
    requires Put(s, ws, n, f).line.None? ==> ends
    requires s2.margin == s.margin && s2.breakPeriod == s.breakPeriod
    requires starts ==> s2.hang == s.hang
    requires s.bullet ==> s2.bullet
    requires n == 1 && s2.bullet ==> !starts
    requires ws[n].word == "+" && starts && ends && f.line.Some? ==> ws[n - 1].word == "+" && !f.starts[n - 1]
    ensures Put(s2, ws2, n, InStep(ws, n, f, starts)) == InStep(ws, n + 1, Put(s, ws, n, f), ends)
  {
    if f.line.Some? && !(starts && ws[n - 1].word == "+" && !f.starts[n - 1]) {
      var p, p2 := Place(s, ws, n, f.len), Place(s2, ws2, n, f.len);
      assert starts <==> p == Start;
      if p == Join && ws[n].word == "+" && ends {
        assert p2 == Close;
      } else {
        assert p2 == p;
      }
    }
  }

  lemma PutStarts(s: Style, ws: seq<Tagged>, n: nat, f: Fill)
    requires 1 <= n < |ws| && |f.starts| == n
    ensures |Put(s, ws, n, f).starts| == n + 1
    ensures f.line.None? ==> Put(s, ws, n, f).starts[n]
  {
  }

  /** Whether word n starts a line is settled when it is put. */
  lemma StartSettled(s: Style, ws: seq<Tagged>, n: nat, S: seq<bool>)
    requires 1 <= n < |ws| && S == Filled(s, ws, |ws|).starts
    ensures |Filled(s, ws, n).starts| == n && |S| == |ws| && Filled(s, ws, n).starts <= S
    ensures Put(s, ws, n, Filled(s, ws, n)).starts[n] == S[n]
    ensures Filled(s, ws, n + 1) == Put(s, ws, n, Filled(s, ws, n))
  {
    StartsArePrefix(s, ws, n);
    StartsArePrefix(s, ws, n + 1);
    StartsArePrefix(s, ws, |ws|);
  }

  lemma NextStarts(s: Style, ws: seq<Tagged>, n: nat, S: seq<bool>)
    requires 1 <= n < |ws| && S == Filled(s, ws, |ws|).starts
    ensures |Filled(s, ws, n).starts| == n && |S| == |ws|
    ensures Put(s, ws, n, Filled(s, ws, n)).starts[n] == S[n]
    ensures n + 1 < |ws| && Put(s, ws, n, Filled(s, ws, n)).line.None? ==> S[n + 1]
  {
    StartSettled(s, ws, n, S);
    if n + 1 < |ws| {
      StartSettled(s, ws, n + 1, S);
      PutStarts(s, ws, n + 1, Filled(s, ws, n + 1));
    }
  }

  /** Where the second run is after n words, if it keeps in step. */
  ghost predicate Together(s: Style, ws: seq<Tagged>, s2: Style, ws2: seq<Tagged>, n: nat)
    requires 1 <= n <= |ws| == |ws2|
  {
    var starts := Filled(s, ws, |ws|).starts;
    && |starts| == |ws|
    && |Filled(s, ws, n).starts| == n
    && Filled(s2, ws2, n) == InStep(ws, n, Filled(s, ws, n), n == |ws| || starts[n])
  }

  lemma StepTogether(s: Style, ws: seq<Tagged>, s2: Style, ws2: seq<Tagged>, n: nat)
    requires SecondRun(s, ws, s2, ws2) && 1 <= n < |ws| && !Stranded(s, ws, n)
    requires Together(s, ws, s2, ws2, n)
    ensures Together(s, ws, s2, ws2, n + 1)
  {
    var starts := Filled(s, ws, |ws|).starts;
    StartSettled(s, ws, n, starts);
    NextStarts(s, ws, n, starts);
    PutStarts(s, ws, n, Filled(s, ws, n));
    PutTogether(s, ws, s2, ws2, n, Filled(s, ws, n), starts[n], n + 1 == |ws| || starts[n + 1]);
  }

  lemma {:induction false} RunTogether(s: Style, ws: seq<Tagged>, s2: Style, ws2: seq<Tagged>, n: nat)
    requires SecondRun(s, ws, s2, ws2) && 1 <= n <= |ws|
    requires forall i :: 1 <= i < n ==> !Stranded(s, ws, i)
    ensures Together(s, ws, s2, ws2, n)
  {
    hide Together, Stranded, SecondRun;
    if n > 1 {
      RunTogether(s, ws, s2, ws2, n - 1);
      StepTogether(s, ws, s2, ws2, n - 1);
    } else {
      StartTogether(s, ws, s2, ws2);
    }
  }

  lemma StartTogether(s: Style, ws: seq<Tagged>, s2: Style, ws2: seq<Tagged>)
    requires SecondRun(s, ws, s2, ws2)
    ensures Together(s, ws, s2, ws2, 1)
  {
    StartsArePrefix(s, ws, 1);
    StartsCount(s, ws, |ws|);
    assert ws2[0].word == ws[0].word;
    hide TagLines;
  }

  /** The first stranded word makes the runs differ: the second appends it to the line before. */
  lemma StrandedDiverges(s: Style, ws: seq<Tagged>, s2: Style, ws2: seq<Tagged>, n: nat)
    requires SecondRun(s, ws, s2, ws2) && 1 <= n < |ws| && Stranded(s, ws, n)
    requires forall i :: 1 <= i < n ==> !Stranded(s, ws, i)
    ensures |Filled(s2, ws2, |ws|).starts| == |ws| && !Filled(s2, ws2, |ws|).starts[n]
  {
    RunTogether(s, ws, s2, ws2, n);
    StartSettled(s, ws, n, Filled(s, ws, |ws|).starts);
    StartSettled(s2, ws2, n, Filled(s2, ws2, |ws|).starts);
    StrandedStays(s, ws, n);
    hide Filled, Stranded, InStep;
    AppendedPlus(s2, ws2, n, Filled(s2, ws2, n));
  }

  lemma StrandedStays(s: Style, ws: seq<Tagged>, n: nat)
    requires 1 <= n < |ws| && Stranded(s, ws, n) && |Filled(s, ws, n).starts| == n
    requires Filled(s, ws, n).starts <= Filled(s, ws, |ws|).starts
    ensures InStep(ws, n, Filled(s, ws, n), true) == Filled(s, ws, n)
    ensures Filled(s, ws, n).line.Some?
  {
    hide Filled;
  }

  /** A `+` at the end of an input line is appended to the current line. */
  lemma AppendedPlus(s: Style, ws: seq<Tagged>, n: nat, f: Fill)
    requires 1 <= n < |ws| && ws[n].word == "+" && ws[n].last && f.line.Some? && |f.starts| == n
    ensures !Put(s, ws, n, f).starts[n]
  {
  }

  ghost predicate SomeStranded(s: Style, ws: seq<Tagged>) {
    exists n :: 1 <= n < |ws| && Stranded(s, ws, n)
  }

  lemma FirstStranded(s: Style, ws: seq<Tagged>) returns (n: nat)
    requires SomeStranded(s, ws)
    ensures 1 <= n < |ws| && Stranded(s, ws, n)
    ensures forall i :: 1 <= i < n ==> !Stranded(s, ws, i)
  {
    n := 1;
    while !Stranded(s, ws, n)
      invariant 1 <= n < |ws|
      invariant forall i :: 1 <= i < n ==> !Stranded(s, ws, i)
      invariant exists m :: n <= m < |ws| && Stranded(s, ws, m)
      decreases |ws| - n
    {
      n := n + 1;
    }
  }

  /** The layouts of the two runs agree exactly if no `+` was stranded. */
  lemma SecondLayout(s: Style, ws: seq<Tagged>, s2: Style, ws2: seq<Tagged>)
    requires SecondRun(s, ws, s2, ws2)
    ensures SomeStranded(s, ws) ==> TagLines(Layout(s2, ws2)) != TagLines(Layout(s, ws))
    ensures !SomeStranded(s, ws) ==> Layout(s2, ws2) == Layout(s, ws)
  {
    if SomeStranded(s, ws) {
      var n := FirstStranded(s, ws);
      StrandedDiverges(s, ws, s2, ws2, n);
      WordsArePlaced(s, ws, |ws|);
      WordsArePlaced(s2, ws2, |ws|);
      assert TagLines(Layout(s, ws))[n - 1].last && !TagLines(Layout(s2, ws2))[n - 1].last;
    } else {
      RunTogether(s, ws, s2, ws2, |ws|);
    }
  }

  lemma {:induction false} FirstTag(ls: seq<Line>)
    requires ls != [] && forall i :: 0 <= i < |ls| ==> ls[i].words != []
    ensures |TagLines(ls)| >= |ls[0].words|
    ensures TagLines(ls)[0] == Tagged(ls[0].words[0], |ls[0].words| == 1)
    ensures |ls| == 1 ==> TagLines(ls) == TagWords(ls[0].words)
  {
    if |ls| > 1 {
      FirstTag(ls[..|ls| - 1]);
    } else {
      assert ls[..0] == [] && TagLines(ls[..0]) == [];
    }
  }

  lemma BulletIsWord(t: string)
    requires IsBullet(t)
    ensures IsWord(t)
  {
    if |t| >= 3 && t[0] == '<' && t[|t| - 1] == '>' && IsDigits(t[1..|t| - 1]) {
      assert forall i :: 1 <= i < |t| - 1 ==> t[i] == t[1..|t| - 1][i - 1];
    }
  }

  lemma FirstWord(n: nat, w: string, rest: string)
    requires IsWord(w) && rest != "" && IsWhite(rest[0])
    ensures Split(Spaces(n) + (w + rest)) != [] && Split(Spaces(n) + (w + rest))[0] == w
  {
    SplitSpaces(n, w + rest);
    SplitWord(w, rest);
  }

  /** The first word of a line that begins with a bullet is that bullet. */
  lemma BulletIsFirstWord(line: string)
    requires BeginsBullet(line)
    ensures Split(line) != [] && IsBullet(Split(line)[0])
  {
    var n := LeadingSpaces(line);
    var t := line[n..];
    var k := BeforeSpace(t);
    var w, rest := t[..k], t[k..];
    LeadingSpacesAreSpaces(line);
    StopsAtSpace(t);
    BulletIsWord(w);
    assert line == Spaces(n) + (w + rest);
    FirstWord(n, w, rest);
  }

  lemma {:induction false} LeadingSpacesAreSpaces(line: string)
    ensures forall i :: 0 <= i < LeadingSpaces(line) ==> line[i] == ' '
  {
    if line != "" && line[0] == ' ' {
      LeadingSpacesAreSpaces(line[1..]);
    }
  }

  lemma {:induction false} StopsAtSpace(t: string)
    ensures BeforeSpace(t) < |t| ==> t[BeforeSpace(t)] == ' '
  {
    if t != "" && t[0] != ' ' {
      StopsAtSpace(t[1..]);
    }
  }

  lemma {:induction false} FirstTagOfText(para: seq<string>)
    requires para != [] && Split(para[0]) != []
    ensures TagText(para) != [] && TagText(para)[0].word == Split(para[0])[0]
  {
    if |para| > 1 {
      FirstTagOfText(para[..|para| - 1]);
    } else {
      assert TagText(para[..0]) == [];
    }
  }

  /** The first line of a layout. */
  lemma FirstLineOf(ws: seq<Tagged>, ls: seq<Line>, starts: seq<bool>)
    requires ws != [] && Marks(ws, |ws|, TagLines(ls), starts)
    requires forall i :: 0 <= i < |ls| ==> ls[i].words != []
    ensures ls != [] && ls[0].words[0] == ws[0].word
    ensures |ls[0].words| == 1 <==> |ws| == 1 || starts[1]
    ensures |ls| == 1 ==> forall i :: 1 <= i < |ws| ==> !starts[i]
  {
    assert ls != [] by {
      assert TagLines([]) == [];
    }
    FirstTag(ls);
    hide TagLines;
    FirstMark(ws, TagLines(ls), starts);
    if |ls| == 1 {
      OneLineNoStarts(ws, TagLines(ls), starts);
    }
  }

  lemma FirstMark(ws: seq<Tagged>, t: seq<Tagged>, starts: seq<bool>)
    requires ws != [] && Marks(ws, |ws|, t, starts)
    ensures t[0].word == ws[0].word && (t[0].last <==> |ws| == 1 || starts[1])
  {
  }

  lemma FirstLine(s: Style, ws: seq<Tagged>)
    requires ws != [] && forall i :: 0 <= i < |ws| ==> IsWord(ws[i].word)
    ensures var ls, starts := Layout(s, ws), Filled(s, ws, |ws|).starts;
            && ls != [] && |starts| == |ws| && LineOfWords(ls[0])
            && ls[0].words != [] && ls[0].words[0] == ws[0].word
            && (|ls[0].words| == 1 <==> |ws| == 1 || starts[1])
            && (|ls| == 1 ==> forall i :: 1 <= i < |ws| ==> !starts[i])
  {
    LayoutKeepsWords(s, ws);
    forall i | 0 <= i < |Layout(s, ws)|
      ensures Layout(s, ws)[i].words != []
    {
      LayoutWithinMargin(s, ws, i);
    }
    FirstLineOf(ws, Layout(s, ws), Filled(s, ws, |ws|).starts);
  }

  lemma OneLineNoStarts(ws: seq<Tagged>, t: seq<Tagged>, starts: seq<bool>)
    requires Marks(ws, |ws|, t, starts)
    requires forall i :: 0 <= i < |t| ==> t[i].last == (i == |t| - 1)
    ensures forall i :: 1 <= i < |ws| ==> !starts[i]
  {
    forall i | 1 <= i < |ws|
      ensures !starts[i]
    {
      assert !t[i - 1].last;
    }
  }

  /** A paragraph that begins with a bullet keeps its second word on the first line. */
  lemma BulletKeepsSecond(s: Style, ws: seq<Tagged>)
    requires |ws| > 1 && s.bullet
    ensures |Filled(s, ws, |ws|).starts| == |ws| && !Filled(s, ws, |ws|).starts[1]
  {
    StartSettled(s, ws, 1, Filled(s, ws, |ws|).starts);
  }

  /** What the second run starts from. */
  lemma SecondRunOf(margin: int, breakPeriod: bool, lead: nat, hang: nat, para: seq<string>)
    requires para != [] && TagText(para) != []
    ensures var r := Reflow(margin, breakPeriod, lead, hang, para);
            r.para != [] && TagText(r.para) != [] &&
            SecondRun(StyleFor(margin, breakPeriod, lead, hang, para), TagText(para),
                      StyleFor(margin, breakPeriod, lead, r.hang, r.para), TagText(r.para))
  {
    var ws := TagText(para);
    var s := StyleFor(margin, breakPeriod, lead, hang, para);
    var ls := Layout(s, ws);
    LayoutKeepsWords(s, ws);
    FirstLine(s, ws);
    RenderBullet(ls[0]);
    if s.bullet && |ws| > 1 {
      BulletIsFirstWord(para[0]);
      FirstTagOfText(para);
      BulletKeepsSecond(s, ws);
    }
  }

  /** Reflowing a reflowed paragraph with the indents it was left with changes nothing, exactly if no
      `+` in the middle of an input line was stranded on an output line of its own. */
  lemma ReflowAgain(margin: int, breakPeriod: bool, lead: nat, hang: nat, para: seq<string>)
    requires para != [] && TagText(para) != []
    ensures var r := Reflow(margin, breakPeriod, lead, hang, para);
            r.para != [] &&
            (Reflow(margin, breakPeriod, lead, r.hang, r.para).para == r.para
             <==> !SomeStranded(StyleFor(margin, breakPeriod, lead, hang, para), TagText(para)))
  {
    var ws, s := TagText(para), StyleFor(margin, breakPeriod, lead, hang, para);
    var r := Reflow(margin, breakPeriod, lead, hang, para);
    SecondRunOf(margin, breakPeriod, lead, hang, para);
    var ws2, s2 := TagText(r.para), StyleFor(margin, breakPeriod, lead, r.hang, r.para);
    SecondLayout(s, ws, s2, ws2);
    LayoutKeepsWords(s, ws);
    LayoutKeepsWords(s2, ws2);
  }

  /** In particular if every `+` ends its input line, as the line-break markup wants it. */
  lemma TrailingPlusesAreSafe(s: Style, ws: seq<Tagged>)
    requires forall i :: 0 <= i < |ws| && ws[i].word == "+" ==> ws[i].last
    ensures !SomeStranded(s, ws)
  {
    forall n | 1 <= n < |ws|
      ensures !Stranded(s, ws, n)
    {
      StartSettled(s, ws, n, Filled(s, ws, |ws|).starts);
    }
  }

  lemma PlainWord(w: string)
    requires w != "" && (w == "+" || forall i :: 0 <= i < |w| ==> w[i] == 'x')
    ensures IsWord(w) && !IsBullet(w) && !VuidAnchor(w)
  {
    assert w[0] == '+' || w[0] == 'x';
    assert |"[[VUID-"| == 7 && |"{empty}::"| == 9 && "::"[0] == ':' && "{empty}::"[0] == '{' && "[[VUID-"[0] == '[';
  }

  /** A `+` between two words so long that neither leaves room for it is stranded. */
  lemma StrandedBetween(s: Style, a: string, b: string)
    requires PlainText(a) && PlainText(b) && !s.bullet
    requires s.lead + |a| + 2 > s.margin && s.hang + |b| + 2 > s.margin
    ensures SomeStranded(s, [Tagged(a, false), Tagged("+", false), Tagged(b, true)])
  {
    var ws := [Tagged(a, false), Tagged("+", false), Tagged(b, true)];
    PlainWord("+");
    PlainWord(b);
    assert Filled(s, ws, 1) == Fill([], Some(Line(s.lead, [a])), s.lead + |a|, [true]);
    assert Filled(s, ws, 2) == Fill([Line(s.lead, [a])], Some(Line(s.hang, ["+"])), s.hang + 1, [true, true]);
    assert Filled(s, ws, 3).starts == [true, true, true];
    assert Stranded(s, ws, 1);
  }

  predicate PlainText(w: string) {
    w != "" && w != "+" && forall i :: 0 <= i < |w| ==> w[i] == 'x'
  }

  /** A word of n letters. */
  function Letters(n: nat): string {
    seq(n, _ => 'x')
  }

  /** A paragraph that is not reflowed to the same text twice, at the default margin: a `+` between two
      long words. */
  lemma StrandedPlus()
    ensures var para := [Letters(76) + " + " + Letters(75) + "\n"];
            var once := Reflow(76, true, 0, 0, para);
            once.para != [] && Reflow(76, true, 0, once.hang, once.para).para != once.para
  {
    var a, b := Letters(76), Letters(75);
    assert PlainText(a) && PlainText(b) by {
      assert |a| == 76 && |b| == 75 && |"+"| == 1;
    }
    TwicePlus(a, b);
    StrandedBetween(Style(76, true, 0, 0, false), a, b);
    ReflowAgain(76, true, 0, 0, [a + " + " + b + "\n"]);
  }

  /** The paragraph as the layout sees it. */
  lemma TwicePlus(a: string, b: string)
    requires PlainText(a) && PlainText(b)
    ensures var para := [a + " + " + b + "\n"];
            && TagText(para) == [Tagged(a, false), Tagged("+", false), Tagged(b, true)]
            && StyleFor(76, true, 0, 0, para) == Style(76, true, 0, 0, false)
  {
    TwiceRendered(a, b);
    TagTextOne(a + " + " + b + "\n");
    hide Split, BeginsBullet, TagText;
    assert TagWords([a, "+", b]) == [Tagged(a, false), Tagged("+", false), Tagged(b, true)];
  }

  lemma TwiceRendered(a: string, b: string)
    requires PlainText(a) && PlainText(b)
    ensures Split(a + " + " + b + "\n") == [a, "+", b] && !BeginsBullet(a + " + " + b + "\n")
  {
    var l := Line(0, [a, "+", b]);
    PlainWord(a);
    PlainWord("+");
    PlainWord(b);
    TwiceText(a, b);
    SplitRender(l);
    RenderBullet(l);
  }

  lemma TwiceText(a: string, b: string)
    ensures Render(Line(0, [a, "+", b])) == a + " + " + b + "\n"
  {
    assert [a, "+", b][..2] == [a, "+"] && [a, "+"][..1] == [a];
    assert JoinWords([a, "+"]) == a + " " + "+";
    assert JoinWords([a, "+", b]) == a + " " + "+" + " " + b;
    assert " + " == " " + "+" + " ";
    assert Spaces(0) + JoinWords([a, "+", b]) == JoinWords([a, "+", b]);
  }

  lemma TagTextOne(line: string)
    ensures TagText([line]) == TagWords(Split(line))
  {
    assert [line][..0] == [];
    assert TagText([]) + TagWords(Split(line)) == TagWords(Split(line));
  }

  lemma TagTextTwo(a: string, b: string)
    ensures TagText([a, b]) == TagWords(Split(a)) + TagWords(Split(b))
  {
    TagTextOne(a);
    assert [a, b][..1] == [a];
  }
}
