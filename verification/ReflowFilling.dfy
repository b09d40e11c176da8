/** Where the lines of a reflowed paragraph end, and how they are indented
    (specification/scripts/reflow.py). */
module ReflowFilling {
  import opened Wrappers
  import opened ReflowText
  import opened ReflowPara

  // ----- why a line ends -----

  function LastWord(l: Line): string
    requires l.words != []
  {
    l.words[|l.words| - 1]
  }

  /** The next line begins because its first word does not fit, or because the line ends a sentence, or in a
      `+` or a Valid Usage anchor. */
  predicate EndsFor(s: Style, l: Line, next: Line) {
    && l.words != [] && next.words != []
    && (|| |Text(l)| + 1 + |next.words[0]| > s.margin
        || (s.breakPeriod && EndSentence(LastWord(l)))
        || LastWord(l) == "+" || VuidAnchor(LastWord(l)))
  }

  /** Line k goes on after a sentence, or after an anchor, only with a word that is put on the current line in
      any case: a `+`, an anchor, the word after the first bullet, or a bullet that ends the line for want of
      room. */
  predicate GoesOn(s: Style, k: nat, l: Line) {
    forall i :: 1 <= i < |l.words| ==>
      && (i < |l.words| - 1 ==> !VuidAnchor(l.words[i]))
      && (s.breakPeriod && EndSentence(l.words[i - 1]) ==>
            || l.words[i] == "+" || VuidAnchor(l.words[i]) || (k == 0 && i == 1 && s.bullet)
            || (IsBullet(l.words[i]) && i == |l.words| - 1 && |Text(l)| > s.margin))
  }

  /** The line that is being filled can take another word. */
  predicate Open(s: Style, k: nat, l: Line) {
    && l.words != [] && GoesOn(s, k, l)
    && (|l.words| >= 2 ==> !VuidAnchor(LastWord(l)) && |Text(l)| <= s.margin)
  }

  /** A line has been closed after its last word. */
  predicate ClosedFor(s: Style, l: Line) {
    l.words != [] && (LastWord(l) == "+" || VuidAnchor(LastWord(l)) || |Text(l)| > s.margin)
  }

  ghost predicate WellFilled(s: Style, ws: seq<Tagged>, n: nat, f: Fill)
    requires 1 <= n <= |ws|
  {
    && (forall k :: 0 <= k < |f.out| ==> f.out[k].words != [] && GoesOn(s, k, f.out[k]))
    && (forall k :: 0 <= k < |f.out| - 1 ==> EndsFor(s, f.out[k], f.out[k + 1]))
    && (match f.line
        case None => f.out != [] && ClosedFor(s, f.out[|f.out| - 1])
        case Some(l) =>
          && Open(s, |f.out|, l) && f.len == |Text(l)| && LastWord(l) == ws[n - 1].word
          && (f.out != [] ==> EndsFor(s, f.out[|f.out| - 1], l)))
    && (n == 1 ==> f.out == [] && f.line.Some? && |f.line.value.words| == 1)
  }

  lemma LongerGoesOn(s: Style, k: nat, l: Line, w: string)
    requires Open(s, k, l)
    requires |l.words| >= 1
    requires s.breakPeriod && EndSentence(LastWord(l)) ==>
               || w == "+" || VuidAnchor(w) || (k == 0 && |l.words| == 1 && s.bullet)
               || (IsBullet(w) && |Text(l)| + 1 + |w| > s.margin)
    ensures var longer := Line(l.indent, l.words + [w]);
            GoesOn(s, k, longer) && |Text(longer)| == |Text(l)| + 1 + |w| && LastWord(longer) == w
  {
    TextAppend(l, w);
    var longer := Line(l.indent, l.words + [w]);
    hide Text, EndSentence, VuidAnchor, IsBullet;
    forall i | 1 <= i < |longer.words|
      ensures i < |longer.words| - 1 ==> !VuidAnchor(longer.words[i])
    {
      if i < |longer.words| - 1 {
        assert longer.words[i] == l.words[i];
      }
    }
    forall i | 1 <= i < |longer.words| && s.breakPeriod && EndSentence(longer.words[i - 1])
      ensures || longer.words[i] == "+" || VuidAnchor(longer.words[i]) || (k == 0 && i == 1 && s.bullet)
              || (IsBullet(longer.words[i]) && i == |longer.words| - 1 && |Text(longer)| > s.margin)
    {
      if i < |l.words| {
        assert longer.words[i] == l.words[i] && longer.words[i - 1] == l.words[i - 1];
      }
    }
  }

  lemma OneWord(s: Style, k: nat, indent: nat, w: string)
    ensures var l := Line(indent, [w]); |Text(l)| == indent + |w| && Open(s, k, l) && LastWord(l) == w
  {
  }

  lemma FillOne(s: Style, ws: seq<Tagged>, n: nat, e: Fill)
    requires 1 <= n < |ws| && WellFilled(s, ws, n, e)
    ensures WellFilled(s, ws, n + 1, Put(s, ws, n, e))
  {
    if e.line.None? {
      FillNewLine(s, ws, n, e);
    } else if Place(s, ws, n, e.len) == Start {
      FillStart(s, ws, n, e);
    } else {
      FillLonger(s, ws, n, e);
    }
    hide WellFilled, Put, Place;
  }

  lemma FillNewLine(s: Style, ws: seq<Tagged>, n: nat, e: Fill)
    requires 1 <= n < |ws| && WellFilled(s, ws, n, e) && e.line.None?
    ensures WellFilled(s, ws, n + 1, Put(s, ws, n, e))
  {
    hide Text, EndSentence, VuidAnchor, IsBullet, GoesOn, Open, Place;
    var w, last := ws[n].word, e.out[|e.out| - 1];
    OneWord(s, |e.out|, s.hang, w);
    ClosedEnds(s, last, Line(s.hang, [w]));
    hide EndsFor, ClosedFor;
  }

  lemma ClosedEnds(s: Style, l: Line, next: Line)
    requires ClosedFor(s, l) && next.words != []
    ensures EndsFor(s, l, next)
  {
  }

  lemma FillStart(s: Style, ws: seq<Tagged>, n: nat, e: Fill)
    requires 1 <= n < |ws| && WellFilled(s, ws, n, e) && e.line.Some? && Place(s, ws, n, e.len) == Start
    ensures WellFilled(s, ws, n + 1, Put(s, ws, n, e))
  {
    hide Text, EndSentence, VuidAnchor, IsBullet, GoesOn;
    var w, l := ws[n].word, e.line.value;
    OneWord(s, |e.out| + 1, s.hang, w);
    assert EndsFor(s, l, Line(s.hang, [w]));
    OpenGoesOn(s, |e.out|, l);
    hide EndsFor, ClosedFor, Open, Place;
  }

  lemma OpenGoesOn(s: Style, k: nat, l: Line)
    requires Open(s, k, l)
    ensures GoesOn(s, k, l)
  {
  }

  lemma FillLonger(s: Style, ws: seq<Tagged>, n: nat, e: Fill)
    requires 1 <= n < |ws| && WellFilled(s, ws, n, e) && e.line.Some? && Place(s, ws, n, e.len) != Start
    ensures WellFilled(s, ws, n + 1, Put(s, ws, n, e))
  {
    hide Text, EndSentence, VuidAnchor, IsBullet, GoesOn;
    var w, l := ws[n].word, e.line.value;
    LongerGoesOn(s, |e.out|, l, w);
    var longer := Line(l.indent, l.words + [w]);
    assert longer.words[0] == l.words[0];
    if Place(s, ws, n, e.len) == Close {
      assert ClosedFor(s, longer);
    } else {
      assert Open(s, |e.out|, longer);
    }
    if e.out != [] {
      SameFirst(s, e.out[|e.out| - 1], l, longer);
    }
    hide EndsFor, ClosedFor, Open;
  }

  lemma SameFirst(s: Style, l: Line, next: Line, next': Line)
    requires EndsFor(s, l, next) && next'.words != [] && next'.words[0] == next.words[0]
    ensures EndsFor(s, l, next')
  {
  }

  lemma FirstWell(s: Style, ws: seq<Tagged>, f: Fill)
    requires ws != [] && f.out == [] && f.line == Some(Line(s.lead, [ws[0].word])) && f.len == s.lead + |ws[0].word|
    ensures WellFilled(s, ws, 1, f)
  {
    OneWord(s, 0, s.lead, ws[0].word);
    hide Text, GoesOn, Open, EndsFor, ClosedFor;
  }

  lemma {:induction false} FilledWell(s: Style, ws: seq<Tagged>, n: nat)
    requires 1 <= n <= |ws|
    ensures WellFilled(s, ws, n, Filled(s, ws, n))
  {
    hide WellFilled, Put;
    if n == 1 {
      FirstWell(s, ws, Filled(s, ws, 1));
    } else {
      FilledWell(s, ws, n - 1);
      FillOne(s, ws, n - 1, Filled(s, ws, n - 1));
    }
  }

  /** Lines are filled: each ends for one of the four reasons, and goes on after a sentence or an anchor only
      for one of the exceptions. */
  lemma LinesAreFilled(s: Style, ws: seq<Tagged>, k: nat)
    requires k < |Layout(s, ws)|
    ensures GoesOn(s, k, Layout(s, ws)[k])
    ensures k + 1 < |Layout(s, ws)| ==> EndsFor(s, Layout(s, ws)[k], Layout(s, ws)[k + 1])
  {
    hide Filled, Text, EndSentence, VuidAnchor, IsBullet, GoesOn, EndsFor;
    FilledWell(s, ws, |ws|);
    if Filled(s, ws, |ws|).line.Some? {
      OpenGoesOn(s, |Filled(s, ws, |ws|).out|, Filled(s, ws, |ws|).line.value);
    }
    hide Open;
  }

  // ----- how lines are indented -----

  lemma {:induction false} FillIndents(s: Style, ws: seq<Tagged>, n: nat, k: nat)
    requires 1 <= n <= |ws| && k < |Lines(Filled(s, ws, n))|
    ensures Lines(Filled(s, ws, n))[k].indent == if k == 0 then s.lead else s.hang
  {
    if n > 1 {
      var e := Filled(s, ws, n - 1);
      if k < |Lines(e)| {
        FillIndents(s, ws, n - 1, k);
      }
      if e.line.None? {
        FilledWell(s, ws, n - 1);
      }
    }
  }

  /** The indentation of a paragraph that is reflowed: the first line has that of the first input line; the
      others have that of the second, or stand under the text after a bullet that fills the whole input. */
  lemma ReflowIndents(margin: int, breakPeriod: bool, lead: nat, hang: nat, para: seq<string>, k: nat)
    requires para != [] && k < |Reflow(margin, breakPeriod, lead, hang, para).para|
    ensures TagText(para) != []
    ensures var line := Reflow(margin, breakPeriod, lead, hang, para).para[k];
            var indent := if k == 0 then lead
                          else if |para| == 1 && BeginsBullet(para[0]) then lead + |TagText(para)[0].word| + 1
                          else hang;
            && indent < |line| && (forall i :: 0 <= i < indent ==> line[i] == ' ') && !IsWhite(line[indent])
  {
    var ws, s := TagText(para), StyleFor(margin, breakPeriod, lead, hang, para);
    hide TagText, Layout, Split, BeginsBullet;
    LineIndent(s, ws, k);
  }

  lemma LineIndent(s: Style, ws: seq<Tagged>, k: nat)
    requires ws != [] && (forall i :: 0 <= i < |ws| ==> IsWord(ws[i].word)) && k < |Layout(s, ws)|
    ensures var line, indent := Render(Layout(s, ws)[k]), if k == 0 then s.lead else s.hang;
            indent < |line| && (forall i :: 0 <= i < indent ==> line[i] == ' ') && !IsWhite(line[indent])
  {
    FillIndents(s, ws, |ws|, k);
    LayoutKeepsWords(s, ws);
    LayoutWithinMargin(s, ws, k);
    var l := Layout(s, ws)[k];
    hide Filled, Layout, TagText, Text, Fits, Forced, Render;
    assert l.words != [] && LineOfWords(l);
    assert l.words[0] in l.words;
    FirstLetter(l);
  }

  lemma FirstLetter(l: Line)
    requires l.words != [] && l.words[0] != ""
    ensures l.indent < |Render(l)| && Render(l)[l.indent] == l.words[0][0]
    ensures forall i :: 0 <= i < l.indent ==> Render(l)[i] == ' '
  {
    if |l.words| >= 2 {
      JoinFromFront(l.words);
    }
  }
}
