/** Lines of text as the paragraph reflow sees them: indentation, words, bullets, sentence ends
    (specification/scripts/reflow.py). */
module ReflowText {
  import opened Sequences

  predicate IsWhite(c: char) {
    c == ' ' || c == '\t' || c == '\n' || c == '\r' || c == '\U{000B}' || c == '\U{000C}'
  }

  predicate Contains(s: string, part: string) {
    part <= s || (s != "" && Contains(s[1..], part))
  }

  predicate IsWord(w: string) {
    w != "" && forall i :: 0 <= i < |w| ==> !IsWhite(w[i])
  }

  function WordLength(s: string): (n: nat)
    ensures n <= |s|
    ensures forall i :: 0 <= i < n ==> !IsWhite(s[i])
    ensures n < |s| ==> IsWhite(s[n])
  {
    if s == "" || IsWhite(s[0]) then 0 else 1 + WordLength(s[1..])
  }

  /** The words of a line, as line.split() gives them. */
  function Split(s: string): (ws: seq<string>)
    ensures forall w :: w in ws ==> IsWord(w)
  {
    if s == "" then []
    else if IsWhite(s[0]) then Split(s[1..])
    else [s[..WordLength(s)]] + Split(s[WordLength(s)..])
  }

  /** The number of leading whitespace characters. */
  function Indent(s: string): (n: nat)
    ensures n <= |s|
  {
    if s == "" || !IsWhite(s[0]) then 0 else 1 + Indent(s[1..])
  }

  function Spaces(n: nat): (s: string)
    ensures |s| == n && forall i :: 0 <= i < n ==> s[i] == ' '
  {
    seq(n, _ => ' ')
  }

  /** A laid out line: some words after some spaces. */
  datatype Line = Line(indent: nat, words: seq<string>)

  function JoinWords(ws: seq<string>): string {
    if ws == [] then "" else if |ws| == 1 then ws[0] else JoinWords(ws[..|ws| - 1]) + " " + ws[|ws| - 1]
  }

  function Text(l: Line): string {
    Spaces(l.indent) + JoinWords(l.words)
  }

  function Render(l: Line): string {
    Text(l) + "\n"
  }

  function RenderAll(ls: seq<Line>): (r: seq<string>)
    ensures |r| == |ls| && forall i :: 0 <= i < |r| ==> r[i] == Render(ls[i])
  {
    seq(|ls|, i requires 0 <= i < |ls| => Render(ls[i]))
  }

  lemma TextAppend(l: Line, w: string)
    requires l.words != []
    ensures Text(Line(l.indent, l.words + [w])) == Text(l) + " " + w
  {
    assert (l.words + [w])[..|l.words|] == l.words;
  }

  lemma {:induction false} WordLengthOfWord(w: string, rest: string)
    requires forall i :: 0 <= i < |w| ==> !IsWhite(w[i])
    requires rest == "" || IsWhite(rest[0])
    ensures WordLength(w + rest) == |w|
  {
    if w == "" {
      assert w + rest == rest;
    } else {
      assert (w + rest)[1..] == w[1..] + rest;
      WordLengthOfWord(w[1..], rest);
    }
  }

  lemma SplitWord(w: string, rest: string)
    requires IsWord(w) && (rest == "" || IsWhite(rest[0]))
    ensures Split(w + rest) == [w] + Split(rest)
  {
    WordLengthOfWord(w, rest);
    assert (w + rest)[..|w|] == w && (w + rest)[|w|..] == rest;
  }

  lemma SplitAfterSpace(rest: string)
    ensures Split(" " + rest) == Split(rest)
  {
    assert (" " + rest)[1..] == rest;
  }

  lemma JoinLast(ws: seq<string>, rest: string)
    requires |ws| >= 2
    ensures JoinWords(ws) + rest == JoinWords(ws[..|ws| - 1]) + (" " + (ws[|ws| - 1] + rest))
  {
  }

  lemma {:induction false} SplitJoin(ws: seq<string>, rest: string)
    requires forall w :: w in ws ==> IsWord(w)
    requires rest == "" || IsWhite(rest[0])
    ensures Split(JoinWords(ws) + rest) == ws + Split(rest)
    decreases |ws|
  {
    if ws == [] {
      assert "" + rest == rest && ws + Split(rest) == Split(rest);
    } else if |ws| == 1 {
      SplitWord(ws[0], rest);
      assert ws == [ws[0]];
    } else {
      var init, last := ws[..|ws| - 1], ws[|ws| - 1];
      assert init + [last] == ws;
      SplitJoin(init, " " + (last + rest));
      SplitJoinLast(JoinWords(init), init, last, rest);
      JoinLast(ws, rest);
    }
  }

  lemma SplitJoinLast(text: string, init: seq<string>, last: string, rest: string)
    requires IsWord(last) && (rest == "" || IsWhite(rest[0]))
    requires Split(text + (" " + (last + rest))) == init + Split(" " + (last + rest))
    ensures Split(text + (" " + (last + rest))) == init + [last] + Split(rest)
  {
    SplitAfterSpace(last + rest);
    SplitWord(last, rest);
    Associative(init, [last], Split(rest));
  }

  lemma {:induction false} SplitSpaces(n: nat, rest: string)
    ensures Split(Spaces(n) + rest) == Split(rest)
  {
    if n == 0 {
      assert Spaces(n) + rest == rest;
    } else {
      assert (Spaces(n) + rest)[1..] == Spaces(n - 1) + rest;
      SplitSpaces(n - 1, rest);
    }
  }

  /** Splitting a rendered line gives back its words. */
  lemma SplitRender(l: Line)
    requires forall w :: w in l.words ==> IsWord(w)
    ensures Split(Render(l)) == l.words
  {
    assert Render(l) == Spaces(l.indent) + (JoinWords(l.words) + "\n");
    SplitSpaces(l.indent, JoinWords(l.words) + "\n");
    SplitJoin(l.words, "\n");
    assert "\n"[1..] == "";
  }

  // ----- bullets -----

  predicate IsDigits(s: string) {
    s != "" && forall i :: 0 <= i < |s| ==> '0' <= s[i] <= '9'
  }

  /** The tokens of beginBullet: a run of -, * and . characters; {empty}::; ::; 1.; <1> */
  predicate IsBullet(t: string) {
    || (t != "" && forall i :: 0 <= i < |t| ==> t[i] == '-' || t[i] == '*' || t[i] == '.')
    || t == "{empty}::" || t == "::"
    || (|t| >= 2 && t[|t| - 1] == '.' && IsDigits(t[..|t| - 1]))
    || (|t| >= 3 && t[0] == '<' && t[|t| - 1] == '>' && IsDigits(t[1..|t| - 1]))
  }

  function LeadingSpaces(s: string): (n: nat)
    ensures n <= |s|
  {
    if s == "" || s[0] != ' ' then 0 else 1 + LeadingSpaces(s[1..])
  }

  function BeforeSpace(s: string): (n: nat)
    ensures n <= |s|
  {
    if s == "" || s[0] == ' ' then 0 else 1 + BeforeSpace(s[1..])
  }

  /** beginBullet.match: spaces, a bullet token, and a space right after it. */
  predicate BeginsBullet(s: string) {
    var t := s[LeadingSpaces(s)..];
    BeforeSpace(t) < |t| && IsBullet(t[..BeforeSpace(t)])
  }

  lemma {:induction false} SkipSpaces(n: nat, rest: string)
    requires rest == "" || rest[0] != ' '
    ensures LeadingSpaces(Spaces(n) + rest) == n
    ensures (Spaces(n) + rest)[n..] == rest
  {
    if n == 0 {
      assert Spaces(n) + rest == rest;
    } else {
      assert (Spaces(n) + rest)[1..] == Spaces(n - 1) + rest;
      SkipSpaces(n - 1, rest);
    }
  }

  lemma {:induction false} StopAtSpace(w: string, rest: string)
    requires forall i :: 0 <= i < |w| ==> w[i] != ' '
    ensures BeforeSpace(w + rest) == |w| + BeforeSpace(rest)
  {
    if w == "" {
      assert w + rest == rest;
    } else {
      assert (w + rest)[1..] == w[1..] + rest;
      StopAtSpace(w[1..], rest);
    }
  }

  lemma {:induction false} JoinFromFront(ws: seq<string>)
    requires |ws| >= 2
    ensures JoinWords(ws) == ws[0] + " " + JoinWords(ws[1..])
    decreases |ws|
  {
    if |ws| > 2 {
      var init := ws[..|ws| - 1];
      JoinFromFront(init);
      assert ws[1..][..|ws| - 2] == init[1..];
    }
  }

  /** A rendered line begins with a bullet exactly if its first word is one and is not alone. */
  lemma RenderBullet(l: Line)
    requires l.words != [] && forall w :: w in l.words ==> IsWord(w)
    ensures BeginsBullet(Render(l)) <==> IsBullet(l.words[0]) && |l.words| >= 2
  {
    var w := l.words[0];
    assert IsWord(w);
    if |l.words| == 1 {
      SkipSpaces(l.indent, w + "\n");
      assert Render(l) == Spaces(l.indent) + (w + "\n");
      StopAtSpace(w, "\n");
      assert "\n"[1..] == "" && BeforeSpace("\n") == 1;
    } else {
      var rest := " " + (JoinWords(l.words[1..]) + "\n");
      JoinFromFront(l.words);
      assert Render(l) == Spaces(l.indent) + (w + rest);
      SkipSpaces(l.indent, w + rest);
      StopAtSpace(w, rest);
      assert (w + rest)[..|w|] == w;
    }
  }

  // ----- sentences and anchors -----

  predicate IsLower(c: char, lower: char) {
    c == lower || ('a' <= lower <= 'z' && c as int + 32 == lower as int)
  }

  /** s ends with the given lower-case text, in either case. */
  predicate EndsWithCaseless(s: string, tail: string) {
    |s| >= |tail| && forall i :: 0 <= i < |tail| ==> IsLower(s[|s| - |tail| + i], tail[i])
  }

  /** The word ends with a period that is not an abbreviation's or an initial's. */
  predicate EndSentence(word: string) {
    && word != "" && word[|word| - 1] == '.'
    && !EndsWithCaseless(word, "e.g.") && !EndsWithCaseless(word, "i.e.")
    && !EndsWithCaseless(word, "c.f.") && !EndsWithCaseless(word, "vs.")
    && !(|word| == 2 && 'A' <= word[0] <= 'Z')
  }

  predicate VuidAnchor(word: string) {
    "[[VUID-" <= word
  }
}
