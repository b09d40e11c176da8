/** What a Valid Usage tag does to the text of a line and to the words of a file, in terms of the characters
    and words themselves (specification/scripts/reflow.py). */
module ReflowTagText {
  import opened ReflowText
  import opened ReflowTags
  import opened Sequences

  // ----- one line -----

  /** The text of a tag: `digits` are those of n, with zeros in front of it up to five. */
  predicate TagOf(tag: string, apiName: string, paramName: string, n: nat, digits: string) {
    && tag == "[[VUID-" + apiName + "-" + paramName + "-" + digits + "]]"
    && |digits| >= 5 && AllDigits(digits) && ReadDecimal(digits) == n
    && (|digits| > 5 ==> digits[0] != '0')
  }

  lemma {:induction false} DecimalFirst(n: nat)
    ensures Decimal(n) != "" && (n > 0 ==> Decimal(n)[0] != '0') && (|Decimal(n)| > 1 ==> n > 0)
  {
    DigitOf(n % 10);
    if n >= 10 {
      DecimalFirst(n / 10);
    }
  }

  lemma AnchorText(apiName: string, paramName: string, n: nat)
    ensures TagOf(Anchor(apiName, paramName, n), apiName, paramName, n, PadTo(5, Decimal(n)))
  {
    PaddedReads(n);
    DecimalFirst(n);
    hide AllDigits, ReadDecimal, Decimal;
    if |Decimal(n)| >= 5 {
      assert Zeros(0) + Decimal(n) == Decimal(n);
    }
  }

  /** newline begins with a bullet and the tag, and goes on with what follows the bullet and its spaces in
      the line, character for character. */
  ghost predicate TagInserted(line: string, newline: string, tag: string, k: nat) {
    && 3 + k <= |line| && line[0] == ' ' && line[1] == ' ' && line[2] == '*'
    && (forall i :: 3 <= i < 3 + k ==> line[i] == ' ')
    && (3 + k < |line| ==> line[3 + k] != ' ')
    && newline == "  * " + tag + " " + line[3 + k..]
  }

  lemma {:induction false} SpacesSkipped(s: string)
    ensures forall i :: 0 <= i < LeadingSpaces(s) ==> s[i] == ' '
    ensures LeadingSpaces(s) < |s| ==> s[LeadingSpaces(s)] != ' '
  {
    if s != "" && s[0] == ' ' {
      SpacesSkipped(s[1..]);
      assert forall i :: 1 <= i < |s| ==> s[i] == s[1..][i - 1];
    }
  }

  lemma TaggedText(line: string, apiName: string, paramName: string, n: nat)
    requires Taggable(line)
    ensures TagInserted(line, TagLine(line, apiName, paramName, n), Anchor(apiName, paramName, n), LeadingSpaces(line[3..]))
  {
    assert line[0] == "  *"[0] && line[1] == "  *"[1] && line[2] == "  *"[2];
    SpacesSkipped(line[3..]);
    assert forall i :: 3 <= i < |line| ==> line[i] == line[3..][i - 3];
  }

  /** Giving a line a tag keeps its text. */
  lemma TagKeepsText(line: string, newline: string, n: nat)
    returns (apiName: string, paramName: string, tag: string, digits: string, k: nat)
    requires IsTagged(line, newline, n)
    ensures TagOf(tag, apiName, paramName, n, digits) && TagInserted(line, newline, tag, k)
  {
    apiName, paramName :| newline == TagLine(line, apiName, paramName, n);
    tag, digits, k := Anchor(apiName, paramName, n), PadTo(5, Decimal(n)), LeadingSpaces(line[3..]);
    AnchorText(apiName, paramName, n);
    TaggedText(line, apiName, paramName, n);
    hide TagOf, TagInserted, Anchor, PadTo;
  }

  // ----- the words of a line -----

  /** Words can be told apart at a space. */
  lemma {:induction false} SplitAtSpace(a: string, b: string)
    ensures Split(a + " " + b) == Split(a) + Split(b)
    decreases |a|
  {
    if a == "" {
      assert a + " " + b == " " + b;
      SplitAfterSpace(b);
      assert [] + Split(b) == Split(b);
    } else if IsWhite(a[0]) {
      assert (a + " " + b)[1..] == a[1..] + " " + b;
      SplitAtSpace(a[1..], b);
    } else {
      var n := WordLength(a);
      var w, rest := a[..n], a[n..] + " " + b;
      assert a + " " + b == w + rest;
      assert rest[0] == if n < |a| then a[n] else ' ';
      SplitWord(w, rest);
      SplitAtSpace(a[n..], b);
      Associative([w], Split(a[n..]), Split(b));
    }
  }

  lemma BulletWord()
    ensures Split("  *") == ["*"]
  {
    var s := "  *";
    assert |s| == 3 && s[0] == ' ' && s[1] == ' ' && s[2] == '*';
    assert s[1..][0] == ' ' && s[1..][1..] == "*" && s[1..][1..][0] == '*';
    assert "*" + "" == "*";
    SplitWord("*", "");
    assert ["*"] + Split("") == ["*"];
  }

  /** The words of a line with a tag put in. */
  lemma TaggedWords(line: string, newline: string, tag: string, k: nat)
    requires TagInserted(line, newline, tag, k) && k > 0
    ensures Split(line) == ["*"] + Split(line[3 + k..])
    ensures Split(newline) == ["*"] + Split(tag) + Split(line[3 + k..])
  {
    var rest := line[3 + k..];
    BulletWord();
    assert newline == "  *" + " " + tag + " " + rest;
    SplitAtSpace("  *" + " " + tag, rest);
    SplitAtSpace("  *", tag);
    assert line == "  *" + " " + line[4..];
    SplitAtSpace("  *", line[4..]);
    assert line[4..] == Spaces(k - 1) + rest;
    SplitSpaces(k - 1, rest);
  }

  // ----- the words of a text -----

  function Flat(pieces: seq<seq<string>>): seq<string> {
    if pieces == [] then [] else Flat(pieces[..|pieces| - 1]) + pieces[|pieces| - 1]
  }

  /** The pieces with the words of a tag between each two. */
  function Interleaved(pieces: seq<seq<string>>, tags: seq<string>): seq<string>
    requires |pieces| == |tags| + 1
  {
    if tags == [] then pieces[0]
    else Interleaved(pieces[..|pieces| - 1], tags[..|tags| - 1]) + Split(tags[|tags| - 1]) + pieces[|pieces| - 1]
  }

  /** `after` are the words `before` with tags from, ..., to - 1 put in, in this order, each after a bullet.
      Taking them out again gives back the words. */
  ghost predicate OnlyTagsAdded(before: seq<string>, after: seq<string>, from: nat, to: nat) {
    exists pieces, tags :: TagsBetween(before, after, from, to, pieces, tags)
  }

  ghost predicate TagsBetween(
    before: seq<string>, after: seq<string>, from: nat, to: nat, pieces: seq<seq<string>>, tags: seq<string>)
  {
    && from <= to && |tags| == to - from && |pieces| == |tags| + 1
    && before == Flat(pieces) && after == Interleaved(pieces, tags)
    && (forall i :: 0 <= i < |tags| ==> pieces[i] != [] && pieces[i][|pieces[i]| - 1] == "*")
    && (forall i :: 0 <= i < |tags| ==> Tag(tags[i], from + i))
  }

  ghost predicate Tag(tag: string, n: nat) {
    exists apiName, paramName, digits :: TagOf(tag, apiName, paramName, n, digits)
  }

  /** In these lines a single bullet is followed by a space. */
  predicate BulletsSpaced(lines: seq<string>) {
    forall i :: 0 <= i < |lines| ==> "  *" <= lines[i] && !("  **" <= lines[i]) ==> "  * " <= lines[i]
  }

  lemma GrowLast(before: seq<string>, after: seq<string>, from: nat, to: nat, pieces: seq<seq<string>>,
                 tags: seq<string>, more: seq<string>)
    requires TagsBetween(before, after, from, to, pieces, tags)
    ensures TagsBetween(before + more, after + more, from, to,
                        pieces[..|pieces| - 1] + [pieces[|pieces| - 1] + more], tags)
  {
    var n := |pieces| - 1;
    var grown := pieces[..n] + [pieces[n] + more];
    assert grown[..n] == pieces[..n];
    Associative(Flat(pieces[..n]), pieces[n], more);
    if tags != [] {
      Associative(Interleaved(pieces[..n], tags[..|tags| - 1]) + Split(tags[|tags| - 1]), pieces[n], more);
    }
  }

  lemma AddTag(before: seq<string>, after: seq<string>, from: nat, to: nat, pieces: seq<seq<string>>,
               tags: seq<string>, tag: string, rest: seq<string>)
    requires TagsBetween(before, after, from, to, pieces, tags) && Tag(tag, to)
    requires pieces[|pieces| - 1] != [] && pieces[|pieces| - 1][|pieces[|pieces| - 1]| - 1] == "*"
    ensures TagsBetween(before + rest, after + Split(tag) + rest, from, to + 1, pieces + [rest], tags + [tag])
  {
    hide Tag;
    var longer, more := pieces + [rest], tags + [tag];
    assert longer[..|longer| - 1] == pieces && more[..|more| - 1] == tags;
  }

  lemma {:induction false} TextTagged(source: seq<string>, tagged: seq<string>, from: nat, to: nat)
    returns (pieces: seq<seq<string>>, tags: seq<string>)
    requires TaggedFrom(source, tagged, from, to) && BulletsSpaced(source)
    ensures TagsBetween(Words(source), Words(tagged), from, to, pieces, tags)
    decreases |source|
  {
    TaggedOrder(source, tagged, from, to);
    TaggedSplit(source, tagged, from, to);
    hide TaggedFrom, IsTagged;
    if source == [] {
      pieces, tags := [[]], [];
      assert pieces[..0] == [] && Flat(pieces) == [];
    } else {
      var n := |source| - 1;
      var s, t := source[..n], tagged[..n];
      if tagged[n] == source[n] && TaggedFrom(s, t, from, to) {
        pieces, tags := TextTagged(s, t, from, to);
        GrowLast(Words(s), Words(t), from, to, pieces, tags, Split(source[n]));
        pieces := pieces[..|pieces| - 1] + [pieces[|pieces| - 1] + Split(source[n])];
      } else {
        pieces, tags := TextTagged(s, t, from, to - 1);
        pieces, tags := LineTagged(Words(s), Words(t), from, to - 1, pieces, tags, source[n], tagged[n]);
      }
    }
  }

  lemma LineTagged(before: seq<string>, after: seq<string>, from: nat, to: nat, pieces: seq<seq<string>>,
                   tags: seq<string>, line: string, newline: string)
    returns (pieces': seq<seq<string>>, tags': seq<string>)
    requires TagsBetween(before, after, from, to, pieces, tags) && IsTagged(line, newline, to) && "  * " <= line
    ensures TagsBetween(before + Split(line), after + Split(newline), from, to + 1, pieces', tags')
  {
    var apiName, paramName, tag, digits, k := TagKeepsText(line, newline, to);
    assert Tag(tag, to);
    assert line[3] == "  * "[3] == ' ';
    hide Tag, TagOf, IsTagged;
    TaggedWords(line, newline, tag, k);
    var rest := Split(line[3 + k..]);
    hide TagInserted, TagsBetween;
    GrowLast(before, after, from, to, pieces, tags, ["*"]);
    var grown := pieces[..|pieces| - 1] + [pieces[|pieces| - 1] + ["*"]];
    AddTag(before + ["*"], after + ["*"], from, to, grown, tags, tag, rest);
    pieces', tags' := grown + [rest], tags + [tag];
    Associative(before, ["*"], rest);
    Associative(after, ["*"], Split(tag));
    Associative(after, ["*"] + Split(tag), rest);
  }

  /** The words of the output are those of the file, with the assigned tags put in. */
  lemma OutputWords(source: seq<string>, tagged: seq<string>, output: seq<string>,
                    from: nat, to: nat, numbering: bool, reflow: bool)
    requires Books(source, tagged, output, from, to, numbering, reflow) && BulletsSpaced(source)
    ensures OnlyTagsAdded(Words(source), Words(output), from, to)
  {
    var pieces, tags := TextTagged(source, tagged, from, to);
  }

  /** A bullet that is not followed by a space is cut off from its word. */
  lemma UnspacedBullet(apiName: string, paramName: string, n: nat)
    ensures Split("  *x\n") == ["*x"]
    ensures Split(TagLine("  *x\n", apiName, paramName, n)) == ["*"] + Split(Anchor(apiName, paramName, n)) + ["x"]
  {
    var tag := Anchor(apiName, paramName, n);
    UnspacedLine();
    BulletWord();
    EndOfLine("*x");
    EndOfLine("x");
    hide Anchor, Split, LeadingSpaces;
    SplitSpacesTwo("*x\n");
    assert TagLine("  *x\n", apiName, paramName, n) == "  *" + " " + tag + " " + "x\n";
    SplitAtSpace("  *" + " " + tag, "x\n");
    SplitAtSpace("  *", tag);
  }

  lemma UnspacedLine()
    ensures var line := "  *x\n";
            && "  *" <= line && line[3..] == "x\n" && LeadingSpaces(line[3..]) == 0 && line == "  " + "*x\n"
    ensures IsWord("*x") && IsWord("x") && "*x" + "\n" == "*x\n" && "x" + "\n" == "x\n"
  {
    assert |"  *x\n"| == 5 && "  *x\n"[3] == 'x';
    assert "*x"[0] == '*' && "*x"[1] == 'x' && "x"[0] == 'x' && "  *x\n"[3..][0] == 'x';
  }

  lemma SplitSpacesTwo(s: string)
    ensures Split("  " + s) == Split(s)
  {
    assert "  " + s == Spaces(2) + s;
    SplitSpaces(2, s);
  }

  lemma EndOfLine(w: string)
    requires IsWord(w)
    ensures Split(w + "\n") == [w]
  {
    SplitWord(w, "\n");
    assert "\n"[1..] == "" && Split("\n") == [];
    assert [w] + [] == [w];
  }
}
