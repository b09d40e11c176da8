/** Which texts the patterns of specification/scripts/reflow.py match, character by character. */
module ReflowPatterns {
  import opened Wrappers
  import opened ReflowText
  import opened ReflowBlocks

  // ----- words and bullets -----

  /** Words end at the six white space characters, and nowhere else. */
  lemma WordsBetweenSpaces(a: string, c: char, b: string)
    requires a != "" && forall i :: 0 <= i < |a| ==>
               a[i] != ' ' && a[i] != '\t' && a[i] != '\n' && a[i] != '\r' && a[i] != '\U{000B}' && a[i] != '\U{000C}'
    requires c == ' ' || c == '\t' || c == '\n' || c == '\r' || c == '\U{000B}' || c == '\U{000C}'
    ensures Split(a + ([c] + b)) == [a] + Split(b)
    ensures Split([c] + b) == Split(b) && Split(a) == [a] && Split("") == []
    ensures Indent([c] + b) == 1 + Indent(b) && Indent(a) == 0 && Indent("") == 0
  {
    assert ([c] + b)[1..] == b && ([c] + b)[0] == c;
    SplitWord(a, [c] + b);
    SplitWord(a, "");
    assert a + "" == a && [a] + [] == [a];
  }

  /** A run of -, * and . characters; {empty}::; ::; a number and a period; a number in angle brackets. */
  ghost predicate BulletToken(t: string) {
    || (t != "" && forall i :: 0 <= i < |t| ==> t[i] == '-' || t[i] == '*' || t[i] == '.')
    || t == "{empty}::" || t == "::"
    || (exists d :: Number(d) && t == d + ".")
    || (exists d :: Number(d) && t == "<" + d + ">")
  }

  predicate Number(d: string) {
    d != "" && forall i :: 0 <= i < |d| ==> '0' <= d[i] <= '9'
  }

  lemma TokenIsBullet(t: string)
    ensures IsBullet(t) <==> BulletToken(t)
  {
    if |t| >= 2 && t[|t| - 1] == '.' && IsDigits(t[..|t| - 1]) {
      assert t == t[..|t| - 1] + ".";
      assert Number(t[..|t| - 1]);
    }
    if |t| >= 3 && t[0] == '<' && t[|t| - 1] == '>' && IsDigits(t[1..|t| - 1]) {
      assert t == "<" + t[1..|t| - 1] + ">";
      assert Number(t[1..|t| - 1]);
    }
    if d :| Number(d) && t == d + "." {
      assert t[..|t| - 1] == d;
    }
    if d :| Number(d) && t == "<" + d + ">" {
      assert t[1..|t| - 1] == d;
    }
  }

  lemma {:induction false} BeforeSpaceIs(t: string)
    ensures forall i :: 0 <= i < BeforeSpace(t) ==> t[i] != ' '
    ensures BeforeSpace(t) < |t| ==> t[BeforeSpace(t)] == ' '
  {
    if t != "" && t[0] != ' ' {
      BeforeSpaceIs(t[1..]);
      assert forall i :: 1 <= i < |t| ==> t[i] == t[1..][i - 1];
    }
  }

  lemma {:induction false} LeadingSpacesAre(s: string)
    ensures s[..LeadingSpaces(s)] == Spaces(LeadingSpaces(s))
    ensures LeadingSpaces(s) < |s| ==> s[LeadingSpaces(s)] != ' '
  {
    if s != "" && s[0] == ' ' {
      LeadingSpacesAre(s[1..]);
      var n := LeadingSpaces(s[1..]);
      assert s[..n + 1] == [s[0]] + s[1..][..n];
      assert s[n + 1..] == s[1..][n..];
    }
  }

  lemma NoSpaceInBullet(t: string)
    requires BulletToken(t)
    ensures t != "" && forall i :: 0 <= i < |t| ==> t[i] != ' '
  {
    assert |"{empty}::"| == 9;
    if d :| Number(d) && t == d + "." {
      assert forall i :: 0 <= i < |d| ==> t[i] == d[i];
    }
    if d :| Number(d) && t == "<" + d + ">" {
      assert forall i :: 0 <= i < |d| ==> t[i + 1] == d[i];
    }
  }

  /** A line begins with a bullet exactly if it is spaces, such a token, and a space right after it. */
  lemma BulletLines(s: string)
    ensures BeginsBullet(s) <==> exists n: nat, t: string, rest: string :: BulletToken(t) && s == Spaces(n) + (t + (" " + rest))
  {
    hide IsBullet, BulletToken;
    if BeginsBullet(s) {
      var n := LeadingSpaces(s);
      var t := s[n..][..BeforeSpace(s[n..])];
      LeadingSpacesAre(s);
      BeforeSpaceIs(s[n..]);
      TokenIsBullet(t);
      var rest := s[n + |t| + 1..];
      assert s[n..] == t + (" " + rest);
      assert s == Spaces(n) + (t + (" " + rest));
    }
    if n: nat, t: string, rest: string :| BulletToken(t) && s == Spaces(n) + (t + (" " + rest)) {
      NoSpaceInBullet(t);
      TokenIsBullet(t);
      SkipSpaces(n, t + (" " + rest));
      StopAtSpace(t, " " + rest);
      assert (t + (" " + rest))[..|t|] == t;
    }
  }

  // ----- sentences -----

  /** The word ends in this abbreviation, in lower or upper case. */
  predicate Abbreviated(w: string) {
    || Ends(w, "e.g.", "E.G.") || Ends(w, "i.e.", "I.E.") || Ends(w, "c.f.", "C.F.") || Ends(w, "vs.", "VS.")
  }

  predicate Ends(w: string, lower: string, upper: string)
    requires |lower| == |upper|
  {
    |w| >= |lower| &&
    forall i :: 0 <= i < |lower| ==> w[|w| - |lower| + i] == lower[i] || w[|w| - |lower| + i] == upper[i]
  }

  lemma EndsCaseless(w: string, lower: string, upper: string)
    requires |lower| == |upper|
    requires forall i :: 0 <= i < |lower| ==>
               if 'a' <= lower[i] <= 'z' then upper[i] as int == lower[i] as int - 32 else upper[i] == lower[i]
    ensures EndsWithCaseless(w, lower) <==> Ends(w, lower, upper)
  {
  }

  /** A sentence ends with a word that ends in a period, and is no abbreviation and no initial. */
  lemma SentenceWords(w: string)
    ensures EndSentence(w) <==>
              w != "" && w[|w| - 1] == '.' && !Abbreviated(w) && !(|w| == 2 && 'A' <= w[0] <= 'Z')
  {
    assert "e.g."[0] == 'e' && "e.g."[2] == 'g' && "E.G."[0] == 'E' && "E.G."[2] == 'G';
    assert "i.e."[0] == 'i' && "i.e."[2] == 'e' && "I.E."[0] == 'I' && "I.E."[2] == 'E';
    assert "c.f."[0] == 'c' && "c.f."[2] == 'f' && "C.F."[0] == 'C' && "C.F."[2] == 'F';
    assert "vs."[0] == 'v' && "vs."[1] == 's' && "VS."[0] == 'V' && "VS."[1] == 'S';
    EndsCaseless(w, "e.g.", "E.G.");
    EndsCaseless(w, "i.e.", "I.E.");
    EndsCaseless(w, "c.f.", "C.F.");
    EndsCaseless(w, "vs.", "VS.");
    hide EndsWithCaseless, Ends;
  }

  /** Tags are told from other words by how they begin. */
  lemma AnchorWord(w: string)
    ensures VuidAnchor(w) <==>
              && |w| >= 7 && w[0] == '[' && w[1] == '[' && w[2] == 'V' && w[3] == 'U' && w[4] == 'I' && w[5] == 'D'
              && w[6] == '-'
  {
    var tag := "[[VUID-";
    assert |tag| == 7 && tag[0] == '[' && tag[1] == '[' && tag[2] == 'V' && tag[3] == 'U';
    assert tag[4] == 'I' && tag[5] == 'D' && tag[6] == '-';
  }

  // ----- kinds of lines -----

  predicate OneOf(t: string, chars: string) {
    forall i :: 0 <= i < |t| ==> t[i] in chars
  }

  lemma OverIs(t: string, chars: string, s: set<char>)
    requires forall c :: c in chars <==> c in s
    ensures Over(t, s) <==> OneOf(t, chars)
  {
    if OneOf(t, chars) {
      forall c | c in t
        ensures c in s
      {
        var i :| 0 <= i < |t| && t[i] == c;
      }
    }
  }

  lemma Chomped(t: string)
    ensures Chomp(t + "\n") == t
  {
  }

  /** Lines that end a paragraph: blank ones; `[...]`; comments and whatever begins with two slashes; page
      breaks; attribute settings; list continuations; labels; and directives. */
  ghost predicate EndsParagraph(t: string) {
    || OneOf(t, " ")
    || (|t| >= 2 && t[0] == '[' && t[|t| - 1] == ']')
    || (|t| >= 2 && t[0] == '/' && t[1] == '/')
    || t == "<<<<" || (t != "" && t[0] == ':') || t == "+"
    || (|t| >= 2 && t[|t| - 2] == ':' && t[|t| - 1] == ':')
    || (exists k :: DirectiveTo(t, k))
  }

  /** Lower case letters up to position k, and two colons. */
  predicate DirectiveTo(t: string, k: int) {
    1 <= k <= |t| - 2 && (forall i :: 0 <= i < k ==> 'a' <= t[i] <= 'z') && t[k] == ':' && t[k + 1] == ':'
  }

  lemma EndParaIs(t: string)
    ensures IsEndPara(t + "\n") <==> EndsParagraph(t)
  {
    Chomped(t);
    OverIs(t, " ", {' '});
    assert |"//"| == 2 && "//"[0] == '/' && "//"[1] == '/' && |"::"| == 2 && "::"[0] == ':' && "::"[1] == ':';
    assert |":"| == 1 && ":"[0] == ':';
    assert "//" <= t <==> |t| >= 2 && t[0] == '/' && t[1] == '/';
    assert ":" <= t <==> t != "" && t[0] == ':';
    assert |t| >= 2 ==> (t[|t| - 2..] == "::" <==> t[|t| - 2] == ':' && t[|t| - 1] == ':');
    Directive(t);
    hide Over, OneOf, LowerCase;
  }

  lemma Directive(t: string)
    ensures (exists k :: 1 <= k <= |t| && LowerCase(t[..k]) && "::" <= t[k..]) <==> exists k :: DirectiveTo(t, k)
  {
    if k :| 1 <= k <= |t| && LowerCase(t[..k]) && "::" <= t[k..] {
      DirectiveAt(t, k);
    }
    if k :| DirectiveTo(t, k) {
      DirectiveAt(t, k);
    }
  }

  lemma DirectiveAt(t: string, k: nat)
    requires 1 <= k <= |t|
    ensures LowerCase(t[..k]) && "::" <= t[k..] <==> DirectiveTo(t, k)
  {
    assert |"::"| == 2 && "::"[0] == ':' && "::"[1] == ':';
    assert LowerCase(t[..k]) <==> forall i :: 0 <= i < k ==> 'a' <= t[i] <= 'z' by {
      assert forall i :: 0 <= i < k ==> t[..k][i] == t[i] && t[i] in t[..k];
      assert forall c :: c in t[..k] ==> exists i :: 0 <= i < k && t[i] == c;
    }
  }

  /** Titles: a period that no other one follows; equals signs, a space and more. Images. */
  ghost predicate ContinuesParagraph(t: string) {
    || (t != "" && t[0] == '.' && (|t| >= 2 ==> t[1] != '.'))
    || (exists k :: HeadingTo(t, k))
    || (|t| >= 7 && t[..6] == "image:" && '[' in t && t[|t| - 1] == ']')
  }

  predicate HeadingTo(t: string, k: int) {
    1 <= k < |t| && (forall i :: 0 <= i < k ==> t[i] == '=') && t[k] == ' '
  }

  lemma ContinueIs(t: string)
    ensures IsEndParaContinue(t + "\n") <==> ContinuesParagraph(t)
  {
    Chomped(t);
    forall k | 1 <= k < |t|
      ensures Over(t[..k], {'='}) && t[k] == ' ' <==> HeadingTo(t, k)
    {
      OverIs(t[..k], "=", {'='});
      assert forall i :: 0 <= i < k ==> t[..k][i] == t[i];
      assert "="[0] == '=' && |"="| == 1;
    }
    hide Over;
    assert |"image:"| == 6 && "image:"[0] == 'i';
    if |t| == 6 && "image:" <= t {
      assert t == "image:" && t[5] == ':';
    }
  }

  predicate DelimitsReflowed(t: string) {
    t == "--" || (|t| >= 4 && OneOf(t, "*=_"))
  }

  /** |===, ```, or four or more characters out of - + . / ~ */
  predicate DelimitsPassthrough(t: string) {
    || (|t| >= 4 && t[0] == '|' && OneOf(t[1..], "="))
    || t == "```"
    || (|t| >= 4 && OneOf(t, "-+./~"))
  }

  lemma DelimitersAre(t: string)
    ensures IsBlockReflow(t + "\n") <==> DelimitsReflowed(t)
    ensures IsBlockPassthrough(t + "\n") <==> DelimitsPassthrough(t)
  {
    Chomped(t);
    OverIs(t, "*=_", {'*', '=', '_'});
    if t != "" {
      OverIs(t[1..], "=", {'='});
    }
    OverIs(t, "-+./~", {'-', '+', '.', '/', '~'});
    hide Over, OneOf;
  }

  /** The patterns are tried in this order; a heading of the first level is a document title. */
  lemma KindsOfLines(m: Markup, t: string)
    requires m == ScriptMarkup(m.includedApi, m.paramName)
    ensures var line := t + "\n";
            KindOf(m, line) ==
              if line == "// Common Valid Usage\n" || DelimitsReflowed(t) then Delimiter(true)
              else if EndsParagraph(t) then Ending(false)
              else if ContinuesParagraph(t) then Ending(|t| >= 2 && t[0] == '=' && t[1] == ' ')
              else if DelimitsPassthrough(t) then Delimiter(false)
              else Plain
  {
    DelimitersAre(t);
    EndParaIs(t);
    ContinueIs(t);
    TitleIs(t);
    hide EndsParagraph, ContinuesParagraph, DelimitsReflowed, DelimitsPassthrough;
    hide IsEndPara, IsEndParaContinue, IsBlockReflow, IsBlockPassthrough;
  }

  lemma TitleIs(t: string)
    ensures "= " <= t + "\n" <==> |t| >= 2 && t[0] == '=' && t[1] == ' '
  {
    assert "= "[0] == '=' && "= "[1] == ' ' && |"= "| == 2;
    if |t| >= 2 {
      assert (t + "\n")[0] == t[0] && (t + "\n")[1] == t[1];
    } else if |t| == 1 {
      assert (t + "\n")[1] == '\n';
    }
  }

  // ----- Valid Usage blocks -----

  /** A line that opens a block opens a Valid Usage block if it is the comment, or if it opens a block that is
      reflowed and follows the title. Such a block is always reflowed. */
  lemma ValidUsageBlocks(m: Markup, lines: seq<string>, k: nat, t: string)
    requires m == ScriptMarkup(m.includedApi, m.paramName) && k < |lines| && lines[k] == t + "\n"
    requires var before := StackAt(m, lines, k);
             |StackAt(m, lines, k + 1)| == |before| + 1
    ensures var after := StackAt(m, lines, k + 1);
            && (TopReflowed(after) <==> lines[k] == "// Common Valid Usage\n" || DelimitsReflowed(t))
            && (TopValidUsage(after) <==>
                  || lines[k] == "// Common Valid Usage\n"
                  || (DelimitsReflowed(t) && k > 0 && lines[k - 1] == ".Valid Usage\n"))
  {
    KindsOfLines(m, t);
    hide KindOf, EndsParagraph, ContinuesParagraph, DelimitsPassthrough, DelimitsReflowed;
  }
}
