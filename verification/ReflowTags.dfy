/** Valid Usage tags, and what tagging and reflowing leave of a text (specification/scripts/reflow.py). */
module ReflowTags {
  import opened ReflowText
  import opened ReflowPara
  import opened Sequences

  // ----- the words of a text -----

  function Words(lines: seq<string>): seq<string> {
    if lines == [] then [] else Words(lines[..|lines| - 1]) + Split(lines[|lines| - 1])
  }

  lemma {:induction false} WordsAppend(a: seq<string>, b: seq<string>)
    ensures Words(a + b) == Words(a) + Words(b)
    decreases |b|
  {
    if b == [] {
      assert a + b == a;
    } else {
      var init, last := b[..|b| - 1], b[|b| - 1];
      assert (a + b)[..|a + b| - 1] == a + init;
      WordsAppend(a, init);
    }
  }

  lemma {:induction false} WordsAreTags(lines: seq<string>)
    ensures |Words(lines)| == |TagText(lines)|
    ensures forall i :: 0 <= i < |Words(lines)| ==> Words(lines)[i] == TagText(lines)[i].word
  {
    if lines != [] {
      WordsAreTags(lines[..|lines| - 1]);
    }
  }

  /** Reflowing a paragraph keeps its words. */
  lemma ReflowKeepsWords(margin: int, breakPeriod: bool, lead: nat, hang: nat, para: seq<string>)
    requires para != []
    ensures Words(Reflow(margin, breakPeriod, lead, hang, para).para) == Words(para)
  {
    var r := Reflow(margin, breakPeriod, lead, hang, para);
    WordsAreTags(para);
    WordsAreTags(r.para);
    if TagText(para) != [] {
      LayoutKeepsWords(StyleFor(margin, breakPeriod, lead, hang, para), TagText(para));
    }
  }

  // ----- Valid Usage tags -----

  function Decimal(n: nat): string {
    if n < 10 then ["0123456789"[n]] else Decimal(n / 10) + ["0123456789"[n % 10]]
  }

  function PadTo(width: nat, s: string): string {
    Zeros(if |s| < width then width - |s| else 0) + s
  }

  function Zeros(k: nat): (z: string)
    ensures |z| == k && forall i :: 0 <= i < k ==> z[i] == '0'
  {
    seq(k, _ => '0')
  }

  function Anchor(apiName: string, paramName: string, n: nat): string {
    "[[VUID-" + apiName + "-" + paramName + "-" + PadTo(5, Decimal(n)) + "]]"
  }

  predicate AllDigits(s: string) {
    forall i :: 0 <= i < |s| ==> '0' <= s[i] <= '9'
  }

  /** The number that digits denote. */
  function ReadDecimal(s: string): nat
    requires AllDigits(s)
  {
    if s == "" then 0 else 10 * ReadDecimal(s[..|s| - 1]) + (s[|s| - 1] as int - '0' as int)
  }

  lemma DigitOf(d: nat)
    requires d < 10
    ensures "0123456789"[d] as int == '0' as int + d
  {
  }

  lemma {:induction false} DecimalReads(n: nat)
    ensures AllDigits(Decimal(n)) && ReadDecimal(Decimal(n)) == n
  {
    DigitOf(n % 10);
    if n < 10 {
      assert Decimal(n)[..0] == "";
    } else {
      DecimalReads(n / 10);
      SplitLast(Decimal(n), Decimal(n / 10), "0123456789"[n % 10]);
    }
  }

  /** Leading zeros do not change a number. */
  lemma {:induction false} PaddingReads(k: nat, s: string)
    requires AllDigits(s)
    ensures AllDigits(Zeros(k) + s) && ReadDecimal(Zeros(k) + s) == ReadDecimal(s)
    decreases |s| + k
  {
    var t := Zeros(k) + s;
    if s != "" {
      var init := s[..|s| - 1];
      PaddingReads(k, init);
      assert t[..|t| - 1] == Zeros(k) + init;
    } else if k > 0 {
      PaddingReads(k - 1, "");
      assert t[..|t| - 1] == Zeros(k - 1) + "";
    } else {
      assert t == s;
    }
  }

  /** A tag determines its number. */
  lemma AnchorsDiffer(api: string, param: string, n: nat, api': string, param': string, n': nat)
    ensures Anchor(api, param, n) == Anchor(api', param', n') ==> n == n'
  {
    PaddedReads(n);
    PaddedReads(n');
    hide AllDigits, ReadDecimal, Decimal, PadTo;
    if Anchor(api, param, n) == Anchor(api', param', n') {
      LastNumber("[[VUID-" + api + "-" + param, PadTo(5, Decimal(n)),
                 "[[VUID-" + api' + "-" + param', PadTo(5, Decimal(n')));
    }
  }

  lemma PaddedReads(n: nat)
    ensures AllDigits(PadTo(5, Decimal(n))) && ReadDecimal(PadTo(5, Decimal(n))) == n
  {
    DecimalReads(n);
    PaddingReads(if |Decimal(n)| < 5 then 5 - |Decimal(n)| else 0, Decimal(n));
  }

  lemma LastNumber(x: string, d: string, x': string, d': string)
    requires AllDigits(d) && AllDigits(d') && x + "-" + d + "]]" == x' + "-" + d' + "]]"
    ensures d == d'
  {
    var s, s' := x + "-" + d + "]]", x' + "-" + d' + "]]";
    assert |s| == |x| + 1 + |d| + 2 && |s'| == |x'| + 1 + |d'| + 2;
    assert s[|x|] == '-' && s'[|x'|] == '-';
    if |d| < |d'| || |d'| < |d| {
      assert false;
    }
    assert d == s[|x| + 1..|x| + 1 + |d|];
    assert d' == s'[|x| + 1..|x| + 1 + |d|];
  }

  /** An untagged list item with a single asterisk. */
  predicate Taggable(line: string) {
    "  *" <= line && !("  **" <= line) && !Contains(line, "VUID")
  }

  /** The item with a tag after its asterisk. */
  function TagLine(line: string, apiName: string, paramName: string, n: nat): string
    requires "  *" <= line
  {
    "  * " + Anchor(apiName, paramName, n) + " " + line[3 + LeadingSpaces(line[3..])..]
  }

  ghost predicate IsTagged(line: string, newline: string, n: nat) {
    Taggable(line) && exists apiName, paramName :: newline == TagLine(line, apiName, paramName, n)
  }

  /** tagged is source with tags numbered from, from + 1, ..., to - 1 put into some of its lines, in the
      order of the lines. */
  ghost predicate TaggedFrom(source: seq<string>, tagged: seq<string>, from: nat, to: nat) {
    if source == [] || tagged == [] then source == tagged && from == to
    else
      var s, t := source[..|source| - 1], tagged[..|tagged| - 1];
      var line, newline := source[|source| - 1], tagged[|tagged| - 1];
      || (newline == line && TaggedFrom(s, t, from, to))
      || (from < to && IsTagged(line, newline, to - 1) && TaggedFrom(s, t, from, to - 1))
  }

  lemma {:induction false} TaggedSame(source: seq<string>, n: nat)
    ensures TaggedFrom(source, source, n, n)
  {
    if source != [] {
      TaggedSame(source[..|source| - 1], n);
    }
  }

  lemma {:induction false} TaggedAppend(a: seq<string>, a': seq<string>, b: seq<string>, b': seq<string>, from: nat, mid: nat, to: nat)
    requires TaggedFrom(a, a', from, mid) && TaggedFrom(b, b', mid, to)
    ensures TaggedFrom(a + b, a' + b', from, to) && from <= mid <= to
    decreases |b|
  {
    TaggedOrder(a, a', from, mid);
    TaggedOrder(b, b', mid, to);
    if b == [] || b' == [] {
      assert a + b == a && a' + b' == a';
    } else {
      var s, t := b[..|b| - 1], b'[..|b'| - 1];
      assert (a + b)[..|a + b| - 1] == a + s && (a' + b')[..|a' + b'| - 1] == a' + t;
      if b'[|b'| - 1] == b[|b| - 1] && TaggedFrom(s, t, mid, to) {
        TaggedAppend(a, a', s, t, from, mid, to);
      } else {
        TaggedAppend(a, a', s, t, from, mid, to - 1);
      }
    }
  }

  lemma {:induction false} TaggedOrder(source: seq<string>, tagged: seq<string>, from: nat, to: nat)
    requires TaggedFrom(source, tagged, from, to)
    ensures from <= to && |source| == |tagged|
    decreases |source|
  {
    if source != [] && tagged != [] {
      var s, t := source[..|source| - 1], tagged[..|tagged| - 1];
      if tagged[|tagged| - 1] == source[|source| - 1] && TaggedFrom(s, t, from, to) {
        TaggedOrder(s, t, from, to);
      } else {
        TaggedOrder(s, t, from, to - 1);
      }
    }
  }

  lemma TaggedSplit(source: seq<string>, tagged: seq<string>, from: nat, to: nat)
    requires TaggedFrom(source, tagged, from, to) && |source| == |tagged|
    ensures if source == [] then from == to
            else var n := |source| - 1;
                 || (tagged[n] == source[n] && TaggedFrom(source[..n], tagged[..n], from, to))
                 || (from < to && IsTagged(source[n], tagged[n], to - 1)
                     && TaggedFrom(source[..n], tagged[..n], from, to - 1))
  {
  }

  /** The numbers are used once each, in the order of the lines, and all other lines are unchanged. */
  lemma {:induction false} TagPositions(source: seq<string>, tagged: seq<string>, from: nat, to: nat) returns (p: seq<nat>)
    requires TaggedFrom(source, tagged, from, to)
    ensures |tagged| == |source| && |p| == to - from && TaggedAt(source, tagged, from, p)
    decreases |source|
  {
    TaggedOrder(source, tagged, from, to);
    TaggedSplit(source, tagged, from, to);
    hide TaggedFrom, IsTagged;
    if source == [] {
      p := [];
    } else {
      var n := |source| - 1;
      var s, t := source[..n], tagged[..n];
      if tagged[n] == source[n] && TaggedFrom(s, t, from, to) {
        p := TagPositions(s, t, from, to);
        TaggedMore(source, tagged, from, p, n);
      } else {
        var q := TagPositions(s, t, from, to - 1);
        p := q + [n];
        TaggedLast(source, tagged, from, q, n);
      }
    }
  }

  /** The lines at p are tagged, in that order and with consecutive numbers, and all others are unchanged. */
  ghost predicate TaggedAt(source: seq<string>, tagged: seq<string>, from: nat, p: seq<nat>)
    requires |tagged| == |source|
  {
    && (forall i, j :: 0 <= i < j < |p| ==> p[i] < p[j])
    && (forall k :: 0 <= k < |p| ==> p[k] < |source| && IsTagged(source[p[k]], tagged[p[k]], from + k))
    && (forall i :: 0 <= i < |source| && i !in p ==> tagged[i] == source[i])
  }

  lemma TaggedMore(source: seq<string>, tagged: seq<string>, from: nat, p: seq<nat>, n: nat)
    requires |source| == |tagged| == n + 1
    requires TaggedAt(source[..n], tagged[..n], from, p) && tagged[n] == source[n]
    ensures TaggedAt(source, tagged, from, p)
  {
    hide IsTagged;
    assert forall i :: 0 <= i < n ==> source[i] == source[..n][i] && tagged[i] == tagged[..n][i];
  }

  lemma TaggedLast(source: seq<string>, tagged: seq<string>, from: nat, q: seq<nat>, n: nat)
    requires |source| == |tagged| == n + 1
    requires TaggedAt(source[..n], tagged[..n], from, q) && IsTagged(source[n], tagged[n], from + |q|)
    ensures TaggedAt(source, tagged, from, q + [n])
  {
  }

  /** The output is what the tagged source becomes: the same words, and the same lines unless text is
      being reflowed. */
  ghost predicate Books(source: seq<string>, tagged: seq<string>, output: seq<string>,
                        from: nat, to: nat, numbering: bool, reflow: bool)
  {
    && TaggedFrom(source, tagged, from, to)
    && (!numbering ==> tagged == source)
    && Words(output) == Words(tagged)
    && (!reflow ==> output == tagged)
  }

  lemma BooksNext(source: seq<string>, tagged: seq<string>, output: seq<string>,
                  s: seq<string>, t: seq<string>, o: seq<string>,
                  from: nat, mid: nat, to: nat, numbering: bool, reflow: bool)
    requires Books(source, tagged, output, from, mid, numbering, reflow)
    requires Books(s, t, o, mid, to, numbering, reflow)
    ensures Books(source + s, tagged + t, output + o, from, to, numbering, reflow)
  {
    TaggedAppend(source, tagged, s, t, from, mid, to);
    WordsAppend(output, o);
    WordsAppend(tagged, t);
  }

  lemma BooksLengths(source: seq<string>, tagged: seq<string>, output: seq<string>,
                     from: nat, to: nat, numbering: bool, reflow: bool)
    requires Books(source, tagged, output, from, to, numbering, reflow)
    ensures |source| == |tagged| && from <= to
  {
    TaggedOrder(source, tagged, from, to);
  }

  lemma TaggedFirst(para: seq<string>, newline: string, n: nat)
    requires para != [] && IsTagged(para[0], newline, n)
    ensures TaggedFrom(para, [newline] + para[1..], n, n + 1)
  {
    assert TaggedFrom([para[0]], [newline], n, n + 1) by {
      assert [para[0]][..0] == [] && [newline][..0] == [];
    }
    TaggedSame(para[1..], n + 1);
    TaggedAppend([para[0]], [newline], para[1..], para[1..], n, n + 1, n + 1);
    assert para == [para[0]] + para[1..];
  }
}
