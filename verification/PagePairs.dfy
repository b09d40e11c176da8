/** Pairing the pages of two documents (specification/scripts/pdf_chapter_diff.py). */
module PagePairs {
  import opened Wrappers
  import opened Sequences

  /** A page of the original and a page of the new document; either may be missing. */
  type Page = Option<int>
  type Pair = (Page, Page)

  // ----- get_all_page_pairs -----

  predicate IsFull(p: Pair) {
    p.0.Some? && p.1.Some?
  }

  /** A half pair whose page also occurs in a full pair. */
  ghost predicate Covered(raw: seq<Pair>, p: Pair) {
    || (p.0.Some? && p.1.None? && exists q :: q in raw && IsFull(q) && q.0 == p.0)
    || (p.0.None? && p.1.Some? && exists q :: q in raw && IsFull(q) && q.1 == p.1)
  }

  /** The pairs of `raw` that are not covered by full pairs of `all`, each where it first occurs. */
  ghost function Uncovered(all: seq<Pair>, raw: seq<Pair>): seq<Pair> {
    if raw == [] then []
    else
      var init, last := raw[..|raw| - 1], raw[|raw| - 1];
      Uncovered(all, init) + (if Covered(all, last) || last in init then [] else [last])
  }

  lemma {:induction false} UncoveredElements(all: seq<Pair>, raw: seq<Pair>)
    ensures forall p :: p in Uncovered(all, raw) <==> p in raw && !Covered(all, p)
    ensures forall i, j :: 0 <= i < j < |Uncovered(all, raw)| ==> Uncovered(all, raw)[i] != Uncovered(all, raw)[j]
  {
    if raw != [] {
      UncoveredElements(all, raw[..|raw| - 1]);
      assert raw == raw[..|raw| - 1] + [raw[|raw| - 1]];
    }
  }

  method AllPagePairs(raw: seq<Pair>) returns (pairs: seq<Pair>)
    ensures pairs == Uncovered(raw, raw)
  {
    var full := set p | p in raw && IsFull(p);
    var skip := (set p | p in full :: (p.0, None)) + (set p | p in full :: (None, p.1));
    pairs := [];
    var included: set<Pair> := {};
    for i := 0 to |raw|
      invariant pairs == Uncovered(raw, raw[..i])
      invariant forall p :: p in included <==> p in raw[..i] && p !in skip
    {
      var p := raw[i];
      SkipIsCovered(raw, full, skip, p);
      assert raw[..i + 1][..i] == raw[..i];
      if p in skip {
      } else if p in included {
      } else {
        pairs := pairs + [p];
        included := included + {p};
      }
    }
    assert raw[..|raw|] == raw;
  }

  lemma SkipIsCovered(raw: seq<Pair>, full: set<Pair>, skip: set<Pair>, p: Pair)
    requires full == set q | q in raw && IsFull(q)
    requires skip == (set q | q in full :: (q.0, None)) + (set q | q in full :: (None, q.1))
    ensures p in skip <==> Covered(raw, p)
  {
    if Covered(raw, p) {
      if p.0.Some? {
        var q :| q in raw && IsFull(q) && q.0 == p.0;
        assert q in full && p == (q.0, None);
      } else {
        var q :| q in raw && IsFull(q) && q.1 == p.1;
        assert q in full && p == (None, q.1);
      }
    }
  }

  /** No pair occurs twice and no page of either document is lost. */
  lemma NoPageLost(raw: seq<Pair>, p: Pair)
    requires p in raw
    ensures p.0.Some? ==> exists q :: q in Uncovered(raw, raw) && q.0 == p.0
    ensures p.1.Some? ==> exists q :: q in Uncovered(raw, raw) && q.1 == p.1
    ensures forall i, j :: 0 <= i < j < |Uncovered(raw, raw)| ==> Uncovered(raw, raw)[i] != Uncovered(raw, raw)[j]
  {
    UncoveredElements(raw, raw);
    if Covered(raw, p) {
      var q :| q in raw && IsFull(q) && (if p.0.Some? then q.0 == p.0 else q.1 == p.1);
      assert !Covered(raw, q) && q in Uncovered(raw, raw);
    } else {
      assert p in Uncovered(raw, raw);
    }
  }

  // ----- fill_pair_gaps -----

  function Range(lo: int, hi: int): seq<int>
    decreases hi - lo
  {
    if lo < hi then Range(lo, hi - 1) + [hi - 1] else []
  }

  lemma {:induction false} RangeIs(lo: int, hi: int)
    ensures |Range(lo, hi)| == if lo < hi then hi - lo else 0
    ensures forall i :: 0 <= i < |Range(lo, hi)| ==> Range(lo, hi)[i] == lo + i
    decreases hi - lo
  {
    if lo < hi {
      RangeIs(lo, hi - 1);
    }
  }

  class SequenceGapFinder {
    var prev: Page

    constructor ()
      ensures prev == None
    {
      prev := None;
    }

    /** The numbers skipped since the last call, or None if there are none. */
    method ProcessAndGetGap(current: Page) returns (gap: Option<seq<int>>)
      modifies this
      ensures prev == if current.Some? then current else old(prev)
      ensures (if gap.Some? then gap.value else []) == Gap(old(prev), current)
      ensures gap.Some? <==> Gap(old(prev), current) != []
    {
      gap := None;
      if prev.Some? && current.Some? {
        RangeIs(prev.value + 1, current.value);
      }
      if current.Some? {
        if prev.Some? && current.value > prev.value + 1 {
          gap := Some(Range(prev.value + 1, current.value));
        }
        prev := current;
      }
    }
  }

  ghost function Gap(prev: Page, current: Page): seq<int> {
    if prev.Some? && current.Some? then Range(prev.value + 1, current.value) else []
  }

  function ZipLongest(a: seq<int>, b: seq<int>): seq<Pair> {
    if a == [] && b == [] then []
    else
      [(if a == [] then None else Some(a[0]), if b == [] then None else Some(b[0]))]
      + ZipLongest(if a == [] then [] else a[1..], if b == [] then [] else b[1..])
  }

  function ZipLongestPermittingNone(a: Option<seq<int>>, b: Option<seq<int>>): seq<Pair> {
    ZipLongest(if a.Some? then a.value else [], if b.Some? then b.value else [])
  }

  function Column(pairs: seq<Pair>, new_: bool): (c: seq<Page>)
    ensures |c| == |pairs| && forall i :: 0 <= i < |c| ==> c[i] == if new_ then pairs[i].1 else pairs[i].0
  {
    seq(|pairs|, i requires 0 <= i < |pairs| => if new_ then pairs[i].1 else pairs[i].0)
  }

  /** The page numbers of a column, without the missing ones. */
  function Pages(c: seq<Page>): seq<int> {
    if c == [] then []
    else Pages(c[..|c| - 1]) + (if c[|c| - 1].Some? then [c[|c| - 1].value] else [])
  }

  predicate Ascending(s: seq<int>) {
    forall i, j :: 0 <= i < j < |s| ==> s[i] <= s[j]
  }

  function Last(s: seq<int>): Page {
    if s == [] then None else Some(s[|s| - 1])
  }

  /** The pairs with, before each, the pages missing since the one before. */
  ghost function WithGaps(pairs: seq<Pair>): seq<Pair> {
    if pairs == [] then []
    else
      var init, p := pairs[..|pairs| - 1], pairs[|pairs| - 1];
      WithGaps(init)
      + ZipLongest(Gap(Last(Pages(Column(init, false))), p.0), Gap(Last(Pages(Column(init, true))), p.1))
      + [p]
  }

  lemma WithGapsNext(pairs: seq<Pair>, i: nat)
    requires i < |pairs|
    ensures WithGaps(pairs[..i + 1])
            == WithGaps(pairs[..i])
               + ZipLongest(Gap(Last(Pages(Column(pairs[..i], false))), pairs[i].0),
                            Gap(Last(Pages(Column(pairs[..i], true))), pairs[i].1))
               + [pairs[i]]
  {
    assert pairs[..i + 1][..i] == pairs[..i];
  }

  lemma ColumnNext(pairs: seq<Pair>, i: nat, side: bool)
    requires i < |pairs|
    ensures var page := if side then pairs[i].1 else pairs[i].0;
            && Pages(Column(pairs[..i + 1], side))
               == Pages(Column(pairs[..i], side)) + (if page.Some? then [page.value] else [])
            && Last(Pages(Column(pairs[..i + 1], side)))
               == if page.Some? then page else Last(Pages(Column(pairs[..i], side)))
  {
    assert Column(pairs[..i + 1], side)[..i] == Column(pairs[..i], side);
  }

  /** fill_pair_gaps: None stands for the assertion that both columns are in order. */
  method FillPairGaps(pairs: seq<Pair>) returns (r: Option<seq<Pair>>)
    ensures r.Some? <==> Ascending(Pages(Column(pairs, false))) && Ascending(Pages(Column(pairs, true)))
    ensures r.Some? ==> r.value == WithGaps(pairs)
    ensures r.Some? ==> exists cuts :: GapsPaired(pairs, r.value, cuts)
  {
    if !Ascending(Pages(Column(pairs, false))) || !Ascending(Pages(Column(pairs, true))) {
      return None;
    }
    var fixedPairs: seq<Pair> := [];
    var origGaps := new SequenceGapFinder();
    var newGaps := new SequenceGapFinder();
    assert WithGaps(pairs[..0]) == [] && Pages(Column(pairs[..0], false)) == Pages(Column(pairs[..0], true)) == [];
    hide WithGaps, Pages, Column, Ascending;
    for i := 0 to |pairs|
      invariant fixedPairs == WithGaps(pairs[..i])
      invariant origGaps != newGaps && fresh(origGaps) && fresh(newGaps)
      invariant origGaps.prev == Last(Pages(Column(pairs[..i], false)))
      invariant newGaps.prev == Last(Pages(Column(pairs[..i], true)))
    {
      var missing := MissingBefore(pairs, i, origGaps, newGaps);
      fixedPairs := fixedPairs + missing;
      fixedPairs := fixedPairs + [pairs[i]];
    }
    assert pairs[..|pairs|] == pairs;
    hide GapsPaired;
    ghost var cuts := FilledInPairs(pairs);
    r := Some(fixedPairs);
  }

  /** The pages that are missing before pair i. */
  method MissingBefore(pairs: seq<Pair>, i: nat, origGaps: SequenceGapFinder, newGaps: SequenceGapFinder)
    returns (missing: seq<Pair>)
    requires i < |pairs| && origGaps != newGaps
    requires origGaps.prev == Last(Pages(Column(pairs[..i], false)))
    requires newGaps.prev == Last(Pages(Column(pairs[..i], true)))
    modifies origGaps, newGaps
    ensures origGaps.prev == Last(Pages(Column(pairs[..i + 1], false)))
    ensures newGaps.prev == Last(Pages(Column(pairs[..i + 1], true)))
    ensures WithGaps(pairs[..i + 1]) == WithGaps(pairs[..i]) + missing + [pairs[i]]
  {
    WithGapsNext(pairs, i);
    ColumnNext(pairs, i, false);
    ColumnNext(pairs, i, true);
    var origGap := origGaps.ProcessAndGetGap(pairs[i].0);
    var newGap := newGaps.ProcessAndGetGap(pairs[i].1);
    missing := [];
    if origGap.Some? || newGap.Some? {
      missing := ZipLongestPermittingNone(origGap, newGap);
    }
  }

  // ----- what filling the gaps does to a column -----

  /** A list with, before each number, the numbers missing since the one before. */
  ghost function Fill(c: seq<int>): seq<int> {
    if c == [] then []
    else Fill(c[..|c| - 1]) + Gap(Last(c[..|c| - 1]), Some(c[|c| - 1])) + [c[|c| - 1]]
  }

  lemma {:induction false} PagesAppend(a: seq<Page>, b: seq<Page>)
    ensures Pages(a + b) == Pages(a) + Pages(b)
    decreases |b|
  {
    if b == [] {
      assert a + b == a;
    } else {
      assert (a + b)[..|a + b| - 1] == a + b[..|b| - 1];
      PagesAppend(a, b[..|b| - 1]);
    }
  }

  function Side(p: Pair, side: bool): Page {
    if side then p.1 else p.0
  }

  lemma ColumnAppend(a: seq<Pair>, b: seq<Pair>, side: bool)
    ensures Pages(Column(a + b, side)) == Pages(Column(a, side)) + Pages(Column(b, side))
  {
    assert Column(a + b, side) == Column(a, side) + Column(b, side);
    PagesAppend(Column(a, side), Column(b, side));
  }

  lemma ColumnOne(p: Pair, side: bool)
    ensures Pages(Column([p], side)) == if Side(p, side).Some? then [Side(p, side).value] else []
  {
    assert Column([p], side)[..0] == [];
  }

  lemma {:induction false} ZipColumns(a: seq<int>, b: seq<int>)
    ensures Pages(Column(ZipLongest(a, b), false)) == a
    ensures Pages(Column(ZipLongest(a, b), true)) == b
    decreases |a| + |b|
  {
    if a != [] || b != [] {
      var a', b' := if a == [] then [] else a[1..], if b == [] then [] else b[1..];
      var head := (if a == [] then None else Some(a[0]), if b == [] then None else Some(b[0]));
      ZipColumns(a', b');
      ZipColumn(head, ZipLongest(a', b'), a, a', false);
      ZipColumn(head, ZipLongest(a', b'), b, b', true);
    }
  }

  lemma ZipColumn(head: Pair, rest: seq<Pair>, a: seq<int>, a': seq<int>, side: bool)
    requires a' == if a == [] then [] else a[1..]
    requires Side(head, side) == if a == [] then None else Some(a[0])
    requires Pages(Column(rest, side)) == a'
    ensures Pages(Column([head] + rest, side)) == a
  {
    ColumnAppend([head], rest, side);
    ColumnOne(head, side);
  }

  /** The last step of WithGaps. */
  lemma WithGapsLast(pairs: seq<Pair>) returns (init: seq<Pair>, zip: seq<Pair>, p: Pair)
    requires pairs != []
    ensures pairs == init + [p] && |init| == |pairs| - 1
    ensures WithGaps(pairs) == WithGaps(init) + zip + [p]
    ensures forall side :: Pages(Column(zip, side)) == Gap(Last(Pages(Column(init, side))), Side(p, side))
  {
    init, p := pairs[..|pairs| - 1], pairs[|pairs| - 1];
    var a, b := Gap(Last(Pages(Column(init, false))), p.0), Gap(Last(Pages(Column(init, true))), p.1);
    zip := ZipLongest(a, b);
    ZipColumns(a, b);
  }

  /** Each column of the result is the filled column of the input. */
  lemma {:induction false} ColumnsFilled(pairs: seq<Pair>, side: bool)
    ensures Pages(Column(WithGaps(pairs), side)) == Fill(Pages(Column(pairs, side)))
    decreases |pairs|
  {
    if pairs != [] {
      var init, zip, p := WithGapsLast(pairs);
      ColumnsFilled(init, side);
      ColumnAppend(WithGaps(init) + zip, [p], side);
      ColumnAppend(WithGaps(init), zip, side);
      ColumnAppend(init, [p], side);
      ColumnOne(p, side);
      FillNext(Pages(Column(init, side)), Side(p, side));
    }
  }

  lemma FillNext(c: seq<int>, page: Page)
    ensures var more := if page.Some? then [page.value] else [];
            Fill(c + more) == Fill(c) + Gap(Last(c), page) + more
  {
    if page.Some? {
      assert (c + [page.value])[..|c|] == c;
    } else {
      assert c + [] == c;
    }
  }

  /** Going up in steps of at most one. */
  ghost predicate NoGaps(s: seq<int>) {
    forall i :: 0 <= i < |s| - 1 ==> s[i] <= s[i + 1] <= s[i] + 1
  }

  lemma FillLast(c: seq<int>)
    requires c != []
    ensures Fill(c) != [] && Fill(c)[|Fill(c)| - 1] == c[|c| - 1]
  {
  }

  lemma {:induction false} FillHasNoGaps(c: seq<int>)
    requires Ascending(c)
    ensures NoGaps(Fill(c))
  {
    if |c| == 1 {
      FillSingle(c);
    } else if |c| > 1 {
      var init, x := c[..|c| - 1], c[|c| - 1];
      assert c == init + [x] && init[|init| - 1] == c[|c| - 2] <= x;
      hide Fill, Range, NoGaps;
      FillHasNoGaps(init);
      FillLast(init);
      FillStep(init, x);
      NoGapsNext(Fill(init), init[|init| - 1], x);
    }
  }

  lemma FillSingle(c: seq<int>)
    requires |c| == 1
    ensures NoGaps(Fill(c))
  {
    assert Fill(c) == [c[0]];
  }

  /** f ends in last, and goes on to x. */
  lemma NoGapsNext(f: seq<int>, last: int, x: int)
    requires NoGaps(f) && f != [] && f[|f| - 1] == last <= x
    ensures NoGaps(f + Range(last + 1, x) + [x])
  {
    var r := Range(last + 1, x);
    var all := f + r + [x];
    RangeIs(last + 1, x);
    forall i | 0 <= i < |all| - 1
      ensures all[i] <= all[i + 1] <= all[i] + 1
    {
      if i < |f| - 1 {
        assert all[i] == f[i] && all[i + 1] == f[i + 1];
      } else if i >= |f| {
        assert all[i] == r[i - |f|];
      }
    }
  }

  /** How often x occurs in c once it is filled: as often as before, or once if it was missing. */
  ghost function Occurrences(c: seq<int>, x: int): nat {
    if x in c then multiset(c)[x] else if c != [] && c[0] < x < c[|c| - 1] then 1 else 0
  }

  lemma OccurrencesNext(init: seq<int>, last: int, x: int)
    requires init != [] && Ascending(init + [last])
    ensures Occurrences(init + [last], x)
            == Occurrences(init, x) + (if init[|init| - 1] + 1 <= x < last then 1 else 0) + (if x == last then 1 else 0)
  {
    var c, n := init + [last], |init|;
    assert forall i :: 0 <= i < n ==> c[i] == init[i] && c[i] <= c[n - 1] <= c[n];
    assert multiset(c) == multiset(init) + multiset{last};
    assert x in init ==> x <= init[n - 1];
    assert x in c <==> x in init || x == last;
    if x == last && x !in init {
      assert init[n - 1] in init;
      assert !(init[0] < x < init[n - 1]);
    }
  }

  /** f is init filled, and g goes on to last. */
  lemma CountNext(init: seq<int>, last: int, f: seq<int>, g: seq<int>, x: int)
    requires init != [] && Ascending(init + [last])
    requires multiset(f)[x] == Occurrences(init, x)
    requires g == f + Range(init[|init| - 1] + 1, last) + [last]
    ensures multiset(g)[x] == Occurrences(init + [last], x)
  {
    var lo := init[|init| - 1] + 1;
    CountThree(f, Range(lo, last), last, x);
    RangeCounts(lo, last, x);
    OccurrencesNext(init, last, x);
  }

  /** Filling adds exactly the numbers between the first and the last that are missing, once each. */
  lemma {:induction false} FillAddsMissing(c: seq<int>, x: int)
    requires Ascending(c)
    ensures multiset(Fill(c))[x] == Occurrences(c, x)
    decreases |c|
  {
    if |c| > 1 {
      var init, last := c[..|c| - 1], c[|c| - 1];
      assert c == init + [last];
      FillAddsMissing(init, x);
      FillMore(init, last, x);
    } else if |c| == 1 {
      FillOne(c, x);
    }
  }

  lemma FillStep(init: seq<int>, last: int)
    requires init != []
    ensures Fill(init + [last]) == Fill(init) + Range(init[|init| - 1] + 1, last) + [last]
  {
    var c := init + [last];
    SplitLast(c, init, last);
    GapAfter(init, last);
    FillOfLast(c, init, last, Range(init[|init| - 1] + 1, last));
  }

  lemma GapAfter(init: seq<int>, last: int)
    requires init != []
    ensures Range(init[|init| - 1] + 1, last) == Gap(Last(init), Some(last))
  {
    assert Last(init).value == init[|init| - 1];
  }

  lemma FillOfLast(c: seq<int>, init: seq<int>, last: int, gap: seq<int>)
    requires c != [] && c[..|c| - 1] == init && c[|c| - 1] == last && gap == Gap(Last(init), Some(last))
    ensures Fill(c) == Fill(init) + gap + [last]
  {
  }

  lemma FillMore(init: seq<int>, last: int, x: int)
    requires init != [] && Ascending(init + [last])
    requires multiset(Fill(init))[x] == Occurrences(init, x)
    ensures multiset(Fill(init + [last]))[x] == Occurrences(init + [last], x)
  {
    FillStep(init, last);
    CountNext(init, last, Fill(init), Fill(init + [last]), x);
  }

  lemma FillOne(c: seq<int>, x: int)
    requires |c| == 1
    ensures multiset(Fill(c))[x] == Occurrences(c, x)
  {
    assert c == [c[0]] && Fill(c) == [c[0]];
  }

  lemma CountThree(a: seq<int>, b: seq<int>, last: int, x: int)
    ensures multiset(a + b + [last])[x] == multiset(a)[x] + multiset(b)[x] + (if x == last then 1 else 0)
  {
  }

  lemma {:induction false} RangeCounts(lo: int, hi: int, x: int)
    ensures multiset(Range(lo, hi))[x] == if lo <= x < hi then 1 else 0
    decreases hi - lo
  {
    if lo < hi {
      RangeCounts(lo, hi - 1, x);
      CountTwo(Range(lo, hi - 1), hi - 1, x);
    }
  }

  lemma CountTwo(a: seq<int>, last: int, x: int)
    ensures multiset(a + [last])[x] == multiset(a)[x] + (if x == last then 1 else 0)
  {
  }

  /** The input stays as a subsequence: pair k is at position at[k]. */
  lemma {:induction false} PairsStay(pairs: seq<Pair>) returns (at: seq<nat>)
    ensures |at| == |pairs|
    ensures forall i, j :: 0 <= i < j < |at| ==> at[i] < at[j]
    ensures forall k :: 0 <= k < |at| ==> at[k] < |WithGaps(pairs)| && WithGaps(pairs)[at[k]] == pairs[k]
    decreases |pairs|
  {
    if pairs == [] {
      at := [];
    } else {
      var init, zip, p := WithGapsLast(pairs);
      var earlier := PairsStay(init);
      at := AtLast(init, WithGaps(init), earlier, zip, p);
    }
  }

  lemma AtLast(init: seq<Pair>, filled: seq<Pair>, earlier: seq<nat>, zip: seq<Pair>, p: Pair) returns (at: seq<nat>)
    requires |earlier| == |init|
    requires forall i, j :: 0 <= i < j < |earlier| ==> earlier[i] < earlier[j]
    requires forall k :: 0 <= k < |earlier| ==> earlier[k] < |filled| && filled[earlier[k]] == init[k]
    ensures |at| == |init + [p]|
    ensures forall i, j :: 0 <= i < j < |at| ==> at[i] < at[j]
    ensures var all := filled + zip + [p];
            forall k :: 0 <= k < |at| ==> at[k] < |all| && all[at[k]] == (init + [p])[k]
  {
    at := earlier + [|filled + zip|];
  }

  // ----- which pages are paired -----

  /** The last page of a document before pair i, if there is one. */
  function Before(pairs: seq<Pair>, i: nat, side: bool): Page
    requires i <= |pairs|
  {
    if i == 0 then None
    else if Side(pairs[i - 1], side).Some? then Side(pairs[i - 1], side)
    else Before(pairs, i - 1, side)
  }

  /** How many of its pages are skipped just before pair i. */
  function Skipped(pairs: seq<Pair>, i: nat, side: bool): nat
    requires i < |pairs|
  {
    var last, page := Before(pairs, i, side), Side(pairs[i], side);
    if last.Some? && page.Some? && page.value > last.value + 1 then page.value - last.value - 1 else 0
  }

  /** The k-th of them, counted from 0. */
  function SkippedPage(pairs: seq<Pair>, i: nat, side: bool, k: nat): Page
    requires i < |pairs|
  {
    if k < Skipped(pairs, i, side) then Some(Before(pairs, i, side).value + 1 + k) else None
  }

  function Longer(a: nat, b: nat): nat {
    if a >= b then a else b
  }

  /** filled is pairs with, before pair i, as many pairs as the longer gap has pages; the k-th of them has
      the k-th page that is skipped in each of the documents. Pair i itself is at cuts[i]. */
  ghost predicate GapsPaired(pairs: seq<Pair>, filled: seq<Pair>, cuts: seq<nat>) {
    && |cuts| == |pairs|
    && |filled| == (if pairs == [] then 0 else cuts[|pairs| - 1] + 1)
    && (forall i :: 0 <= i < |pairs| ==> PairedAt(pairs, filled, cuts, i))
  }

  ghost predicate PairedAt(pairs: seq<Pair>, filled: seq<Pair>, cuts: seq<nat>, i: nat)
    requires i < |pairs| == |cuts|
  {
    var from := if i == 0 then 0 else cuts[i - 1] + 1;
    && cuts[i] == from + Longer(Skipped(pairs, i, false), Skipped(pairs, i, true))
    && cuts[i] < |filled| && filled[cuts[i]] == pairs[i]
    && (forall k {:trigger filled[k]} :: from <= k < cuts[i] ==>
          filled[k] == (SkippedPage(pairs, i, false, k - from), SkippedPage(pairs, i, true, k - from)))
  }

  lemma {:induction false} BeforeIsLast(pairs: seq<Pair>, i: nat, side: bool)
    requires i <= |pairs|
    ensures Before(pairs, i, side) == Last(Pages(Column(pairs[..i], side)))
  {
    if i > 0 {
      BeforeIsLast(pairs, i - 1, side);
      ColumnNext(pairs, i - 1, side);
    }
  }

  lemma {:induction false} BeforePrefix(pairs: seq<Pair>, n: nat, i: nat, side: bool)
    requires i <= n <= |pairs|
    ensures Before(pairs[..n], i, side) == Before(pairs, i, side)
  {
    if i > 0 {
      BeforePrefix(pairs, n, i - 1, side);
    }
  }

  lemma GapIsSkipped(pairs: seq<Pair>, i: nat, side: bool)
    requires i < |pairs|
    ensures var gap := Gap(Last(Pages(Column(pairs[..i], side))), Side(pairs[i], side));
            && |gap| == Skipped(pairs, i, side)
            && forall k :: 0 <= k < |gap| ==> Some(gap[k]) == SkippedPage(pairs, i, side, k)
  {
    BeforeIsLast(pairs, i, side);
    var last, page := Before(pairs, i, side), Side(pairs[i], side);
    if last.Some? && page.Some? {
      RangeIs(last.value + 1, page.value);
    }
  }

  lemma {:induction false} ZipPairs(a: seq<int>, b: seq<int>)
    ensures |ZipLongest(a, b)| == Longer(|a|, |b|)
    ensures forall k :: 0 <= k < |ZipLongest(a, b)| ==>
              ZipLongest(a, b)[k] == (if k < |a| then Some(a[k]) else None, if k < |b| then Some(b[k]) else None)
    decreases |a| + |b|
  {
    if a != [] || b != [] {
      ZipPairs(if a == [] then [] else a[1..], if b == [] then [] else b[1..]);
    }
  }

  /** Between the pairs, fill_pair_gaps pairs the pages that both documents skip. */
  lemma {:induction false} FilledInPairs(pairs: seq<Pair>) returns (cuts: seq<nat>)
    ensures GapsPaired(pairs, WithGaps(pairs), cuts)
    decreases |pairs|
  {
    if pairs == [] {
      cuts := [];
    } else {
      var n := |pairs| - 1;
      var init := pairs[..n];
      var earlier := FilledInPairs(init);
      assert pairs[..n + 1] == pairs;
      WithGapsNext(pairs, n);
      GapIsSkipped(pairs, n, false);
      GapIsSkipped(pairs, n, true);
      var a := Gap(Last(Pages(Column(init, false))), pairs[n].0);
      var b := Gap(Last(Pages(Column(init, true))), pairs[n].1);
      ZipPairs(a, b);
      cuts := earlier + [|WithGaps(init) + ZipLongest(a, b)|];
      hide WithGaps, ZipLongest, Column, Pages, Gap;
      LongerPaired(pairs, WithGaps(init), earlier, ZipLongest(a, b), cuts);
    }
  }

  lemma LongerPaired(pairs: seq<Pair>, filled: seq<Pair>, earlier: seq<nat>, zip: seq<Pair>, cuts: seq<nat>)
    requires pairs != [] && GapsPaired(pairs[..|pairs| - 1], filled, earlier) && cuts == earlier + [|filled + zip|]
    requires var n := |pairs| - 1;
             && |zip| == Longer(Skipped(pairs, n, false), Skipped(pairs, n, true))
             && forall k :: 0 <= k < |zip| ==> zip[k] == (SkippedPage(pairs, n, false, k), SkippedPage(pairs, n, true, k))
    ensures GapsPaired(pairs, filled + zip + [pairs[|pairs| - 1]], cuts)
  {
    var n := |pairs| - 1;
    var all := filled + zip + [pairs[n]];
    forall i | 0 <= i < n
      ensures PairedAt(pairs, all, cuts, i)
    {
      assert PairedAt(pairs[..n], filled, earlier, i);
      BeforePrefix(pairs, n, i, false);
      BeforePrefix(pairs, n, i, true);
      assert forall k :: 0 <= k < |filled| ==> all[k] == filled[k];
    }
    assert PairedAt(pairs, all, cuts, n) by {
      assert forall k :: |filled| <= k < |filled| + |zip| ==> all[k] == zip[k - |filled|];
    }
  }

  // ----- the two passes together -----

  /** Pair i of raw survives the first pass: no full pair covers it, and it has not occurred before. */
  ghost predicate Kept(raw: seq<Pair>, i: nat)
    requires i < |raw|
  {
    !Covered(raw, raw[i]) && raw[i] !in raw[..i]
  }

  /** The pages of the surviving pairs do not fall. */
  ghost predicate KeptInOrder(raw: seq<Pair>, side: bool) {
    forall i, j :: 0 <= i < j < |raw| && Kept(raw, i) && Kept(raw, j)
                   && Side(raw[i], side).Some? && Side(raw[j], side).Some?
                   ==> Side(raw[i], side).value <= Side(raw[j], side).value
  }

  /** No page before position n of raw that survives is greater than x. */
  ghost predicate KeptUpTo(raw: seq<Pair>, n: nat, side: bool, x: int)
    requires n <= |raw|
  {
    forall i :: 0 <= i < n && Kept(raw, i) && Side(raw[i], side).Some? ==> Side(raw[i], side).value <= x
  }

  ghost function KeptPages(raw: seq<Pair>, n: nat, side: bool): seq<int>
    requires n <= |raw|
  {
    Pages(Column(Uncovered(raw, raw[..n]), side))
  }

  lemma KeptNext(raw: seq<Pair>, n: nat, side: bool)
    requires n < |raw|
    ensures KeptPages(raw, n + 1, side) == KeptPages(raw, n, side) +
              if Kept(raw, n) && Side(raw[n], side).Some? then [Side(raw[n], side).value] else []
  {
    assert raw[..n + 1][..n] == raw[..n];
    var before := Uncovered(raw, raw[..n]);
    var more := if Kept(raw, n) then [raw[n]] else [];
    assert Uncovered(raw, raw[..n + 1]) == before + more;
    hide Uncovered, Kept;
    ColumnAppend(before, more, side);
    ColumnOne(raw[n], side);
    if more == [] {
      assert Column(more, side) == [];
    }
  }

  lemma {:induction false} KeptBelow(raw: seq<Pair>, n: nat, side: bool, x: int)
    requires n <= |raw|
    ensures KeptUpTo(raw, n, side, x) <==> forall y :: y in KeptPages(raw, n, side) ==> y <= x
  {
    if n > 0 {
      var k := n - 1;
      KeptBelow(raw, k, side, x);
      KeptNext(raw, k, side);
      KeptUpToNext(raw, k, side, x);
      hide KeptUpTo, KeptPages, Kept;
      var before, more := KeptPages(raw, k, side),
        if Kept(raw, k) && Side(raw[k], side).Some? then [Side(raw[k], side).value] else [];
      assert KeptPages(raw, n, side) == before + more;
      AllAppended(before, more, x);
      assert more != [] ==> more[0] in more;
    } else {
      assert raw[..0] == [] && KeptPages(raw, 0, side) == [];
    }
  }

  lemma AllAppended(a: seq<int>, b: seq<int>, x: int)
    ensures (forall y :: y in a + b ==> y <= x) <==> (forall y :: y in a ==> y <= x) && (forall y :: y in b ==> y <= x)
  {
    assert forall y :: y in a + b <==> y in a || y in b;
  }

  lemma KeptUpToNext(raw: seq<Pair>, n: nat, side: bool, x: int)
    requires n < |raw|
    ensures KeptUpTo(raw, n + 1, side, x) <==>
              && KeptUpTo(raw, n, side, x)
              && (Kept(raw, n) && Side(raw[n], side).Some? ==> Side(raw[n], side).value <= x)
  {
    hide Kept;
  }

  lemma AscendingNext(s: seq<int>, x: int)
    ensures Ascending(s + [x]) <==> Ascending(s) && forall y :: y in s ==> y <= x
  {
    var t := s + [x];
    if Ascending(t) {
      assert forall i, j :: 0 <= i < j < |s| ==> t[i] == s[i] && t[j] == s[j];
      assert forall i :: 0 <= i < |s| ==> t[i] == s[i] && t[i] <= t[|s|];
    } else if Ascending(s) {
      var i, j :| 0 <= i < j < |t| && t[i] > t[j];
      assert j == |s| && s[i] in s;
    }
  }

  /** The surviving pages among the first n pairs do not fall. */
  ghost predicate InOrderUpTo(raw: seq<Pair>, n: nat, side: bool)
    requires n <= |raw|
  {
    forall j :: 0 <= j < n && Kept(raw, j) && Side(raw[j], side).Some?
                ==> KeptUpTo(raw, j, side, Side(raw[j], side).value)
  }

  lemma {:induction false} OrderUpTo(raw: seq<Pair>, n: nat, side: bool)
    requires n <= |raw|
    ensures Ascending(KeptPages(raw, n, side)) <==> InOrderUpTo(raw, n, side)
  {
    if n > 0 {
      var k := n - 1;
      OrderUpTo(raw, k, side);
      KeptNext(raw, k, side);
      hide Kept, KeptPages, KeptUpTo, Ascending;
      if Kept(raw, k) && Side(raw[k], side).Some? {
        AscendingNext(KeptPages(raw, k, side), Side(raw[k], side).value);
        KeptBelow(raw, k, side, Side(raw[k], side).value);
      } else {
        assert KeptPages(raw, k, side) + [] == KeptPages(raw, k, side);
      }
    } else {
      assert raw[..0] == [];
    }
  }

  /** The first pass leaves a column in order if and only if the pages of the surviving pairs do not
      fall; what is dropped does not matter. */
  lemma OrderExactly(raw: seq<Pair>, side: bool)
    ensures Ascending(Pages(Column(Uncovered(raw, raw), side))) <==> KeptInOrder(raw, side)
  {
    OrderUpTo(raw, |raw|, side);
    assert raw[..|raw|] == raw;
    hide Kept, Ascending, Uncovered;
  }

  /** So a column that was in order stays so. */
  lemma OrderStays(raw: seq<Pair>, side: bool)
    requires Ascending(Pages(Column(raw, side)))
    ensures KeptInOrder(raw, side)
  {
    forall i, j | 0 <= i < j < |raw| && Side(raw[i], side).Some? && Side(raw[j], side).Some?
      ensures Side(raw[i], side).value <= Side(raw[j], side).value
    {
      PageAfter(raw, i, j, side);
    }
    hide Kept;
  }

  lemma {:induction false} PageAfter(raw: seq<Pair>, i: nat, j: nat, side: bool)
    requires i < j < |raw| && Ascending(Pages(Column(raw, side)))
    requires Side(raw[i], side).Some? && Side(raw[j], side).Some?
    ensures Side(raw[i], side).value <= Side(raw[j], side).value
  {
    var a, b, c := raw[..i], raw[i + 1..j], raw[j + 1..];
    assert raw == a + [raw[i]] + b + [raw[j]] + c;
    ColumnAppend(a + [raw[i]] + b + [raw[j]], c, side);
    ColumnAppend(a + [raw[i]] + b, [raw[j]], side);
    ColumnAppend(a + [raw[i]], b, side);
    ColumnAppend(a, [raw[i]], side);
    ColumnOne(raw[i], side);
    ColumnOne(raw[j], side);
    hide Pages, Column;
    var x, y := Side(raw[i], side).value, Side(raw[j], side).value;
    TwoInOrder(Pages(Column(a, side)), x, Pages(Column(b, side)), y, Pages(Column(c, side)));
  }

  lemma TwoInOrder(a: seq<int>, x: int, b: seq<int>, y: int, c: seq<int>)
    requires Ascending(a + [x] + b + [y] + c)
    ensures x <= y
  {
    var s := a + [x] + b + [y] + c;
    assert s[|a|] == x && s[|a| + 1 + |b|] == y;
  }

  /** A dropped pair may be out of order: the half pair is covered by the first pair. */
  lemma DisorderDropped()
    ensures var raw := [(Some(1), Some(1)), (Some(2), Some(2)), (Some(1), None)];
            !Ascending(Pages(Column(raw, false))) && KeptInOrder(raw, false)
  {
    var raw: seq<Pair> := [(Some(1), Some(1)), (Some(2), Some(2)), (Some(1), None)];
    assert Covered(raw, raw[2]) by {
      assert raw[0] in raw && IsFull(raw[0]);
    }
    if Ascending(Pages(Column(raw, false))) {
      PageAfter(raw, 1, 2, false);
    }
  }

  /** compute_page_pairs, once the pairs of all sections are in one list. */
  method ComputePagePairs(raw: seq<Pair>) returns (r: Option<seq<Pair>>)
    ensures r.Some? <==> KeptInOrder(raw, false) && KeptInOrder(raw, true)
    ensures r.Some? ==> r.value == WithGaps(Uncovered(raw, raw))
    ensures r.Some? ==> exists cuts :: GapsPaired(Uncovered(raw, raw), r.value, cuts)
  {
    var pairs := AllPagePairs(raw);
    OrderExactly(raw, false);
    OrderExactly(raw, true);
    r := FillPairGaps(pairs);
  }

  lemma {:induction false} PageIn(pairs: seq<Pair>, side: bool, x: int)
    ensures x in Pages(Column(pairs, side)) <==> exists p :: p in pairs && Side(p, side) == Some(x)
  {
    if pairs != [] {
      var init, last := pairs[..|pairs| - 1], pairs[|pairs| - 1];
      PageIn(init, side, x);
      assert pairs == init + [last];
      ColumnAppend(init, [last], side);
      ColumnOne(last, side);
      hide Pages, Column;
    }
  }

  /** The first pass keeps the pages of each document. */
  lemma SamePages(raw: seq<Pair>, side: bool, x: int)
    ensures x in Pages(Column(Uncovered(raw, raw), side)) <==> x in Pages(Column(raw, side))
  {
    PageIn(raw, side, x);
    PageIn(Uncovered(raw, raw), side, x);
    UncoveredElements(raw, raw);
    hide Pages, Column, Uncovered, Covered;
    if x in Pages(Column(raw, side)) {
      var p :| p in raw && Side(p, side) == Some(x);
      NoPageLost(raw, p);
    }
  }

  /** x lies between two pages of the column, or is one of them. */
  ghost predicate Between(c: seq<int>, x: int) {
    exists lo, hi :: lo in c && hi in c && lo <= x <= hi
  }

  lemma FillIsBetween(c: seq<int>, x: int)
    requires Ascending(c)
    ensures x in Fill(c) <==> Between(c, x)
  {
    FillAddsMissing(c, x);
    hide Fill, Ascending, Between;
    OccursIfBetween(c, x);
    assert x in Fill(c) <==> multiset(Fill(c))[x] > 0;
  }

  lemma OccursIfBetween(c: seq<int>, x: int)
    requires Ascending(c)
    ensures Occurrences(c, x) > 0 <==> Between(c, x)
  {
    if Between(c, x) {
      var lo, hi :| lo in c && hi in c && lo <= x <= hi;
      FirstIsLeast(c, lo);
      FirstIsLeast(c, hi);
      hide Ascending;
      if x !in c {
        assert c[0] in c && c[|c| - 1] in c;
      }
    } else if c != [] {
      hide Ascending;
      assert c[0] in c && c[|c| - 1] in c;
    }
  }

  lemma FirstIsLeast(c: seq<int>, x: int)
    requires Ascending(c) && x in c
    ensures c[0] <= x <= c[|c| - 1]
  {
    var i :| 0 <= i < |c| && c[i] == x;
  }

  /** If the two passes succeed, each column of the result goes up without gaps, through exactly the
      numbers from the least to the greatest page of that document. */
  lemma PagesComputed(raw: seq<Pair>, side: bool, x: int)
    requires KeptInOrder(raw, side)
    ensures var column := Pages(Column(WithGaps(Uncovered(raw, raw)), side));
            NoGaps(column) && (x in column <==> Between(Pages(Column(raw, side)), x))
  {
    var c, d := Pages(Column(Uncovered(raw, raw), side)), Pages(Column(raw, side));
    OrderExactly(raw, side);
    ColumnsFilled(Uncovered(raw, raw), side);
    FillHasNoGaps(c);
    FillIsBetween(c, x);
    forall y
      ensures y in c <==> y in d
    {
      SamePages(raw, side, y);
    }
    hide Pages, Column, Fill, NoGaps, KeptInOrder, Uncovered;
  }
}
