/** regSortFeatures (specification/scripts/generator.py): four stable sorts, the least significant key
    first, order features lexicographically. */
module FeatureSort {

  /** A <feature> or <extension>; category is in upper case. */
  datatype Feature = Feature(
    isFeature: bool, name: string, category: string, sortorder: int, version: real, number: int)

  type Key = Feature -> real
  type Order = (Feature, Feature) -> bool
  type Test = Feature -> bool

  function CategoryKey(f: Feature): real {
    if f.isFeature then (if "VKSC" <= f.name then 0.5 else 0.0)
    else if f.category == "ARB" || f.category == "KHR" || f.category == "OES" then 1.0
    else 2.0
  }

  function OrderKey(f: Feature): real {
    f.sortorder as real
  }

  function VersionKey(f: Feature): real {
    f.version
  }

  function NumberKey(f: Feature): real {
    f.number as real
  }

  // ----- stable sorting -----

  function Insert(s: seq<Feature>, f: Feature, key: Key): (r: seq<Feature>)
    ensures multiset(r) == multiset(s) + multiset{f}
  {
    if s == [] || key(s[|s| - 1]) <= key(f) then s + [f]
    else
      assert s == s[..|s| - 1] + [s[|s| - 1]];
      Insert(s[..|s| - 1], f, key) + [s[|s| - 1]]
  }

  /** list.sort(key=key) */
  function Sort(s: seq<Feature>, key: Key): (r: seq<Feature>)
    ensures multiset(r) == multiset(s)
  {
    if s == [] then []
    else
      assert s == s[..|s| - 1] + [s[|s| - 1]];
      Insert(Sort(s[..|s| - 1], key), s[|s| - 1], key)
  }

  function Select(s: seq<Feature>, test: Test): seq<Feature> {
    if s == [] then []
    else Select(s[..|s| - 1], test) + (if test(s[|s| - 1]) then [s[|s| - 1]] else [])
  }

  ghost predicate Sorted(s: seq<Feature>, le: Order) {
    forall i, j :: 0 <= i < j < |s| ==> le(s[i], s[j])
  }

  function HasKey(key: Key, v: real): Test {
    f => key(f) == v
  }

  function ByKey(key: Key): Order {
    (a, b) => key(a) <= key(b)
  }

  lemma InsertElements(s: seq<Feature>, f: Feature, key: Key)
    ensures forall x :: x in Insert(s, f, key) ==> x in s || x == f
  {
    assert forall x :: x in Insert(s, f, key) ==> x in multiset(Insert(s, f, key));
  }

  lemma {:induction false} InsertSorted(s: seq<Feature>, f: Feature, key: Key)
    requires Sorted(s, ByKey(key))
    ensures Sorted(Insert(s, f, key), ByKey(key))
  {
    if s == [] || key(s[|s| - 1]) <= key(f) {
      forall i, j | 0 <= i < j < |s| + 1
        ensures ByKey(key)((s + [f])[i], (s + [f])[j])
      {
        assert j == |s| && i < |s| - 1 ==> ByKey(key)(s[i], s[|s| - 1]);
      }
    } else {
      var init, last := s[..|s| - 1], s[|s| - 1];
      InsertSorted(init, f, key);
      InsertElements(init, f, key);
      forall x | x in Insert(init, f, key)
        ensures ByKey(key)(x, last)
      {
        if x in init {
          var i :| 0 <= i < |init| && init[i] == x;
          assert ByKey(key)(s[i], s[|s| - 1]);
        }
      }
      SortedAppend(Insert(init, f, key), last, ByKey(key));
    }
  }

  lemma SortedAppend(s: seq<Feature>, f: Feature, le: Order)
    requires Sorted(s, le) && forall x :: x in s ==> le(x, f)
    ensures Sorted(s + [f], le)
  {
  }

  lemma {:induction false} InsertStable(s: seq<Feature>, f: Feature, key: Key, v: real)
    ensures Select(Insert(s, f, key), HasKey(key, v)) == Select(s + [f], HasKey(key, v))
  {
    assert (s + [f])[..|s|] == s;
    if s == [] || key(s[|s| - 1]) <= key(f) {
    } else {
      var init, last := s[..|s| - 1], s[|s| - 1];
      InsertStable(init, f, key, v);
      assert (init + [f])[..|init|] == init;
      var r := Insert(init, f, key);
      assert (r + [last])[..|r|] == r;
    }
  }

  lemma {:induction false} SortIsStable(s: seq<Feature>, key: Key)
    ensures Sorted(Sort(s, key), ByKey(key))
    ensures forall v :: Select(Sort(s, key), HasKey(key, v)) == Select(s, HasKey(key, v))
  {
    if s != [] {
      var init, last := s[..|s| - 1], s[|s| - 1];
      SortIsStable(init, key);
      InsertSorted(Sort(init, key), last, key);
      forall v
        ensures Select(Sort(s, key), HasKey(key, v)) == Select(s, HasKey(key, v))
      {
        InsertStable(Sort(init, key), last, key, v);
        assert (Sort(init, key) + [last])[..|Sort(init, key)|] == Sort(init, key);
      }
    }
  }

  // ----- one key after another -----

  lemma {:induction false} SelectElements(s: seq<Feature>, test: Test)
    ensures forall f :: f in Select(s, test) <==> f in s && test(f)
  {
    if s != [] {
      SelectElements(s[..|s| - 1], test);
      assert s == s[..|s| - 1] + [s[|s| - 1]];
    }
  }

  lemma {:induction false} SelectSorted(s: seq<Feature>, test: Test, le: Order)
    requires Sorted(s, le)
    ensures Sorted(Select(s, test), le)
  {
    if s != [] {
      var init, last := s[..|s| - 1], s[|s| - 1];
      SelectSorted(init, test, le);
      if test(last) {
        SelectElements(init, test);
        forall x | x in Select(init, test)
          ensures le(x, last)
        {
          var i :| 0 <= i < |init| && init[i] == x;
          assert le(s[i], s[|s| - 1]);
        }
        SortedAppend(Select(init, test), last, le);
      }
    }
  }

  lemma {:induction false} SelectPrefix(s: seq<Feature>, test: Test, n: nat)
    requires n <= |s|
    ensures Select(s[..n], test) <= Select(s, test)
    decreases |s| - n
  {
    if n < |s| {
      SelectPrefix(s, test, n + 1);
      assert s[..n + 1][..n] == s[..n];
    } else {
      assert s[..n] == s;
    }
  }

  function Then(key: Key, le: Order): Order {
    (a, b) => key(a) < key(b) || (key(a) == key(b) && le(a, b))
  }

  lemma SelectNext(r: seq<Feature>, test: Test, j: nat)
    requires j < |r| && test(r[j])
    ensures Select(r[..j + 1], test) == Select(r[..j], test) + [r[j]]
  {
    assert r[..j + 1][..j] == r[..j];
  }

  lemma SelectOrder(r: seq<Feature>, test: Test, le: Order, i: nat, j: nat)
    requires i < j < |r| && test(r[i]) && test(r[j]) && Sorted(Select(r, test), le)
    ensures le(r[i], r[j])
  {
    SelectPrefix(r, test, j + 1);
    SelectMember(r[..j], test, i);
    SelectNext(r, test, j);
    hide Select;
    var before := Select(r[..j], test);
    var p :| 0 <= p < |before| && before[p] == r[i];
    assert Select(r, test)[p] == r[i] && Select(r, test)[|before|] == r[j];
  }

  /** Sorting by one more key makes it the most significant one. */
  lemma SortThen(s: seq<Feature>, key: Key, le: Order)
    requires Sorted(s, le)
    ensures Sorted(Sort(s, key), Then(key, le))
  {
    var r := Sort(s, key);
    SortIsStable(s, key);
    forall i, j | 0 <= i < j < |r|
      ensures Then(key, le)(r[i], r[j])
    {
      if key(r[i]) == key(r[j]) {
        var test := HasKey(key, key(r[i]));
        SelectSorted(s, test, le);
        SelectOrder(r, test, le, i, j);
      } else {
        assert ByKey(key)(r[i], r[j]);
      }
    }
  }

  lemma {:induction false} SelectMember(s: seq<Feature>, test: Test, i: nat)
    requires i < |s| && test(s[i])
    ensures s[i] in Select(s, test)
  {
    if i < |s| - 1 {
      SelectMember(s[..|s| - 1], test, i);
    }
  }

  // ----- regSortFeatures -----

  function SortFeatures(s: seq<Feature>): (r: seq<Feature>)
    ensures multiset(r) == multiset(s)
  {
    Sort(Sort(Sort(Sort(s, NumberKey), VersionKey), OrderKey), CategoryKey)
  }

  /** a comes before b, or has the same category, sort order, version and number. */
  predicate NotAfter(a: Feature, b: Feature) {
    if CategoryKey(a) != CategoryKey(b) then CategoryKey(a) < CategoryKey(b)
    else if a.sortorder != b.sortorder then a.sortorder < b.sortorder
    else if a.version != b.version then a.version < b.version
    else a.number <= b.number
  }

  lemma SortFourTimes(s: seq<Feature>, k1: Key, k2: Key, k3: Key, k4: Key, any: Order)
    requires Sorted(s, any)
    ensures Sorted(Sort(Sort(Sort(Sort(s, k4), k3), k2), k1), Then(k1, Then(k2, Then(k3, Then(k4, any)))))
  {
    var s1 := Sort(s, k4);
    SortThen(s, k4, any);
    var s2 := Sort(s1, k3);
    SortThen(s1, k3, Then(k4, any));
    var s3 := Sort(s2, k2);
    SortThen(s2, k2, Then(k3, Then(k4, any)));
    SortThen(s3, k1, Then(k2, Then(k3, Then(k4, any))));
  }

  /** The result is in lexicographic order. */
  lemma FeaturesSorted(s: seq<Feature>)
    ensures Sorted(SortFeatures(s), NotAfter)
  {
    var any: Order := (_, _) => true;
    SortFourTimes(s, CategoryKey, OrderKey, VersionKey, NumberKey, any);
    var lex := Then(CategoryKey, Then(OrderKey, Then(VersionKey, Then(NumberKey, any))));
    forall a, b | lex(a, b)
      ensures NotAfter(a, b)
    {
    }
    SortedWeaken(SortFeatures(s), lex, NotAfter);
  }

  lemma SortedWeaken(s: seq<Feature>, le: Order, le': Order)
    requires Sorted(s, le) && forall a, b :: le(a, b) ==> le'(a, b)
    ensures Sorted(s, le')
  {
  }

  predicate Tied(f: Feature, g: Feature) {
    CategoryKey(f) == CategoryKey(g) && f.sortorder == g.sortorder && f.version == g.version && f.number == g.number
  }

  function TiedWith(g: Feature): Test {
    f => Tied(f, g)
  }

  lemma {:induction false} SelectTwice(s: seq<Feature>, p: Test, q: Test)
    requires forall f :: q(f) ==> p(f)
    ensures Select(Select(s, p), q) == Select(s, q)
  {
    if s != [] {
      var init, last := s[..|s| - 1], s[|s| - 1];
      SelectTwice(init, p, q);
      if p(last) {
        assert (Select(init, p) + [last])[..|Select(init, p)|] == Select(init, p);
      } else {
        assert Select(s, p) == Select(init, p) && Select(s, q) == Select(init, q);
      }
    }
  }

  lemma SortKeepsTied(s: seq<Feature>, key: Key, g: Feature)
    requires forall f :: Tied(f, g) ==> key(f) == key(g)
    ensures Select(Sort(s, key), TiedWith(g)) == Select(s, TiedWith(g))
  {
    SortIsStable(s, key);
    SelectTwice(Sort(s, key), HasKey(key, key(g)), TiedWith(g));
    SelectTwice(s, HasKey(key, key(g)), TiedWith(g));
  }

  /** Features that tie in all four keys keep their original order. */
  lemma TiesKeepOrder(s: seq<Feature>, g: Feature)
    ensures Select(SortFeatures(s), TiedWith(g)) == Select(s, TiedWith(g))
  {
    var s1 := Sort(s, NumberKey);
    var s2 := Sort(s1, VersionKey);
    var s3 := Sort(s2, OrderKey);
    SortKeepsTied(s, NumberKey, g);
    SortKeepsTied(s1, VersionKey, g);
    SortKeepsTied(s2, OrderKey, g);
    SortKeepsTied(s3, CategoryKey, g);
  }

  // ----- the order by name and category -----

  /** Versions other than those of the safety critical variant, those, extensions of the ARB, KHR and OES
      categories, and all others. */
  predicate SameKind(a: Feature, b: Feature) {
    && a.isFeature == b.isFeature
    && (a.isFeature ==> ("VKSC" <= a.name <==> "VKSC" <= b.name))
    && (!a.isFeature ==> (Khronos(a) <==> Khronos(b)))
  }

  predicate Khronos(f: Feature) {
    f.category in ["ARB", "KHR", "OES"]
  }

  /** a is of the same kind as b, or of an earlier one. */
  predicate KindNotAfter(a: Feature, b: Feature) {
    if a.isFeature != b.isFeature then a.isFeature
    else if a.isFeature then "VKSC" <= a.name ==> "VKSC" <= b.name
    else Khronos(b) ==> Khronos(a)
  }

  predicate InOrder(a: Feature, b: Feature) {
    && KindNotAfter(a, b)
    && (SameKind(a, b) ==>
          if a.sortorder != b.sortorder then a.sortorder < b.sortorder
          else if a.version != b.version then a.version < b.version
          else a.number <= b.number)
  }

  /** The sorted list has the versions first, and within each kind the order of sort order, version and
      extension number. */
  lemma SortedByKind(s: seq<Feature>)
    ensures Sorted(SortFeatures(s), InOrder)
  {
    FeaturesSorted(s);
    forall a, b | NotAfter(a, b)
      ensures InOrder(a, b)
    {
      OrderMeans(a, b);
    }
    hide NotAfter, InOrder, SortFeatures;
    SortedWeaken(SortFeatures(s), NotAfter, InOrder);
  }

  lemma OrderMeans(a: Feature, b: Feature)
    ensures NotAfter(a, b) ==> InOrder(a, b)
  {
  }

  lemma TiedMeans(f: Feature, g: Feature)
    ensures Tied(f, g) <==> SameKind(f, g) && f.sortorder == g.sortorder && f.version == g.version && f.number == g.number
  {
  }
}
