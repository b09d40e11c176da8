/** Building C enums (specification/scripts/generator.py): values, duplicates, range and extremes. */
module Enums {
  import opened Wrappers

  /** An <enum> tag, by the attribute that gives its value. The value attribute is a legal number. */
  datatype ValueAttribute =
    | Value(number: int)
    | BitPos(bitpos: nat)
    | Offset(offset: int, extnumber: int, negative: bool)
    | Alias(alias: string)

  datatype EnumElem = EnumElem(name: string, attribute: ValueAttribute, extending: bool, required: bool)

  const EXT_BASE := 1000000000
  const EXT_BLOCK_SIZE := 1000
  const MAX_VALUE := 0x7FFF_FFFF
  const MIN_VALUE := -0x8000_0000

  function Pow2(n: nat): (p: nat)
    ensures p >= 1
  {
    if n == 0 then 1 else 2 * Pow2(n - 1)
  }

  function OffsetValue(offset: int, extnumber: int, negative: bool): int {
    var v := EXT_BASE + (extnumber - 1) * EXT_BLOCK_SIZE + offset;
    if negative then -v else v
  }

  /** The numeric part of enumToValue. */
  function Number(e: EnumElem): Option<int> {
    match e.attribute
    case Value(n) => Some(n)
    case BitPos(p) => Some(Pow2(p))
    case Offset(o, x, neg) => Some(OffsetValue(o, x, neg))
    case Alias(_) => None
  }

  /** The numbers of an extension count up from 1000000000 in blocks of a thousand, or down from its
      negative. */
  lemma OffsetsCount(o: int, x: int)
    ensures Number(EnumElem("", Offset(0, 1, false), false, true)) == Some(1000000000)
    ensures OffsetValue(o + 1, x, false) == OffsetValue(o, x, false) + 1
    ensures OffsetValue(o, x + 1, false) == OffsetValue(o, x, false) + 1000
    ensures OffsetValue(o, x, true) == -OffsetValue(o, x, false)
  {
  }

  /** Bit positions count powers of two. */
  lemma BitsDouble(e: EnumElem, p: nat)
    ensures Number(e.(attribute := BitPos(0))) == Some(1)
    ensures Number(e.(attribute := BitPos(p + 1))) == Some(2 * Number(e.(attribute := BitPos(p))).value)
  {
  }

  /** Offsets within a block never make two extensions collide ... */
  lemma OffsetsDistinct(o: int, x: int, neg: bool, o': int, x': int, neg': bool)
    requires 0 <= o < EXT_BLOCK_SIZE && 0 <= o' < EXT_BLOCK_SIZE && x >= 1 && x' >= 1
    ensures OffsetValue(o, x, neg) == OffsetValue(o', x', neg') <==> o == o' && x == x' && neg == neg'
  {
    if x < x' {
      assert (x' - x) * EXT_BLOCK_SIZE >= EXT_BLOCK_SIZE;
    } else if x' < x {
      assert (x - x') * EXT_BLOCK_SIZE >= EXT_BLOCK_SIZE;
    }
  }

  /** ... and stay in the range of a C enum for every offset exactly up to extension 1147483. */
  lemma OffsetsInRange(x: int)
    requires x >= 1
    ensures (forall o, neg :: 0 <= o < EXT_BLOCK_SIZE ==> MIN_VALUE <= OffsetValue(o, x, neg) <= MAX_VALUE)
            <==> x <= 1147483
  {
    if x > 1147483 {
      assert OffsetValue(EXT_BLOCK_SIZE - 1, x, false) > MAX_VALUE;
    }
  }

  // ----- duplicates -----

  predicate FirstOfName(es: seq<EnumElem>, i: nat)
    requires i < |es|
  {
    forall j :: 0 <= j < i ==> es[j].name != es[i].name
  }

  /** Two tags, each the first of its name, with the same numeric value. */
  ghost predicate Collide(es: seq<EnumElem>, i: nat, j: nat)
    requires i < j < |es|
  {
    FirstOfName(es, i) && FirstOfName(es, j) && Number(es[i]).Some? && Number(es[i]) == Number(es[j])
  }

  ghost predicate CollisionFree(es: seq<EnumElem>, n: nat)
    requires n <= |es|
  {
    forall i, j :: 0 <= i < j < n ==> !Collide(es, i, j)
  }

  ghost predicate Occurs(es: seq<EnumElem>, n: nat, name: string)
    requires n <= |es|
  {
    exists k :: 0 <= k < n && es[k].name == name
  }

  lemma OccursNext(es: seq<EnumElem>, n: nat, name: string)
    requires n < |es|
    ensures Occurs(es, n + 1, name) <==> Occurs(es, n, name) || es[n].name == name
  {
    if es[n].name == name {
      assert Occurs(es, n + 1, name);
    }
  }

  /** The two maps of checkDuplicateEnums after n tags. */
  ghost predicate Maps(es: seq<EnumElem>, n: nat, names: map<string, nat>, values: map<int, nat>, kept: seq<nat>)
    requires n <= |es|
  {
    && (forall k :: k in kept <==> 0 <= k < n && FirstOfName(es, k))
    && (forall s :: s in names <==> Occurs(es, n, s))
    && (forall v :: v in values ==> values[v] in kept && Number(es[values[v]]) == Some(v))
    && (forall k :: k in kept && Number(es[k]).Some? ==> Number(es[k]).value in values)
  }

  lemma FirstIsNew(es: seq<EnumElem>, n: nat)
    requires n < |es|
    ensures FirstOfName(es, n) <==> !Occurs(es, n, es[n].name)
  {
  }

  lemma SeenNoCollision(es: seq<EnumElem>, n: nat)
    requires n < |es| && !FirstOfName(es, n) && CollisionFree(es, n)
    ensures CollisionFree(es, n + 1)
  {
    hide FirstOfName, Number;
  }

  lemma NameSeen(es: seq<EnumElem>, n: nat, names: map<string, nat>, values: map<int, nat>, kept: seq<nat>)
    requires n < |es| && Maps(es, n, names, values, kept) && CollisionFree(es, n)
    ensures es[n].name in names <==> !FirstOfName(es, n)
    ensures es[n].name in names ==> Maps(es, n + 1, names, values, kept) && CollisionFree(es, n + 1)
  {
    hide Occurs, Number, FirstOfName, Collide, CollisionFree;
    FirstIsNew(es, n);
    if es[n].name in names {
      SeenNoCollision(es, n);
      forall s: string
        ensures Occurs(es, n + 1, s) <==> Occurs(es, n, s)
      {
        OccursNext(es, n, s);
      }
    }
  }

  /** checkDuplicateEnums: the first tag of each name, unless two of them have the same value. */
  method CheckDuplicateEnums(es: seq<EnumElem>) returns (ok: bool, kept: seq<nat>)
    ensures ok <==> CollisionFree(es, |es|)
    ensures ok ==> forall i :: i in kept <==> 0 <= i < |es| && FirstOfName(es, i)
  {
    var names: map<string, nat> := map[];
    var values: map<int, nat> := map[];
    kept := [];
    for i := 0 to |es|
      invariant Maps(es, i, names, values, kept)
      invariant CollisionFree(es, i)
    {
      var e := es[i];
      var number := Number(e);
      NameSeen(es, i, names, values, kept);
      if e.name !in names {
        if number.Some? && number.value in values {
          assert Collide(es, values[number.value], i);
          return false, kept;
        }
        NameNew(es, i, names, values, kept);
        names := names[e.name := i];
        if number.Some? {
          values := values[number.value := i];
        }
        kept := kept + [i];
      }
      hide FirstOfName, Number, Collide, Occurs;
    }
    ok := true;
  }

  lemma NameNew(es: seq<EnumElem>, n: nat, names: map<string, nat>, values: map<int, nat>, kept: seq<nat>)
    requires n < |es| && Maps(es, n, names, values, kept) && CollisionFree(es, n)
    requires es[n].name !in names && (Number(es[n]).Some? ==> Number(es[n]).value !in values)
    ensures var number := Number(es[n]);
            Maps(es, n + 1, names[es[n].name := n],
                 if number.Some? then values[number.value := n] else values, kept + [n])
    ensures CollisionFree(es, n + 1)
  {
    forall s: string
      ensures Occurs(es, n + 1, s) <==> Occurs(es, n, s) || s == es[n].name
    {
      OccursNext(es, n, s);
    }
    hide Number;
  }

  // ----- declarations -----

  predicate Kept(es: seq<EnumElem>, k: nat, numeric: bool)
    requires k < |es|
  {
    FirstOfName(es, k) && es[k].required && Number(es[k]).Some? == numeric
  }

  /** The enumerants declared among the first n tags: those with a number, or the others. */
  function Declared(es: seq<EnumElem>, n: nat, numeric: bool): seq<EnumElem>
    requires n <= |es|
  {
    if n == 0 then []
    else Declared(es, n - 1, numeric) + (if Kept(es, n - 1, numeric) then [es[n - 1]] else [])
  }

  lemma DeclaredNext(es: seq<EnumElem>, n: nat)
    requires n < |es|
    ensures Declared(es, n + 1, true) == Declared(es, n, true) + if Kept(es, n, true) then [es[n]] else []
    ensures Declared(es, n + 1, false) == Declared(es, n, false) + if Kept(es, n, false) then [es[n]] else []
  {
  }

  /** The value fits a signed 32-bit integer. */
  predicate Fits(e: EnumElem) {
    var number := Number(e);
    number.Some? ==> MIN_VALUE <= number.value <= MAX_VALUE
  }

  lemma FitsExactly(e: EnumElem)
    ensures Fits(e) <==> Number(e).None? || -2147483648 <= Number(e).value < 2147483648
  {
  }

  ghost predicate InRange(es: seq<EnumElem>, n: nat)
    requires n <= |es|
  {
    forall k :: 0 <= k < n && FirstOfName(es, k) ==> Fits(es[k])
  }

  /** A tag that counts for the extremes: it has a number and does not come from an extension. */
  predicate Counts(es: seq<EnumElem>, k: nat)
    requires k < |es|
  {
    FirstOfName(es, k) && Number(es[k]).Some? && !es[k].extending
  }

  /** Some tag that counts has this name and value, and the value bounds all of them from below (above). */
  ghost predicate Least(es: seq<EnumElem>, n: nat, name: string, value: int)
    requires n <= |es|
  {
    && (exists k :: 0 <= k < n && Counts(es, k) && es[k].name == name && Number(es[k]) == Some(value))
    && (forall k :: 0 <= k < n && Counts(es, k) ==> value <= Number(es[k]).value)
  }

  ghost predicate Greatest(es: seq<EnumElem>, n: nat, name: string, value: int)
    requires n <= |es|
  {
    && (exists k :: 0 <= k < n && Counts(es, k) && es[k].name == name && Number(es[k]) == Some(value))
    && (forall k :: 0 <= k < n && Counts(es, k) ==> Number(es[k]).value <= value)
  }

  /** The names of the least and the greatest value; none if no tag counts. */
  datatype Extremes = NoExtremes | Extremes(minName: string, minValue: int, maxName: string, maxValue: int)

  ghost predicate AreExtremes(es: seq<EnumElem>, n: nat, x: Extremes)
    requires n <= |es|
  {
    match x
    case NoExtremes => forall k :: 0 <= k < n ==> !Counts(es, k)
    case Extremes(minName, minValue, maxName, maxValue) =>
      Least(es, n, minName, minValue) && Greatest(es, n, maxName, maxValue)
  }

  /** Take one more value into account. */
  function Widen(x: Extremes, name: string, value: int): Extremes {
    match x
    case NoExtremes => Extremes(name, value, name, value)
    case Extremes(minName, minValue, maxName, maxValue) =>
      if value < minValue then Extremes(name, value, maxName, maxValue)
      else if value > maxValue then Extremes(minName, minValue, name, value)
      else x
  }

  lemma WidenExtremes(es: seq<EnumElem>, n: nat, x: Extremes)
    requires n < |es| && AreExtremes(es, n, x)
    ensures AreExtremes(es, n + 1, if Counts(es, n) then Widen(x, es[n].name, Number(es[n]).value) else x)
  {
    if Counts(es, n) {
      var v := Number(es[n]).value;
      if x.Extremes? {
        assert x.minValue <= x.maxValue;
      }
    }
  }

  method TrackExtremes(es: seq<EnumElem>, i: nat, listed: bool, before: Extremes) returns (extremes: Extremes)
    requires i < |es| && (listed <==> FirstOfName(es, i)) && AreExtremes(es, i, before)
    ensures AreExtremes(es, i + 1, extremes)
  {
    WidenExtremes(es, i, before);
    var number := Number(es[i]);
    extremes := if listed && number.Some? && !es[i].extending then Widen(before, es[i].name, number.value)
                else before;
  }

  method AddDeclaration(es: seq<EnumElem>, i: nat, listed: bool, body0: seq<EnumElem>, aliases0: seq<EnumElem>)
    returns (body: seq<EnumElem>, aliases: seq<EnumElem>)
    requires i < |es| && (listed <==> FirstOfName(es, i))
    requires body0 == Declared(es, i, true) && aliases0 == Declared(es, i, false)
    ensures body == Declared(es, i + 1, true) && aliases == Declared(es, i + 1, false)
  {
    DeclaredNext(es, i);
    body, aliases := body0, aliases0;
    if listed && es[i].required {
      if Number(es[i]).Some? {
        body := body + [es[i]];
      } else {
        aliases := aliases + [es[i]];
      }
    }
  }

  /** The loop of buildEnumCDecl_Enum: numeric enumerants first, then aliases; and the extremes, if they
      are wanted. It fails on duplicate values and on values that do not fit a C enum. */
  method BuildEnum(es: seq<EnumElem>, isEnum: bool) returns (ok: bool, decls: seq<EnumElem>, extremes: Extremes)
    ensures ok <==> CollisionFree(es, |es|) && InRange(es, |es|)
    ensures ok ==> decls == Declared(es, |es|, true) + Declared(es, |es|, false)
    ensures ok && isEnum ==> AreExtremes(es, |es|, extremes)
  {
    decls, extremes := [], NoExtremes;
    hide CollisionFree, Fits, FirstOfName;
    var kept;
    ok, kept := CheckDuplicateEnums(es);
    if !ok {
      return;
    }
    var body: seq<EnumElem>, aliases: seq<EnumElem> := [], [];
    for i := 0 to |es|
      invariant body == Declared(es, i, true) && aliases == Declared(es, i, false)
      invariant InRange(es, i)
      invariant isEnum ==> AreExtremes(es, i, extremes)
    {
      var listed := i in kept;
      body, aliases := AddDeclaration(es, i, listed, body, aliases);
      if listed && !Fits(es[i]) {
        return false, [], NoExtremes;
      }
      if isEnum {
        extremes := TrackExtremes(es, i, listed, extremes);
      }
    }
    decls := body + aliases;
  }

  lemma {:induction false} DeclaredAre(es: seq<EnumElem>, n: nat, numeric: bool, i: nat)
    requires n <= |es| && i < |Declared(es, n, numeric)|
    ensures exists k :: 0 <= k < n && Kept(es, k, numeric) && es[k] == Declared(es, n, numeric)[i]
              && es[k].required && (Number(es[k]).Some? <==> numeric)
              && forall j :: 0 <= j < k ==> es[j].name != es[k].name
  {
    if i < |Declared(es, n - 1, numeric)| {
      DeclaredAre(es, n - 1, numeric, i);
    } else {
      assert Kept(es, n - 1, numeric);
    }
  }

  /** And each of them is declared, in the order of the tags: tag k at position at. */
  lemma {:induction false} DeclaredAll(es: seq<EnumElem>, n: nat, numeric: bool, k: nat) returns (at: nat)
    requires k < n <= |es| && es[k].required && (Number(es[k]).Some? <==> numeric)
    requires forall j :: 0 <= j < k ==> es[j].name != es[k].name
    ensures at == |Declared(es, k, numeric)| < |Declared(es, n, numeric)| && Declared(es, n, numeric)[at] == es[k]
  {
    if k == n - 1 {
      at := |Declared(es, k, numeric)|;
    } else {
      at := DeclaredAll(es, n - 1, numeric, k);
    }
  }

  lemma {:induction false} DeclaredDiffer(es: seq<EnumElem>, n: nat, numeric: bool, i: nat, j: nat)
    requires n <= |es| && CollisionFree(es, |es|) && i < j < |Declared(es, n, numeric)|
    ensures var a, b := Declared(es, n, numeric)[i], Declared(es, n, numeric)[j];
            a.name != b.name && (numeric ==> Number(a) != Number(b))
  {
    if j < |Declared(es, n - 1, numeric)| {
      DeclaredDiffer(es, n - 1, numeric, i, j);
    } else {
      DeclaredAre(es, n - 1, numeric, i);
      var k :| 0 <= k < n - 1 && Kept(es, k, numeric) && es[k] == Declared(es, n - 1, numeric)[i];
      assert !Collide(es, k, n - 1);
    }
  }

  /** The declarations have distinct names and distinct numbers, with all numbers before all aliases. */
  lemma DeclarationsDistinct(es: seq<EnumElem>, i: nat, j: nat)
    requires CollisionFree(es, |es|)
    requires i < j < |Declared(es, |es|, true) + Declared(es, |es|, false)|
    ensures var decls := Declared(es, |es|, true) + Declared(es, |es|, false);
            && decls[i].name != decls[j].name
            && (Number(decls[j]).Some? ==> Number(decls[i]).Some? && Number(decls[i]) != Number(decls[j]))
  {
    var m := |Declared(es, |es|, true)|;
    if j < m {
      DeclaredDiffer(es, |es|, true, i, j);
      DeclaredAre(es, |es|, true, i);
    } else if i >= m {
      DeclaredDiffer(es, |es|, false, i - m, j - m);
      DeclaredAre(es, |es|, false, j - m);
    } else {
      DeclaredAre(es, |es|, true, i);
      DeclaredAre(es, |es|, false, j - m);
    }
  }
}
