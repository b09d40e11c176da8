/** Facts about sequences that are better named than found. */
module Sequences {

  lemma Associative<T>(a: seq<T>, b: seq<T>, c: seq<T>)
    ensures a + (b + c) == a + b + c
  {
  }

  lemma SplitLast<T>(s: seq<T>, init: seq<T>, x: T)
    requires s == init + [x]
    ensures s != [] && s[|s| - 1] == x && s[..|s| - 1] == init
  {
  }
}
