/** Facts about sequences that several modules use. */
module Sequences {

  predicate Distinct<T(==)>(xs: seq<T>) {
    forall i, j :: 0 <= i < j < |xs| ==> xs[i] != xs[j]
  }

  /** Everything but the last element, and the last element, of a sequence just extended. */
  lemma Extended<T>(init: seq<T>, last: T)
    ensures (init + [last])[..|init + [last]| - 1] == init
  {
  }

  lemma SplitLast<T>(before: seq<T>, after: seq<T>)
    requires after != []
    ensures before + after == before + after[..|after| - 1] + [after[|after| - 1]]
    ensures (before + after)[..|before + after| - 1] == before + after[..|after| - 1]
    ensures (before + after)[|before + after| - 1] == after[|after| - 1]
  {
  }

  lemma FirstSeparator<T>(a: seq<T>, x: seq<T>, sep: T, b: seq<T>, y: seq<T>)
    requires a + [sep] + x == b + [sep] + y && sep !in b
    ensures |b| <= |a|
  {
    assert (a + [sep] + x)[|a|] == sep;
  }

  /** Text before the first separator and text after it are determined by the whole. */
  lemma SplitsAtFirst<T>(a: seq<T>, x: seq<T>, sep: T, b: seq<T>, y: seq<T>)
    requires a + [sep] + x == b + [sep] + y && sep !in a && sep !in b
    ensures a == b && x == y
  {
    FirstSeparator(a, x, sep, b, y);
    FirstSeparator(b, y, sep, a, x);
    SplitsAtLength(a, x, sep, b, y);
  }

  lemma LastSeparator<T>(a: seq<T>, x: seq<T>, sep: T, b: seq<T>, y: seq<T>)
    requires a + [sep] + x == b + [sep] + y && sep !in y
    ensures |a| <= |b|
  {
    assert (a + [sep] + x)[|a|] == sep;
  }

  /** The same for the last separator. */
  lemma SplitsAtLast<T>(a: seq<T>, x: seq<T>, sep: T, b: seq<T>, y: seq<T>)
    requires a + [sep] + x == b + [sep] + y && sep !in x && sep !in y
    ensures a == b && x == y
  {
    LastSeparator(a, x, sep, b, y);
    LastSeparator(b, y, sep, a, x);
    SplitsAtLength(a, x, sep, b, y);
  }

  lemma SplitsAtLength<T>(a: seq<T>, x: seq<T>, sep: T, b: seq<T>, y: seq<T>)
    requires a + [sep] + x == b + [sep] + y && |a| == |b|
    ensures a == b && x == y
  {
    var s, t := a + [sep] + x, b + [sep] + y;
    assert s[..|a|] == a && t[..|b|] == b;
    assert s[|a| + 1..] == x && t[|b| + 1..] == y;
  }
}
