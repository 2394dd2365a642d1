/** ECMAScript strings: sequences of 16-bit code units, with the order, the
    sorting of distinct keys and the surrogate rules that the canonical text
    depends on. */
module Utf16 {
  import opened Sequences

  type Unit = u: int | 0 <= u < 0x1_0000

  type Text = seq<Unit>

  // ----- order -----

  /** Strict lexicographic order on code units: the order of `Array.sort` on strings. */
  predicate Before(a: Text, b: Text) {
    if b == [] then false
    else if a == [] then true
    else a[0] < b[0] || (a[0] == b[0] && Before(a[1..], b[1..]))
  }

  predicate StrictlySorted(keys: seq<Text>) {
    forall i, j :: 0 <= i < j < |keys| ==> Before(keys[i], keys[j])
  }

  lemma {:induction false} BeforeTotal(a: Text, b: Text)
    ensures a == b || Before(a, b) || Before(b, a)
  {
    if a != [] && b != [] && a[0] == b[0] {
      BeforeTotal(a[1..], b[1..]);
      assert a == [a[0]] + a[1..] && b == [b[0]] + b[1..];
    }
  }

  lemma {:induction false} BeforeTransitive(a: Text, b: Text, c: Text)
    requires Before(a, b) && Before(b, c)
    ensures Before(a, c)
  {
    if a != [] && a[0] == b[0] == c[0] {
      BeforeTransitive(a[1..], b[1..], c[1..]);
    }
  }

  lemma {:induction false} BeforeIrreflexive(a: Text)
    ensures !Before(a, a)
  {
    if a != [] {
      BeforeIrreflexive(a[1..]);
    }
  }

  /** `a` and `b` first part at unit `i`, where `a` has the smaller unit or has ended. */
  predicate PartsAt(a: Text, b: Text, i: nat) {
    i <= |a| && i < |b| && a[..i] == b[..i] && (i == |a| || a[i] < b[i])
  }

  /** The order is decided at the first differing unit; a proper prefix comes first. */
  lemma {:induction false} BeforeIff(a: Text, b: Text)
    ensures Before(a, b) <==> exists i: nat :: PartsAt(a, b, i)
  {
    if a == [] || b == [] || a[0] != b[0] {
      if Before(a, b) { assert PartsAt(a, b, 0); }
      forall i: nat | PartsAt(a, b, i) ensures Before(a, b) {
        if i > 0 { assert a[..i][0] == b[..i][0]; }
      }
    } else {
      BeforeIff(a[1..], b[1..]);
      if i: nat :| PartsAt(a[1..], b[1..], i) {
        assert a[..i + 1] == [a[0]] + a[1..][..i] && b[..i + 1] == [b[0]] + b[1..][..i];
        assert PartsAt(a, b, i + 1);
      }
      if i: nat :| PartsAt(a, b, i) {
        assert i > 0;
        assert a[1..][..i - 1] == a[..i][1..] && b[1..][..i - 1] == b[..i][1..];
        assert PartsAt(a[1..], b[1..], i - 1);
      }
    }
  }

  // ----- sorting -----

  function Insert(k: Text, sorted: seq<Text>): seq<Text> {
    if sorted == [] || Before(k, sorted[0]) then [k] + sorted
    else [sorted[0]] + Insert(k, sorted[1..])
  }

  function SortKeys(keys: seq<Text>): seq<Text> {
    if keys == [] then [] else Insert(keys[0], SortKeys(keys[1..]))
  }

  ghost predicate SameElements<T(!new)>(xs: seq<T>, ys: seq<T>) {
    forall x :: x in xs <==> x in ys
  }

  lemma {:induction false} InsertSorts(k: Text, sorted: seq<Text>)
    requires StrictlySorted(sorted) && k !in sorted
    ensures StrictlySorted(Insert(k, sorted))
    ensures SameElements(Insert(k, sorted), [k] + sorted)
  {
    if sorted == [] {
    } else if Before(k, sorted[0]) {
      forall j | 0 <= j < |sorted|
        ensures Before(k, sorted[j])
      {
        if j > 0 { BeforeTransitive(k, sorted[0], sorted[j]); }
      }
    } else {
      var tail := Insert(k, sorted[1..]);
      InsertSorts(k, sorted[1..]);
      BeforeTotal(k, sorted[0]);
      forall x | x in tail
        ensures Before(sorted[0], x)
      {
        assert x in [k] + sorted[1..];
      }
      assert sorted == [sorted[0]] + sorted[1..];
      assert SameElements(Insert(k, sorted), [k] + sorted);
    }
  }

  /** `Object.keys(value).sort()`: strictly increasing, same keys. */
  lemma {:induction false} SortKeysSorts(keys: seq<Text>)
    requires Distinct(keys)
    ensures StrictlySorted(SortKeys(keys))
    ensures SameElements(SortKeys(keys), keys)
  {
    if keys != [] {
      SortKeysSorts(keys[1..]);
      assert keys[0] !in keys[1..];
      InsertSorts(keys[0], SortKeys(keys[1..]));
      assert keys == [keys[0]] + keys[1..];
    }
  }

  /** Only one strictly increasing sequence has a given set of elements. */
  lemma {:induction false} SortedUnique(xs: seq<Text>, ys: seq<Text>)
    requires StrictlySorted(xs) && StrictlySorted(ys) && SameElements(xs, ys)
    ensures xs == ys
  {
    assert ys != [] ==> ys[0] in ys;
    if xs != [] {
      assert xs[0] in xs;
      assert xs[0] in ys;
      assert ys[0] in ys;
      assert ys[0] in xs;
      HeadsEqual(xs, ys);
      forall x
        ensures x in xs[1..] <==> x in ys[1..]
      {
        BeforeIrreflexive(xs[0]);
        assert x in xs[1..] ==> x in xs && x != xs[0];
        assert x in ys[1..] ==> x in ys && x != ys[0];
        assert x in xs && x != xs[0] ==> x in xs[1..];
        assert x in ys && x != ys[0] ==> x in ys[1..];
      }
      SortedUnique(xs[1..], ys[1..]);
      assert xs == [xs[0]] + xs[1..] && ys == [ys[0]] + ys[1..];
    }
  }

  lemma HeadsEqual(xs: seq<Text>, ys: seq<Text>)
    requires StrictlySorted(xs) && StrictlySorted(ys) && xs != [] && ys != []
    requires xs[0] in ys && ys[0] in xs
    ensures xs[0] == ys[0]
  {
    if xs[0] != ys[0] {
      assert Before(ys[0], xs[0]);
      assert Before(xs[0], ys[0]);
      BeforeTransitive(xs[0], ys[0], xs[0]);
      BeforeIrreflexive(xs[0]);
    }
  }

  // ----- surrogates -----

  predicate High(u: Unit) { 0xD800 <= u <= 0xDBFF }

  predicate Low(u: Unit) { 0xDC00 <= u <= 0xDFFF }

  predicate Surrogate(u: Unit) { High(u) || Low(u) }

  /** Every surrogate is half of a high-low pair, so UTF-8 encoding loses nothing. */
  predicate WellFormed(t: Text) {
    t == [] ||
    (!Surrogate(t[0]) && WellFormed(t[1..])) ||
    (|t| >= 2 && High(t[0]) && Low(t[1]) && WellFormed(t[2..]))
  }

  lemma {:induction false} WellFormedConcat(a: Text, b: Text)
    requires WellFormed(a) && WellFormed(b)
    ensures WellFormed(a + b)
  {
    if a == [] {
      assert a + b == b;
    } else if !Surrogate(a[0]) {
      WellFormedConcat(a[1..], b);
      assert (a + b)[1..] == a[1..] + b;
    } else {
      WellFormedConcat(a[2..], b);
      assert (a + b)[2..] == a[2..] + b;
    }
  }

  lemma {:induction false} PlainIsWellFormed(t: Text)
    requires forall i :: 0 <= i < |t| ==> !Surrogate(t[i])
    ensures WellFormed(t)
  {
    if t != [] {
      PlainIsWellFormed(t[1..]);
    }
  }
}
