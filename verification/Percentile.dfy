/** The latency percentile: order statistics with linear interpolation. */
module Percentile {
  import opened Wrappers

  function Insert(x: real, s: seq<real>): (r: seq<real>)
    ensures |r| == |s| + 1
  {
    if s == [] || x <= s[0] then [x] + s else [s[0]] + Insert(x, s[1..])
  }

  /** `sorted(values)` */
  function Sort(values: seq<real>): (r: seq<real>)
    ensures |r| == |values|
  {
    if values == [] then [] else Insert(values[0], Sort(values[1..]))
  }

  predicate Sorted(s: seq<real>) {
    forall i, j :: 0 <= i <= j < |s| ==> s[i] <= s[j]
  }

  /** The value at fractional rank `k` of a sorted sequence. */
  function AtRank(s: seq<real>, k: real): real
    requires |s| > 0 && 0.0 <= k <= (|s| - 1) as real
  {
    var f := k.Floor;
    var c := if f + 1 < |s| - 1 then f + 1 else |s| - 1;
    if f == c then s[f]
    else s[f] * (c as real - k) + s[c] * (k - f as real)
  }

  function Share(a: real, pct: real): real {
    a * (pct / 100.0)
  }

  function Rank(n: nat, pct: real): (k: real)
    requires n > 0 && 0.0 <= pct <= 100.0
    ensures 0.0 <= k <= (n - 1) as real
  {
    Scaled((n - 1) as real, pct);
    Share((n - 1) as real, pct)
  }

  lemma Scaled(a: real, pct: real)
    requires 0.0 <= a && 0.0 <= pct <= 100.0
    ensures 0.0 <= Share(a, pct) <= a
  {
    var t := pct / 100.0;
    assert 0.0 <= t <= 1.0;
    Product(a, t);
    Product(a, 1.0 - t);
    assert a * (1.0 - t) == a - a * t;
  }

  /** `_percentile`; none for no samples. */
  function PercentileOf(values: seq<real>, pct: real): Option<real>
    requires 0.0 <= pct <= 100.0
  {
    if values == [] then None else Some(AtRank(Sort(values), Rank(|values|, pct)))
  }

  // ----- sorting -----

  lemma {:induction false} InsertAdds(x: real, s: seq<real>)
    ensures multiset(Insert(x, s)) == multiset{x} + multiset(s)
  {
    if s != [] && x > s[0] {
      InsertAdds(x, s[1..]);
      assert s == [s[0]] + s[1..];
    }
  }

  lemma {:induction false} InsertSorted(x: real, s: seq<real>)
    requires Sorted(s)
    ensures Sorted(Insert(x, s))
  {
    if s != [] && x > s[0] {
      InsertSorted(x, s[1..]);
      InsertAdds(x, s[1..]);
      var tail := Insert(x, s[1..]);
      forall i | 0 <= i < |tail| ensures s[0] <= tail[i] {
        assert tail[i] in multiset(tail);
        assert tail[i] in multiset{x} + multiset(s[1..]);
      }
    }
  }

  lemma {:induction false} SortSorts(values: seq<real>)
    ensures Sorted(Sort(values)) && multiset(Sort(values)) == multiset(values)
  {
    if values != [] {
      SortSorts(values[1..]);
      InsertSorted(values[0], Sort(values[1..]));
      InsertAdds(values[0], Sort(values[1..]));
      assert values == [values[0]] + values[1..];
    }
  }

  lemma FirstIsLeast(s: seq<real>, x: real)
    requires Sorted(s) && x in multiset(s)
    ensures s != [] && s[0] <= x
  {
    assert x in s;
  }

  lemma SplitHead(s: seq<real>)
    requires s != []
    ensures multiset(s) == multiset{s[0]} + multiset(s[1..])
  {
    assert s == [s[0]] + s[1..];
  }

  lemma SameHead(s: seq<real>, t: seq<real>)
    requires Sorted(s) && Sorted(t) && multiset(s) == multiset(t) && s != [] && t != []
    ensures s[0] == t[0] && multiset(s[1..]) == multiset(t[1..])
  {
    assert s[0] in multiset(s) && t[0] in multiset(t);
    FirstIsLeast(t, s[0]);
    FirstIsLeast(s, t[0]);
    SplitHead(s);
    SplitHead(t);
    assert multiset(s[1..]) == multiset(s) - multiset{s[0]};
    assert multiset(t[1..]) == multiset(t) - multiset{t[0]};
  }

  lemma {:induction false} SortedUnique(s: seq<real>, t: seq<real>)
    requires Sorted(s) && Sorted(t) && multiset(s) == multiset(t)
    ensures s == t
  {
    assert |multiset(s)| == |s| && |multiset(t)| == |t|;
    if s != [] {
      SameHead(s, t);
      SortedUnique(s[1..], t[1..]);
      assert s == [s[0]] + s[1..] && t == [t[0]] + t[1..];
    }
  }

  /** The order of the samples does not matter. */
  lemma OrderIrrelevant(xs: seq<real>, ys: seq<real>, pct: real)
    requires 0.0 <= pct <= 100.0 && multiset(xs) == multiset(ys)
    ensures PercentileOf(xs, pct) == PercentileOf(ys, pct)
  {
    SortSorts(xs);
    SortSorts(ys);
    SortedUnique(Sort(xs), Sort(ys));
    assert |multiset(xs)| == |xs| && |multiset(ys)| == |ys|;
  }

  // ----- interpolation -----

  lemma Between(a: real, b: real, t: real)
    requires a <= b && 0.0 <= t <= 1.0
    ensures a <= a * (1.0 - t) + b * t <= b
  {
    Product(b - a, t);
    Product(b - a, 1.0 - t);
    assert a * (1.0 - t) + b * t == a + (b - a) * t;
    assert a * (1.0 - t) + b * t == b - (b - a) * (1.0 - t);
  }

  /** On its segment the value lies between the two samples around it. */
  lemma InSegment(s: seq<real>, k: real)
    requires |s| > 0 && 0.0 <= k <= (|s| - 1) as real && Sorted(s)
    ensures var f := k.Floor; s[f] <= AtRank(s, k)
    ensures var f := k.Floor; f + 1 < |s| ==> AtRank(s, k) <= s[f + 1]
    ensures AtRank(s, k) <= s[|s| - 1]
  {
    var f := k.Floor;
    if f + 1 < |s| {
      Between(s[f], s[f + 1], k - f as real);
    }
  }

  /** The value `t` of the way from entry `f` to the next one. */
  function Along(s: seq<real>, f: nat, t: real): real
    requires f < |s| && (t > 0.0 ==> f + 1 < |s|)
  {
    if t <= 0.0 then s[f] else s[f] + t * (s[f + 1] - s[f])
  }

  lemma OnSegment(s: seq<real>, f: nat, t: real)
    requires f < |s| && 0.0 <= t < 1.0 && (t > 0.0 ==> f + 1 < |s|)
    ensures AtRank(s, f as real + t) == Along(s, f, t)
  {
    assert (f as real + t).Floor == f;
    if f + 1 < |s| {
      assert s[f] * ((f + 1) as real - (f as real + t)) == s[f] * (1.0 - t);
      assert s[f] * (1.0 - t) + s[f + 1] * t == s[f] + t * (s[f + 1] - s[f]);
    }
  }

  /** `k` is `pct` percent of the way from rank 0 to rank `n - 1`. */
  predicate IsRank(n: nat, pct: real, k: real) {
    100.0 * k == (n - 1) as real * pct
  }

  lemma RankBound(n: nat, pct: real, f: nat, t: real)
    requires n > 0 && 0.0 <= pct <= 100.0 && 0.0 <= t < 1.0 && IsRank(n, pct, f as real + t)
    ensures Rank(n, pct) == f as real + t && f < n && (t > 0.0 ==> f + 1 < n)
  {
    RankIs(n, pct, f as real + t);
    assert f as real + t <= (n - 1) as real;
  }

  /** The percentile is read off the samples in order: it stands `pct` percent of the way
      from the first to the last, between two samples in proportion. */
  lemma Interpolates(values: seq<real>, sorted: seq<real>, pct: real, f: nat, t: real)
    requires values != [] && Sorted(sorted) && multiset(sorted) == multiset(values)
    requires 0.0 <= pct <= 100.0 && 0.0 <= t < 1.0 && IsRank(|values|, pct, f as real + t)
    ensures f < |sorted| && (t > 0.0 ==> f + 1 < |sorted|)
    ensures PercentileOf(values, pct) == Some(Along(sorted, f, t))
  {
    SortSorts(values);
    SortedUnique(sorted, Sort(values));
    RankBound(|values|, pct, f, t);
    OnSegment(sorted, f, t);
  }

  /** A rank midway between two samples gives their mean. */
  lemma MidwayIsMean(s: seq<real>, f: nat)
    requires f + 1 < |s|
    ensures AtRank(s, f as real + 0.5) == (s[f] + s[f + 1]) / 2.0
  {
    OnSegment(s, f, 0.5);
  }

  lemma RankIs(n: nat, pct: real, k: real)
    requires n > 0 && 0.0 <= pct <= 100.0 && IsRank(n, pct, k)
    ensures Rank(n, pct) == k
  {
    var a := (n - 1) as real;
    assert a * (pct / 100.0) == a * pct / 100.0;
  }

  lemma NoSamples(pct: real)
    requires 0.0 <= pct <= 100.0
    ensures PercentileOf([], pct) == None
  {
  }

  lemma SteeperAlong(a: real, b: real, t: real, u: real)
    requires a <= b && t <= u
    ensures a * (1.0 - t) + b * t <= a * (1.0 - u) + b * u
  {
    Product(b - a, u - t);
    assert a * (1.0 - u) + b * u - (a * (1.0 - t) + b * t) == (b - a) * (u - t);
  }

  lemma Product(x: real, y: real)
    requires 0.0 <= x && 0.0 <= y
    ensures 0.0 <= x * y
  {
  }

  lemma RankMonotone(s: seq<real>, k: real, l: real)
    requires |s| > 0 && 0.0 <= k <= l <= (|s| - 1) as real && Sorted(s)
    ensures AtRank(s, k) <= AtRank(s, l)
  {
    var f, g := k.Floor, l.Floor;
    InSegment(s, k);
    InSegment(s, l);
    if f == g {
      if f + 1 < |s| {
        SteeperAlong(s[f], s[f + 1], k - f as real, l - f as real);
      }
    } else {
      assert f + 1 <= g;
    }
  }

  /** The first and last sorted value bound every sample. */
  lemma Extremes(values: seq<real>)
    requires values != []
    ensures var s := Sort(values); forall i :: 0 <= i < |values| ==> s[0] <= values[i] <= s[|s| - 1]
    ensures var s := Sort(values); s[0] in values && s[|s| - 1] in values
  {
    var s := Sort(values);
    SortSorts(values);
    forall i | 0 <= i < |values| ensures s[0] <= values[i] <= s[|s| - 1] {
      assert values[i] in multiset(s);
      var j :| 0 <= j < |s| && s[j] == values[i];
    }
    assert s[0] in multiset(values) && s[|s| - 1] in multiset(values);
  }

  lemma RankEnds(n: nat)
    requires n > 0
    ensures Rank(n, 0.0) == 0.0 && Rank(n, 100.0) == (n - 1) as real
  {
    assert 0.0 / 100.0 == 0.0 && 100.0 / 100.0 == 1.0;
  }

  lemma ShareGrows(a: real, pct: real, higher: real)
    requires 0.0 <= a && pct <= higher
    ensures Share(a, pct) <= Share(a, higher)
  {
    var t, u := pct / 100.0, higher / 100.0;
    Product(a, u - t);
    assert a * (u - t) == a * u - a * t;
  }

  lemma RankGrows(n: nat, pct: real, higher: real)
    requires n > 0 && 0.0 <= pct <= higher <= 100.0
    ensures Rank(n, pct) <= Rank(n, higher)
  {
    ShareGrows((n - 1) as real, pct, higher);
  }

  /** The percentile is the least sample at 0 and the greatest at 100, and never
      falls when `pct` grows, across segment borders too; so it always lies
      between the least and the greatest sample. */
  lemma PercentileShape(values: seq<real>, pct: real, higher: real)
    requires 0.0 <= pct <= higher <= 100.0 && values != []
    ensures PercentileOf(values, pct).value <= PercentileOf(values, higher).value
    ensures var least, greatest := PercentileOf(values, 0.0).value, PercentileOf(values, 100.0).value;
      least in values && greatest in values &&
      (forall i :: 0 <= i < |values| ==> least <= values[i] <= greatest) &&
      least <= PercentileOf(values, pct).value <= greatest
  {
    var s, n := Sort(values), |values|;
    SortSorts(values);
    RankGrows(n, pct, higher);
    RankMonotone(s, Rank(n, pct), Rank(n, higher));
    RankGrows(n, 0.0, pct);
    RankMonotone(s, Rank(n, 0.0), Rank(n, pct));
    RankGrows(n, pct, 100.0);
    RankMonotone(s, Rank(n, pct), Rank(n, 100.0));
    RankEnds(n);
    AtStart(s);
    Extremes(values);
  }

  lemma AtStart(s: seq<real>)
    requires |s| > 0
    ensures AtRank(s, 0.0) == s[0]
  {
    if |s| > 1 { assert s[0] * (1.0 - 0.0) + s[1] * (0.0 - 0.0) == s[0]; }
  }

  // ----- raising samples -----

  predicate Below(s: seq<real>, t: seq<real>) {
    |s| == |t| && forall i :: 0 <= i < |s| ==> s[i] <= t[i]
  }

  lemma {:induction false} InsertBelow(x: real, s: seq<real>, y: real, t: seq<real>)
    requires Sorted(s) && Sorted(t) && x <= y && Below(s, t)
    ensures Below(Insert(x, s), Insert(y, t))
  {
    if s != [] {
      assert s[0] <= t[0];
      if x <= s[0] && y > t[0] {
        InsertRaises(x, s, y, t);
      } else if x > s[0] && y <= t[0] {
        InsertLowers(x, s, y, t);
      } else if x > s[0] {
        InsertBelow(x, s[1..], y, t[1..]);
      }
    }
  }

  /** `x` goes in front, `y` further back. */
  lemma {:induction false} InsertRaises(x: real, s: seq<real>, y: real, t: seq<real>)
    requires Sorted(s) && Sorted(t) && Below(s, t) && s != [] && x <= s[0] && t[0] < y
    ensures Below([x] + s, Insert(y, t))
  {
    var tail := Insert(y, t[1..]);
    InsertAfter(y, t[1..], s);
    assert Insert(y, t) == [t[0]] + tail;
  }

  /** An insertion into a tail keeps it above everything one place earlier. */
  lemma {:induction false} InsertAfter(y: real, t: seq<real>, s: seq<real>)
    requires Sorted(t) && Sorted(s) && |s| == |t| + 1 && s[0] <= y
    requires forall i :: 0 <= i < |t| ==> s[i + 1] <= t[i] && s[i] <= t[i]
    ensures Below(s, Insert(y, t))
  {
    if t != [] && y > t[0] {
      InsertAfter(y, t[1..], s[1..]);
    }
  }

  /** `x` goes further back, `y` in front. */
  lemma {:induction false} InsertLowers(x: real, s: seq<real>, y: real, t: seq<real>)
    requires Sorted(s) && Sorted(t) && Below(s, t) && s != [] && s[0] < x <= y <= t[0]
    ensures Below(Insert(x, s), [y] + t)
  {
    InsertBefore(x, s[1..], t);
    assert Insert(x, s) == [s[0]] + Insert(x, s[1..]);
  }

  lemma {:induction false} InsertBefore(x: real, s: seq<real>, t: seq<real>)
    requires Sorted(s) && Sorted(t) && |t| == |s| + 1 && x <= t[0]
    requires forall i :: 0 <= i < |s| ==> s[i] <= t[i + 1]
    ensures Below(Insert(x, s), t)
  {
    if s != [] && x > s[0] {
      InsertBefore(x, s[1..], t[1..]);
    }
  }

  lemma {:induction false} SortBelow(xs: seq<real>, ys: seq<real>)
    requires Below(xs, ys)
    ensures Below(Sort(xs), Sort(ys))
  {
    if xs != [] {
      SortBelow(xs[1..], ys[1..]);
      SortSorts(xs[1..]);
      SortSorts(ys[1..]);
      InsertBelow(xs[0], Sort(xs[1..]), ys[0], Sort(ys[1..]));
    }
  }

  lemma Weighted(a: real, b: real, c: real, d: real, u: real, v: real)
    requires a <= c && b <= d && 0.0 <= u && 0.0 <= v
    ensures a * u + b * v <= c * u + d * v
  {
    Product(c - a, u);
    Product(d - b, v);
    assert (c - a) * u == c * u - a * u && (d - b) * v == d * v - b * v;
  }

  /** Raising samples never lowers a percentile. */
  lemma RaisingSamples(xs: seq<real>, ys: seq<real>, pct: real)
    requires 0.0 <= pct <= 100.0 && xs != [] && Below(xs, ys)
    ensures PercentileOf(xs, pct).value <= PercentileOf(ys, pct).value
  {
    SortBelow(xs, ys);
    var s, t, k := Sort(xs), Sort(ys), Rank(|xs|, pct);
    var f := k.Floor;
    if f + 1 < |s| {
      Weighted(s[f], s[f + 1], t[f], t[f + 1], (f + 1) as real - k, k - f as real);
    }
  }
}
