/** Joining an API path to a base URL by merging the longest overlap of the
    base's last segments with the path's first ones. */
module JoinUrl {
  import opened Sequences

  /** A path segment: not empty, no slash. */
  predicate IsSegment(s: string) {
    s != "" && '/' !in s
  }

  predicate Segments(ss: seq<string>) {
    forall i :: 0 <= i < |ss| ==> IsSegment(ss[i])
  }

  /** `segments.join("/")` */
  function JoinSlash(ss: seq<string>): string {
    if ss == [] then "" else if |ss| == 1 then ss[0] else ss[0] + "/" + JoinSlash(ss[1..])
  }

  function Tail(ss: seq<string>, n: nat): seq<string>
    requires n <= |ss|
  {
    ss[|ss| - n..]
  }

  /** The base's last `n` segments read as the path's first `n`. */
  predicate Overlaps(base: seq<string>, path: seq<string>, n: nat) {
    n <= |base| && n <= |path| && Tail(base, n) == path[..n]
  }

  predicate IsPrefix(a: seq<string>, z: seq<string>) { a <= z }

  predicate IsSuffix(a: seq<string>, z: seq<string>) {
    |a| <= |z| && Tail(z, |a|) == a
  }

  /** Comparing joined texts of equally many segments compares the segments. */
  lemma {:induction false} JoinSlashInjective(a: seq<string>, b: seq<string>)
    requires Segments(a) && Segments(b) && |a| == |b|
    ensures JoinSlash(a) == JoinSlash(b) <==> a == b
  {
    if |a| == 1 {
      assert a == [a[0]] && b == [b[0]];
    } else if |a| > 1 && JoinSlash(a) == JoinSlash(b) {
      SplitsAtFirst(a[0], JoinSlash(a[1..]), '/', b[0], JoinSlash(b[1..]));
      JoinSlashInjective(a[1..], b[1..]);
      assert a == [a[0]] + a[1..] && b == [b[0]] + b[1..];
    }
  }

  /** `joinUrl` on the segments of the base's path and of the path. The result is the
      one shortest sequence that starts with the base and ends with the path. */
  method JoinSegments(base: seq<string>, path: seq<string>) returns (joined: seq<string>)
    requires Segments(base) && Segments(path)
    ensures Segments(joined) && IsPrefix(base, joined) && IsSuffix(path, joined)
    ensures forall z :: IsPrefix(base, z) && IsSuffix(path, z) ==> |joined| <= |z|
    ensures forall z :: IsPrefix(base, z) && IsSuffix(path, z) && |z| == |joined| ==> z == joined
  {
    var rest := path;
    var overlap := if |base| < |path| then |base| else |path|;
    ghost var merged := 0;
    while overlap > 0
      invariant 0 <= overlap <= |base| && overlap <= |path| && rest == path && merged == 0
      invariant forall n :: overlap < n ==> !Overlaps(base, path, n)
    {
      JoinSlashInjective(Tail(base, overlap), path[..overlap]);
      if JoinSlash(Tail(base, overlap)) == JoinSlash(path[..overlap]) {
        rest := path[overlap..];
        merged := overlap;
        break;
      }
      overlap := overlap - 1;
    }
    joined := base + rest;
    MergedShortest(base, path, merged);
  }

  /** Merging the longest overlap gives the shortest sequence. */
  lemma MergedShortest(base: seq<string>, path: seq<string>, n: nat)
    requires Overlaps(base, path, n) && forall m :: n < m ==> !Overlaps(base, path, m)
    ensures var joined := base + path[n..];
      IsPrefix(base, joined) && IsSuffix(path, joined) &&
      forall z :: IsPrefix(base, z) && IsSuffix(path, z) ==> |joined| <= |z| && (|z| == |joined| ==> z == joined)
  {
    var joined := base + path[n..];
    assert Tail(joined, |path|) == path by {
      assert Tail(joined, |path|) == Tail(base, n) + path[n..];
      assert path == path[..n] + path[n..];
    }
    forall z | IsPrefix(base, z) && IsSuffix(path, z)
      ensures |joined| <= |z| && (|z| == |joined| ==> z == joined)
    {
      if |z| <= |base| + |path| {
        MergesBy(base, path, z);
      }
    }
  }

  /** A sequence that starts with the base and ends with the path merges an overlap of them. */
  lemma MergesBy(base: seq<string>, path: seq<string>, z: seq<string>)
    requires IsPrefix(base, z) && IsSuffix(path, z) && |z| <= |base| + |path|
    ensures var o := |base| + |path| - |z|; Overlaps(base, path, o) && z == base + path[o..]
  {
    var o := |base| + |path| - |z|;
    var at := |z| - |path|;
    assert z[..|base|] == base && z[at..] == path;
    forall i | 0 <= i < o ensures Tail(base, o)[i] == path[..o][i] {
      assert z[..|base|][at + i] == z[at..][i];
    }
    assert z == z[..|base|] + z[|base|..];
    assert z[|base|..] == path[o..];
  }

  /** Joining the same path again changes nothing. */
  method JoinTwice(base: seq<string>, path: seq<string>) returns (once: seq<string>, twice: seq<string>)
    requires Segments(base) && Segments(path)
    ensures twice == once && IsPrefix(base, once) && IsSuffix(path, once)
    ensures forall z :: IsPrefix(base, z) && IsSuffix(path, z) ==> |once| <= |z|
  {
    once := JoinSegments(base, path);
    twice := JoinSegments(once, path);
    assert IsPrefix(once, once);
  }
}
