/** The two object keys a signed document is stored under. */
module SignedKeys {
  import opened Sequences

  /** `s.rstrip("/")` */
  function TrimSlashes(s: string): (r: string)
    ensures r <= s && (r == [] || r[|r| - 1] != '/')
  {
    if s != [] && s[|s| - 1] == '/' then TrimSlashes(s[..|s| - 1]) else s
  }

  /** `s.rsplit("/", 1)[-1]` */
  function LastSegment(s: string): (r: string)
    ensures '/' !in r
  {
    if s == [] || s[|s| - 1] == '/' then [] else LastSegment(s[..|s| - 1]) + [s[|s| - 1]]
  }

  /** The position of the last dot, or -1. */
  function LastDot(s: string): (i: int)
    ensures -1 <= i < |s|
    ensures i >= 0 ==> s[i] == '.'
    ensures forall j :: i < j < |s| ==> s[j] != '.'
  {
    if s == [] then -1 else if s[|s| - 1] == '.' then |s| - 1 else LastDot(s[..|s| - 1])
  }

  /** `s.rsplit(".", 1)[0]` */
  function DropExtension(s: string): string {
    if LastDot(s) < 0 then s else s[..LastDot(s)]
  }

  /** What the keys depend on. */
  datatype Place = Place(bucket: string, prefix: string, base: string)

  predicate IsPlace(p: Place) {
    '/' !in p.base && (p.prefix == [] || p.prefix[|p.prefix| - 1] != '/')
  }

  function PlaceOf(bucket: string, prefix: string, inputKey: string): (p: Place)
    ensures IsPlace(p)
  {
    Place(bucket, TrimSlashes(prefix), DropExtension(LastSegment(inputKey)))
  }

  datatype Key = Key(bucket: string, name: string)

  function SignedKey(p: Place): Key {
    Key(p.bucket, p.prefix + "/" + (p.base + ".signed.pdf"))
  }

  function SignatureKey(p: Place): Key {
    Key(p.bucket, p.prefix + "/" + (p.base + ".sig.p7s"))
  }

  lemma SuffixFree(base: string, suffix: string)
    requires '/' !in base && '/' !in suffix
    ensures '/' !in base + suffix
  {
  }

  /** Two places share a key exactly when they are the same place, and no signed
      document is ever stored under the key of a signature. */
  lemma KeysApart(p: Place, q: Place)
    requires IsPlace(p) && IsPlace(q)
    ensures SignedKey(p) == SignedKey(q) <==> p == q
    ensures SignatureKey(p) == SignatureKey(q) <==> p == q
    ensures SignedKey(p) != SignatureKey(q)
  {
    SuffixFree(p.base, ".signed.pdf");
    SuffixFree(q.base, ".signed.pdf");
    SuffixFree(p.base, ".sig.p7s");
    SuffixFree(q.base, ".sig.p7s");
    if SignedKey(p) == SignedKey(q) {
      SplitsAtLast(p.prefix, p.base + ".signed.pdf", '/', q.prefix, q.base + ".signed.pdf");
      SuffixSplits(p.base, q.base, ".signed.pdf");
    }
    if SignatureKey(p) == SignatureKey(q) {
      SplitsAtLast(p.prefix, p.base + ".sig.p7s", '/', q.prefix, q.base + ".sig.p7s");
      SuffixSplits(p.base, q.base, ".sig.p7s");
    }
    if SignedKey(p) == SignatureKey(q) {
      SplitsAtLast(p.prefix, p.base + ".signed.pdf", '/', q.prefix, q.base + ".sig.p7s");
      EndsApart(p.base, q.base);
    }
  }

  lemma SuffixSplits(a: string, b: string, suffix: string)
    requires a + suffix == b + suffix
    ensures a == b
  {
    assert |a| == |b|;
    assert (a + suffix)[..|a|] == a && (b + suffix)[..|b|] == b;
  }

  lemma EndsApart(a: string, b: string)
    ensures a + ".signed.pdf" != b + ".sig.p7s"
  {
    var s, t := a + ".signed.pdf", b + ".sig.p7s";
    assert s[|s| - 1] == 'f' && t[|t| - 1] == 's';
  }

  /** What is cut off the prefix is slashes only. */
  lemma {:induction false} TrimsSlashes(prefix: string, slashes: string)
    requires (prefix == [] || prefix[|prefix| - 1] != '/') && forall i :: 0 <= i < |slashes| ==> slashes[i] == '/'
    ensures TrimSlashes(prefix + slashes) == prefix
    decreases |slashes|
  {
    if slashes == [] {
      assert prefix + slashes == prefix;
    } else {
      var n := |slashes| - 1;
      assert (prefix + slashes)[..|prefix + slashes| - 1] == prefix + slashes[..n];
      TrimsSlashes(prefix, slashes[..n]);
    }
  }

  lemma {:induction false} LastSegmentAlone(name: string)
    requires '/' !in name
    ensures LastSegment(name) == name
  {
    if name != [] {
      LastSegmentAlone(name[..|name| - 1]);
      assert name == name[..|name| - 1] + [name[|name| - 1]];
    }
  }

  lemma {:induction false} LastSegmentAfter(dir: string, name: string)
    requires '/' !in name
    ensures LastSegment(dir + "/" + name) == name
  {
    var s := dir + "/" + name;
    if name != [] {
      var n := |name| - 1;
      LastSegmentAfter(dir, name[..n]);
      assert s[..|s| - 1] == dir + "/" + name[..n];
      assert s[|s| - 1] == name[n];
      assert name == name[..n] + [name[n]];
    }
  }

  lemma {:induction false} LastDotAt(base: string, ext: string)
    requires '.' !in ext
    ensures LastDot(base + "." + ext) == |base|
  {
    var s := base + "." + ext;
    assert s[|base|] == '.';
    forall j | |base| < j < |s| ensures s[j] != '.' {
      assert s[j] == ext[j - |base| - 1];
    }
  }

  /** The keys of an input, with or without a folder and an extension: the prefix without
      its trailing slashes, the base name, and ".signed.pdf" for the document or ".sig.p7s"
      for the signature. */
  lemma BuiltKeys(bucket: string, prefix: string, slashes: string, dir: string, base: string, ext: string)
    requires (prefix == [] || prefix[|prefix| - 1] != '/') && forall i :: 0 <= i < |slashes| ==> slashes[i] == '/'
    requires '/' !in base && '/' !in ext && '.' !in ext
    ensures BuiltFrom(PlaceOf(bucket, prefix + slashes, dir + "/" + (base + "." + ext)), bucket, prefix, base)
    ensures BuiltFrom(PlaceOf(bucket, prefix + slashes, base + "." + ext), bucket, prefix, base)
    ensures '.' !in base ==> BuiltFrom(PlaceOf(bucket, prefix + slashes, dir + "/" + base), bucket, prefix, base)
    ensures '.' !in base ==> BuiltFrom(PlaceOf(bucket, prefix + slashes, base), bucket, prefix, base)
  {
    LastSegmentAfter(dir, base + "." + ext);
    LastSegmentAlone(base + "." + ext);
    LastSegmentAfter(dir, base);
    LastSegmentAlone(base);
    DropsExtension(base, ext);
    Builds(bucket, prefix, slashes, dir + "/" + (base + "." + ext), base);
    Builds(bucket, prefix, slashes, base + "." + ext, base);
    if '.' !in base {
      Builds(bucket, prefix, slashes, dir + "/" + base, base);
      Builds(bucket, prefix, slashes, base, base);
    }
  }

  lemma DropsExtension(base: string, ext: string)
    requires '.' !in ext
    ensures DropExtension(base + "." + ext) == base
    ensures '.' !in base ==> DropExtension(base) == base
  {
    LastDotAt(base, ext);
    assert (base + "." + ext)[..|base|] == base;
  }

  lemma Builds(bucket: string, prefix: string, slashes: string, inputKey: string, base: string)
    requires (prefix == [] || prefix[|prefix| - 1] != '/') && forall i :: 0 <= i < |slashes| ==> slashes[i] == '/'
    requires DropExtension(LastSegment(inputKey)) == base
    ensures BuiltFrom(PlaceOf(bucket, prefix + slashes, inputKey), bucket, prefix, base)
  {
    TrimsSlashes(prefix, slashes);
    assert prefix + "/" + base + ".signed.pdf" == prefix + "/" + (base + ".signed.pdf");
    assert prefix + "/" + base + ".sig.p7s" == prefix + "/" + (base + ".sig.p7s");
  }

  predicate BuiltFrom(p: Place, bucket: string, prefix: string, base: string) {
    SignedKey(p).bucket == SignatureKey(p).bucket == bucket &&
    SignedKey(p).name == prefix + "/" + base + ".signed.pdf" &&
    SignatureKey(p).name == prefix + "/" + base + ".sig.p7s"
  }

  /** Folder and extension of the input do not reach the keys: every other input
      with the same base name shares the place, and hence the stored pair. */
  lemma PlaceForgets(bucket: string, prefix: string, dir: string, other: string, base: string, ext: string,
      otherExt: string)
    requires '/' !in base && '/' !in ext && '.' !in ext && '/' !in otherExt && '.' !in otherExt
    ensures PlaceOf(bucket, prefix, dir + "/" + (base + "." + ext)) ==
      PlaceOf(bucket, prefix, other + "/" + (base + "." + otherExt)) ==
      Place(bucket, TrimSlashes(prefix), base)
  {
    LastSegmentAfter(dir, base + "." + ext);
    LastSegmentAfter(other, base + "." + otherExt);
    LastDotAt(base, ext);
    LastDotAt(base, otherExt);
    assert (base + "." + ext)[..|base|] == base && (base + "." + otherExt)[..|base|] == base;
  }
}
