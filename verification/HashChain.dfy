/** The audit hash chain: each event's canonical payload is hashed together
    with the previous hash, starting from a fixed genesis word. */
module HashChain {
  import opened Wrappers
  import opened Sequences
  import opened Utf16
  import opened Json
  import opened AuditPayload

  const NEWLINE: Unit := 0x0A

  /** "GENESIS" */
  const GENESIS: Text := [0x47, 0x45, 0x4E, 0x45, 0x53, 0x49, 0x53]

  /** A hash function as the chain sees it: 64 hexadecimal digits for every text. */
  type Hash = Text -> Text

  ghost predicate IsDigest(H: Hash) {
    forall t: Text :: IsHex64(H(t))
  }

  predicate IsHex64(t: Text) {
    |t| == 64 && forall i :: 0 <= i < |t| ==> Digit(t[i]) || 0x61 <= t[i] <= 0x66
  }

  /** Two different texts with one hash. Both are well formed, so their UTF-8
      bytes differ as well: a collision of the hash and not of the encoding. */
  ghost predicate Collision(H: Hash, pair: (Text, Text)) {
    pair.0 != pair.1 && H(pair.0) == H(pair.1) && WellFormed(pair.0) && WellFormed(pair.1)
  }

  datatype ChainLink = ChainLink(eventId: Text, prevHash: Text, hash: Text)

  function Material(prev: Text, text: Text): Text {
    prev + [NEWLINE] + text
  }

  /** The hash after the given texts, `prev` being the one before them. */
  function Head(H: Hash, prev: Text, texts: seq<Text>): Text {
    if texts == [] then prev
    else H(Material(Head(H, prev, texts[..|texts| - 1]), texts[|texts| - 1]))
  }

  // ----- events to texts -----

  /** The canonical text of an event's payload; none when serializing it throws. */
  type Serializer = CaseEvent -> Option<Text>

  predicate AllSerializable(ser: Serializer, events: seq<CaseEvent>) {
    forall i :: 0 <= i < |events| ==> ser(events[i]).Some?
  }

  function Texts(ser: Serializer, events: seq<CaseEvent>): (ts: seq<Text>)
    requires AllSerializable(ser, events)
    ensures |ts| == |events|
    ensures forall i :: 0 <= i < |ts| ==> ts[i] == ser(events[i]).value
  {
    seq(|events|, i requires 0 <= i < |events| => ser(events[i]).value)
  }

  /** Link `i` of a history: from the head of the first `i` texts to the head of one more. */
  function LinkAt(H: Hash, texts: seq<Text>, events: seq<CaseEvent>, i: nat): ChainLink
    requires i < |texts| == |events|
  {
    ChainLink(events[i].id, Head(H, GENESIS, texts[..i]), Head(H, GENESIS, texts[..i + 1]))
  }

  function LinksOf(H: Hash, texts: seq<Text>, events: seq<CaseEvent>): (links: seq<ChainLink>)
    requires |texts| == |events|
    ensures |links| == |texts|
    ensures forall i :: 0 <= i < |links| ==> links[i] == LinkAt(H, texts, events, i)
  {
    seq(|texts|, i requires 0 <= i < |texts| => LinkAt(H, texts, events, i))
  }

  function ChainOf(H: Hash, ser: Serializer, events: seq<CaseEvent>): seq<ChainLink>
    requires AllSerializable(ser, events)
  {
    LinksOf(H, Texts(ser, events), events)
  }

  // ----- computeChain and verifyChain -----

  datatype Verdict = Unknown | Verified | Broken(index: nat, expectedHash: Text, actualHash: Text)

  /** What goes wrong when a payload cannot be serialized. */
  datatype ChainError = NotSerializable

  method ComputeChain(H: Hash, ser: Serializer, caseId: Text, events: seq<CaseEvent>)
      returns (r: Result<seq<ChainLink>, ChainError>)
    ensures r ==
      if caseId == [] || events == [] then Success([])
      else if AllSerializable(ser, events) then Success(ChainOf(H, ser, events))
      else Failure(NotSerializable)
  {
    if caseId == [] || events == [] {
      return Success([]);
    }
    var prevHash := GENESIS;
    var links: seq<ChainLink> := [];
    for i := 0 to |events|
      invariant AllSerializable(ser, events[..i])
      invariant prevHash == Head(H, GENESIS, Texts(ser, events[..i]))
      invariant links == ChainOf(H, ser, events[..i])
    {
      var text := ser(events[i]);
      if text.None? {
        return Failure(NotSerializable);
      }
      var hash := H(Material(prevHash, text.value));
      ChainGrows(H, ser, events, i);
      links := links + [ChainLink(events[i].id, prevHash, hash)];
      prevHash := hash;
    }
    assert events[..|events|] == events;
    return Success(links);
  }

  predicate CanUseBackendLinks(events: seq<CaseEvent>) {
    |events| > 0 &&
    forall i :: 0 <= i < |events| ==> events[i].hash.Set? && events[i].hash.value != [] && events[i].prevHash.Set?
  }

  function ExtractBackendLinks(events: seq<CaseEvent>): (links: seq<ChainLink>)
    ensures |links| == |events|
  {
    seq(|events|, i requires 0 <= i < |events| =>
      ChainLink(events[i].id,
        if events[i].prevHash.Set? then events[i].prevHash.value else [],
        if events[i].hash.Set? then events[i].hash.value else []))
  }

  /** The links the recomputed chain is compared with, when there are any. */
  function LinksToCheck(events: seq<CaseEvent>, links: Option<seq<ChainLink>>): Option<seq<ChainLink>> {
    if CanUseBackendLinks(events) then Some(ExtractBackendLinks(events))
    else if links.Some? && |links.value| == |events| then links
    else None
  }

  predicate Agree(a: ChainLink, b: ChainLink) {
    a.hash == b.hash && a.prevHash == b.prevHash
  }

  /** The verdict names the first link at which two chains of one length disagree. */
  ghost predicate IsComparison(expected: seq<ChainLink>, actual: seq<ChainLink>, v: Verdict)
    requires |expected| == |actual|
  {
    match v
    case Unknown => false
    case Verified => forall i :: 0 <= i < |expected| ==> Agree(expected[i], actual[i])
    case Broken(k, e, a) =>
      k < |expected| && !Agree(expected[k], actual[k]) && e == expected[k].hash && a == actual[k].hash &&
      forall i :: 0 <= i < k ==> Agree(expected[i], actual[i])
  }

  /** What `verifyChain` answers. With nothing to compare with it answers
      `Verified` whatever the events are. */
  ghost predicate IsVerification(H: Hash, ser: Serializer, caseId: Text, events: seq<CaseEvent>,
      links: Option<seq<ChainLink>>, r: Result<Verdict, ChainError>)
  {
    if caseId == [] || events == [] then r == Success(Unknown)
    else if !AllSerializable(ser, events) then r.Failure?
    else if LinksToCheck(events, links).None? then r == Success(Verified)
    else
      r.Success? &&
      IsComparison(ChainOf(H, ser, events), LinksToCheck(events, links).value, r.value)
  }

  method VerifyChain(H: Hash, ser: Serializer, caseId: Text, events: seq<CaseEvent>, links: Option<seq<ChainLink>>)
      returns (r: Result<Verdict, ChainError>)
    ensures IsVerification(H, ser, caseId, events, links, r)
  {
    if caseId == [] || events == [] {
      return Success(Unknown);
    }
    var computed := ComputeChain(H, ser, caseId, events);
    if computed.Failure? {
      return Failure(computed.error);
    }
    var expected := computed.value;
    var toCheck := LinksToCheck(events, links);
    if toCheck.None? {
      return Success(Verified);
    }
    var actual := toCheck.value;
    for i := 0 to |expected|
      invariant forall j :: 0 <= j < i ==> Agree(expected[j], actual[j])
    {
      if !Agree(expected[i], actual[i]) {
        return Success(Broken(i, expected[i].hash, actual[i].hash));
      }
    }
    return Success(Verified);
  }

  // ----- what a verdict says -----

  /** The event carries a link of its own: a nonempty hash and a previous hash. */
  predicate CarriesLink(e: CaseEvent) {
    e.hash.Set? && |e.hash.value| > 0 && e.prevHash.Set?
  }

  /** The previous hash and hash that event `i` is checked against, if any: its own if every
      event carries a link, otherwise the supplied link if there are as many as events. */
  function CheckedAgainst(events: seq<CaseEvent>, links: Option<seq<ChainLink>>, i: nat): Option<(Text, Text)>
    requires i < |events|
  {
    if forall j :: 0 <= j < |events| ==> CarriesLink(events[j]) then
      Some((events[i].prevHash.value, events[i].hash.value))
    else if links.Some? && |links.value| == |events| then Some((links.value[i].prevHash, links.value[i].hash))
    else None
  }

  lemma CheckedLinks(events: seq<CaseEvent>, links: Option<seq<ChainLink>>, i: nat)
    requires i < |events|
    ensures CheckedAgainst(events, links, i).Some? <==> LinksToCheck(events, links).Some?
    ensures LinksToCheck(events, links).Some? ==>
      var l := LinksToCheck(events, links).value;
      |l| == |events| && CheckedAgainst(events, links, i) == Some((l[i].prevHash, l[i].hash))
  {
    assert CanUseBackendLinks(events) <==> forall j :: 0 <= j < |events| ==> CarriesLink(events[j]);
  }

  /** Unknown without a case or events, an error when some event has no text, broken at the
      first event whose recomputed link differs from the one it is checked against, with
      both hashes, and verified otherwise. */
  lemma VerdictSays(H: Hash, ser: Serializer, c: Text, events: seq<CaseEvent>, links: Option<seq<ChainLink>>,
      r: Result<Verdict, ChainError>)
    requires IsVerification(H, ser, c, events, links, r)
    ensures r == Success(Unknown) <==> c == [] || events == []
    ensures r.Failure? <==> c != [] && events != [] && !AllSerializable(ser, events)
    ensures r.Success? && r.value.Broken? ==>
      AllSerializable(ser, events) && r.value.index < |events| &&
      CheckedAgainst(events, links, r.value.index).Some? &&
      var own, (prev, hash) := ChainOf(H, ser, events)[r.value.index],
        CheckedAgainst(events, links, r.value.index).value;
      (own.prevHash != prev || own.hash != hash) && r.value.expectedHash == own.hash && r.value.actualHash == hash
    ensures r.Success? && !r.value.Unknown? ==>
      AllSerializable(ser, events) &&
      forall i :: 0 <= i < |events| && (r.value.Broken? ==> i < r.value.index) ==>
        var against := CheckedAgainst(events, links, i);
        against.None? || against.value == (ChainOf(H, ser, events)[i].prevHash, ChainOf(H, ser, events)[i].hash)
  {
    forall i | 0 <= i < |events|
      ensures CheckedAgainst(events, links, i).Some? <==> LinksToCheck(events, links).Some?
      ensures LinksToCheck(events, links).Some? ==>
        var l := LinksToCheck(events, links).value;
        |l| == |events| && CheckedAgainst(events, links, i) == Some((l[i].prevHash, l[i].hash))
    {
      CheckedLinks(events, links, i);
    }
  }

  // ----- the chain and its head -----

  lemma HeadGrows(H: Hash, texts: seq<Text>, i: nat)
    requires i < |texts|
    ensures Head(H, GENESIS, texts[..i + 1]) == H(Material(Head(H, GENESIS, texts[..i]), texts[i]))
  {
    var ts := texts[..i + 1];
    assert ts[..|ts| - 1] == texts[..i];
  }

  lemma ChainGrows(H: Hash, ser: Serializer, events: seq<CaseEvent>, i: nat)
    requires i < |events| && AllSerializable(ser, events[..i + 1])
    ensures AllSerializable(ser, events[..i])
    ensures var texts, prev := Texts(ser, events[..i]), Head(H, GENESIS, Texts(ser, events[..i]));
      var hash := H(Material(prev, ser(events[i]).value));
      Head(H, GENESIS, Texts(ser, events[..i + 1])) == hash &&
      ChainOf(H, ser, events[..i + 1]) == ChainOf(H, ser, events[..i]) + [ChainLink(events[i].id, prev, hash)]
  {
    var texts := Texts(ser, events[..i + 1]);
    assert AllSerializable(ser, events[..i]) by {
      forall j | 0 <= j < i ensures ser(events[..i][j]).Some? { assert events[..i + 1][j] == events[j]; }
    }
    assert Texts(ser, events[..i]) == texts[..i];
    assert texts[..i + 1] == texts;
    HeadGrows(H, texts, i);
    forall j | 0 <= j < i
      ensures LinkAt(H, texts, events[..i + 1], j) == LinkAt(H, texts[..i], events[..i], j)
    {
      assert texts[..i][..j] == texts[..j] && texts[..i][..j + 1] == texts[..j + 1];
    }
  }

  /** One link per event: the first continues "GENESIS" and each other one the link before it,
      and each hash covers the previous hash, a newline and its own event's text. */
  lemma ChainIsLinked(H: Hash, ser: Serializer, events: seq<CaseEvent>, i: nat)
    requires AllSerializable(ser, events) && i < |events|
    ensures var links := ChainOf(H, ser, events);
      |links| == |events| && links[i].eventId == events[i].id &&
      links[i].prevHash == (if i == 0 then [0x47, 0x45, 0x4E, 0x45, 0x53, 0x49, 0x53] else links[i - 1].hash) &&
      links[i].hash == H(links[i].prevHash + [0x0A] + ser(events[i]).value)
  {
    HeadGrows(H, Texts(ser, events), i);
  }

  lemma HeadShape(H: Hash, texts: seq<Text>)
    requires IsDigest(H)
    ensures NEWLINE !in Head(H, GENESIS, texts) && WellFormed(Head(H, GENESIS, texts))
    ensures Head(H, GENESIS, texts) == GENESIS <==> texts == []
  {
    var h := Head(H, GENESIS, texts);
    if texts != [] {
      assert IsHex64(h);
    }
    PlainIsWellFormed(h);
  }

  lemma MaterialWellFormed(p: Text, t: Text)
    requires WellFormed(p) && WellFormed(t)
    ensures WellFormed(Material(p, t))
  {
    WellFormedConcat(p, [NEWLINE]);
    WellFormedConcat(p + [NEWLINE], t);
  }

  /** Where two histories with one head last hash different materials. */
  function LastClash(H: Hash, xs: seq<Text>, ys: seq<Text>): (Text, Text) {
    if xs == [] || ys == [] then ([], [])
    else
      var m := Material(Head(H, GENESIS, xs[..|xs| - 1]), xs[|xs| - 1]);
      var n := Material(Head(H, GENESIS, ys[..|ys| - 1]), ys[|ys| - 1]);
      if m != n then (m, n) else LastClash(H, xs[..|xs| - 1], ys[..|ys| - 1])
  }

  ghost predicate AllWellFormed(texts: seq<Text>) {
    forall i :: 0 <= i < |texts| ==> WellFormed(texts[i])
  }

  /** The head pins the history, of whatever length, or the two histories exhibit a collision. */
  lemma {:induction false} HeadPinsTexts(H: Hash, xs: seq<Text>, ys: seq<Text>)
    requires IsDigest(H) && AllWellFormed(xs) && AllWellFormed(ys)
    requires Head(H, GENESIS, xs) == Head(H, GENESIS, ys)
    ensures xs == ys || Collision(H, LastClash(H, xs, ys))
  {
    HeadShape(H, xs);
    HeadShape(H, ys);
    if xs != [] {
      var xs', ys' := xs[..|xs| - 1], ys[..|ys| - 1];
      var x, y := xs[|xs| - 1], ys[|ys| - 1];
      var p, q := Head(H, GENESIS, xs'), Head(H, GENESIS, ys');
      HeadShape(H, xs');
      HeadShape(H, ys');
      if Material(p, x) == Material(q, y) {
        SplitsAtFirst(p, x, NEWLINE, q, y);
        HeadPinsTexts(H, xs', ys');
        assert xs == xs' + [x] && ys == ys' + [y];
      } else {
        MaterialWellFormed(p, x);
        MaterialWellFormed(q, y);
      }
    }
  }

  // ----- comparing two chains -----

  ghost predicate FirstDifference(xs: seq<Text>, ys: seq<Text>, k: nat) {
    k < |xs| && k < |ys| && xs[..k] == ys[..k] && xs[k] != ys[k]
  }

  /** The two materials hashed at index `k` when the texts before it agree. */
  function MaterialsAt(H: Hash, xs: seq<Text>, ys: seq<Text>, k: nat): (Text, Text)
    requires k < |xs| && k < |ys|
  {
    var p := Head(H, GENESIS, xs[..k]);
    (Material(p, xs[k]), Material(p, ys[k]))
  }

  lemma LinksAgreeBefore(H: Hash, xs: seq<Text>, es: seq<CaseEvent>, ys: seq<Text>, fs: seq<CaseEvent>, k: nat)
    requires |xs| == |es| == |ys| == |fs| && k <= |xs| && xs[..k] == ys[..k]
    ensures forall i :: 0 <= i < k ==> Agree(LinkAt(H, xs, es, i), LinkAt(H, ys, fs, i))
  {
    forall i | 0 <= i < k
      ensures Agree(LinkAt(H, xs, es, i), LinkAt(H, ys, fs, i))
    {
      assert xs[..i] == xs[..k][..i] && ys[..i] == ys[..k][..i];
      assert xs[..i + 1] == xs[..k][..i + 1] && ys[..i + 1] == ys[..k][..i + 1];
    }
  }

  lemma LinksPartAt(H: Hash, xs: seq<Text>, es: seq<CaseEvent>, ys: seq<Text>, fs: seq<CaseEvent>, k: nat)
    requires IsDigest(H) && |xs| == |es| == |ys| == |fs| && k < |xs|
    requires xs[..k] == ys[..k] && xs[k] != ys[k] && AllWellFormed(xs) && AllWellFormed(ys)
    ensures !Agree(LinkAt(H, xs, es, k), LinkAt(H, ys, fs, k)) || Collision(H, MaterialsAt(H, xs, ys, k))
  {
    var p := Head(H, GENESIS, xs[..k]);
    HeadShape(H, xs[..k]);
    HeadGrows(H, xs, k);
    HeadGrows(H, ys, k);
    MaterialWellFormed(p, xs[k]);
    MaterialWellFormed(p, ys[k]);
    if Material(p, xs[k]) == Material(p, ys[k]) {
      SplitsAtFirst(p, xs[k], NEWLINE, p, ys[k]);
    }
  }

  /** Comparing two histories' links finds the first differing text. */
  lemma ComparisonLocates(H: Hash, xs: seq<Text>, es: seq<CaseEvent>, ys: seq<Text>, fs: seq<CaseEvent>, v: Verdict)
    requires IsDigest(H) && |xs| == |es| == |ys| == |fs| && AllWellFormed(xs) && AllWellFormed(ys)
    requires IsComparison(LinksOf(H, xs, es), LinksOf(H, ys, fs), v)
    ensures xs == ys ==> v == Verified
    ensures forall k :: FirstDifference(xs, ys, k) ==>
      (v.Broken? && v.index == k) || Collision(H, MaterialsAt(H, xs, ys, k))
  {
    if xs == ys {
      LinksAgreeBefore(H, xs, es, ys, fs, |xs|);
    }
    forall k | FirstDifference(xs, ys, k)
      ensures (v.Broken? && v.index == k) || Collision(H, MaterialsAt(H, xs, ys, k))
    {
      LinksAgreeBefore(H, xs, es, ys, fs, k);
      LinksPartAt(H, xs, es, ys, fs, k);
    }
  }
}
