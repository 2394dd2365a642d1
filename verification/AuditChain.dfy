/** The hash chain over audit payloads: what its head fixes, and how exactly it
    locates a change. */
module AuditChain {
  import opened Wrappers
  import opened Utf16
  import opened Json
  import opened Values
  import opened AuditPayload
  import opened AuditEvents
  import opened HashChain

  /** `canonicalStringify(buildAuditPayload(caseId, event))` */
  function EventText(redact: Redactor, caseId: Text, e: CaseEvent): Option<Text> {
    var p := BuildAuditPayload(redact, caseId, e);
    PayloadPlain(p);
    if PrintablePayload(p) then Some(TreeText(PayloadTree(p))) else None
  }

  function AuditSerializer(redact: Redactor, caseId: Text): Serializer {
    (e: CaseEvent) => EventText(redact, caseId, e)
  }

  /** An event has a text exactly when its redacted changes can be written. The text reads
      back as one JSON object, which says what the event's audit object says. */
  lemma EventTextSays(redact: Redactor, c: Text, e: CaseEvent)
    ensures EventText(redact, c, e).Some? <==> PrintableEvent(redact, e)
    ensures EventText(redact, c, e).Some? ==>
      var r := ReadValue(EventText(redact, c, e).value);
      var t := PayloadTree(BuildAuditPayload(redact, c, e));
      r.Reading? && r.rest == [] && Denotes(t, r.value) &&
      OnlyKeys(t, NAMES) && HoldsPlace(t, c, e) && HoldsOrigin(t, e) && HoldsContent(t, redact, e)
  {
    var p := BuildAuditPayload(redact, c, e);
    PayloadPlain(p);
    PayloadPrintable(redact, c, e);
    if PrintablePayload(p) {
      TextSaysTree(PayloadTree(p));
    }
    EventObject(redact, c, e);
  }

  lemma EventTextWellFormed(redact: Redactor, caseId: Text, e: CaseEvent)
    requires EventText(redact, caseId, e).Some?
    ensures WellFormed(EventText(redact, caseId, e).value)
  {
    var p := BuildAuditPayload(redact, caseId, e);
    PayloadPlain(p);
    WriteWellFormed(NormalForm(PayloadTree(p)));
  }

  lemma TextsWellFormed(redact: Redactor, caseId: Text, events: seq<CaseEvent>)
    requires AllSerializable(AuditSerializer(redact, caseId), events)
    ensures AllWellFormed(Texts(AuditSerializer(redact, caseId), events))
  {
    forall i | 0 <= i < |events|
      ensures WellFormed(Texts(AuditSerializer(redact, caseId), events)[i])
    {
      EventTextWellFormed(redact, caseId, events[i]);
    }
  }

  /** The two events, read as parts of two cases, can be written and audit the same content. */
  ghost predicate SameAudited(redact: Redactor, c: Text, e: CaseEvent, d: Text, f: CaseEvent) {
    PrintableEvent(redact, e) && PrintableEvent(redact, f) && EventsAgree(redact, c, e, d, f)
  }

  /** Same number of events, and event by event the same audited content. */
  ghost predicate SameHistory(redact: Redactor, c: Text, es: seq<CaseEvent>, d: Text, fs: seq<CaseEvent>) {
    |es| == |fs| && forall i :: 0 <= i < |es| ==> SameAudited(redact, c, es[i], d, fs[i])
  }

  lemma EventTextSame(redact: Redactor, c: Text, e: CaseEvent, d: Text, f: CaseEvent)
    requires EventText(redact, c, e).Some? && EventText(redact, d, f).Some?
    ensures EventText(redact, c, e) == EventText(redact, d, f) <==> SameAudited(redact, c, e, d, f)
  {
    PayloadPlain(BuildAuditPayload(redact, c, e));
    PayloadPlain(BuildAuditPayload(redact, d, f));
    PayloadPrintable(redact, c, e);
    PayloadPrintable(redact, d, f);
    PayloadTextFixesPayload(BuildAuditPayload(redact, c, e), BuildAuditPayload(redact, d, f));
    AgreeIffSamePayload(redact, c, e, d, f);
  }

  lemma TextSameAt(redact: Redactor, c: Text, es: seq<CaseEvent>, d: Text, fs: seq<CaseEvent>, i: nat)
    requires AllSerializable(AuditSerializer(redact, c), es) && AllSerializable(AuditSerializer(redact, d), fs)
    requires i < |es| && i < |fs|
    ensures Texts(AuditSerializer(redact, c), es)[i] == Texts(AuditSerializer(redact, d), fs)[i] <==>
      SameAudited(redact, c, es[i], d, fs[i])
  {
    EventTextSame(redact, c, es[i], d, fs[i]);
  }

  lemma TextsSame(redact: Redactor, c: Text, es: seq<CaseEvent>, d: Text, fs: seq<CaseEvent>)
    requires AllSerializable(AuditSerializer(redact, c), es) && AllSerializable(AuditSerializer(redact, d), fs)
    ensures Texts(AuditSerializer(redact, c), es) == Texts(AuditSerializer(redact, d), fs) <==>
      SameHistory(redact, c, es, d, fs)
  {
    if |es| == |fs| {
      forall i | 0 <= i < |es|
        ensures Texts(AuditSerializer(redact, c), es)[i] == Texts(AuditSerializer(redact, d), fs)[i] <==>
          SameAudited(redact, c, es[i], d, fs[i])
      {
        TextSameAt(redact, c, es, d, fs, i);
      }
    }
  }

  /** Two chains that end in one hash audit the same history, case id, fields,
      actors and redacted changes included, or exhibit a collision. */
  lemma HeadPinsHistory(H: Hash, redact: Redactor, c: Text, es: seq<CaseEvent>, d: Text, fs: seq<CaseEvent>)
    requires IsDigest(H)
    requires AllSerializable(AuditSerializer(redact, c), es) && AllSerializable(AuditSerializer(redact, d), fs)
    ensures var xs, ys := Texts(AuditSerializer(redact, c), es), Texts(AuditSerializer(redact, d), fs);
      (SameHistory(redact, c, es, d, fs) ==> Head(H, GENESIS, xs) == Head(H, GENESIS, ys)) &&
      (Head(H, GENESIS, xs) == Head(H, GENESIS, ys) ==>
        SameHistory(redact, c, es, d, fs) || Collision(H, LastClash(H, xs, ys)))
  {
    var xs, ys := Texts(AuditSerializer(redact, c), es), Texts(AuditSerializer(redact, d), fs);
    TextsWellFormed(redact, c, es);
    TextsWellFormed(redact, d, fs);
    TextsSame(redact, c, es, d, fs);
    if Head(H, GENESIS, xs) == Head(H, GENESIS, ys) {
      HeadPinsTexts(H, xs, ys);
    }
  }

  /** The first index at which two histories of one case audit different content. */
  ghost predicate FirstTampered(redact: Redactor, c: Text, es: seq<CaseEvent>, fs: seq<CaseEvent>, k: nat) {
    k < |es| && k < |fs| && !SameAudited(redact, c, es[k], c, fs[k]) &&
    forall i :: 0 <= i < k ==> SameAudited(redact, c, es[i], c, fs[i])
  }

  lemma FirstTamperedText(redact: Redactor, c: Text, es: seq<CaseEvent>, fs: seq<CaseEvent>, k: nat)
    requires AllSerializable(AuditSerializer(redact, c), es) && AllSerializable(AuditSerializer(redact, c), fs)
    requires FirstTampered(redact, c, es, fs, k)
    ensures FirstDifference(Texts(AuditSerializer(redact, c), fs), Texts(AuditSerializer(redact, c), es), k)
  {
    var xs, ys := Texts(AuditSerializer(redact, c), fs), Texts(AuditSerializer(redact, c), es);
    TextSameAt(redact, c, es, c, fs, k);
    forall i | 0 <= i < k ensures xs[i] == ys[i] {
      TextSameAt(redact, c, es, c, fs, i);
    }
    assert xs[..k] == ys[..k];
  }

  lemma {:induction false} TamperedSomewhere(redact: Redactor, c: Text, es: seq<CaseEvent>, fs: seq<CaseEvent>, n: nat)
      returns (k: nat)
    requires |es| == |fs| && n <= |es|
    requires exists i :: 0 <= i < n && !SameAudited(redact, c, es[i], c, fs[i])
    ensures FirstTampered(redact, c, es, fs, k)
  {
    if exists i :: 0 <= i < n - 1 && !SameAudited(redact, c, es[i], c, fs[i]) {
      k := TamperedSomewhere(redact, c, es, fs, n - 1);
    } else {
      k := n - 1;
    }
  }

  /** Checking the events `fs` against the links once computed from `es`. Events of the same
      number without links of their own: verified when nothing audited has changed,
      otherwise broken at the first changed event, unless the hashes of that very event
      collide. Events of another number: verified, since the supplied links are discarded.
      Events that carry their own links: the supplied ones are not looked at. */
  lemma TamperLocated(H: Hash, redact: Redactor, c: Text, es: seq<CaseEvent>, fs: seq<CaseEvent>,
      r: Result<Verdict, ChainError>)
    requires IsDigest(H) && c != [] && fs != []
    requires AllSerializable(AuditSerializer(redact, c), es) && AllSerializable(AuditSerializer(redact, c), fs)
    requires IsVerification(H, AuditSerializer(redact, c), c, fs, Some(ChainOf(H, AuditSerializer(redact, c), es)), r)
    ensures |es| == |fs| && !SameHistory(redact, c, es, c, fs) ==> exists k :: FirstTampered(redact, c, es, fs, k)
    ensures !CanUseBackendLinks(fs) && |es| == |fs| && SameHistory(redact, c, es, c, fs) ==> r == Success(Verified)
    ensures !CanUseBackendLinks(fs) && |es| == |fs| ==> forall k :: FirstTampered(redact, c, es, fs, k) ==>
      (r.Success? && r.value.Broken? && r.value.index == k) || ClashAt(H, redact, c, es, fs, k)
    ensures !CanUseBackendLinks(fs) && |es| != |fs| ==> r == Success(Verified)
    ensures CanUseBackendLinks(fs) ==> (r == Success(Verified) <==> SelfLinked(H, AuditSerializer(redact, c), fs))
  {
    if CanUseBackendLinks(fs) {
      OwnLinksDecide(H, AuditSerializer(redact, c), c, fs, Some(ChainOf(H, AuditSerializer(redact, c), es)), r);
    } else if |es| == |fs| {
      SuppliedLinksLocate(H, redact, c, es, fs, r.value);
    }
    if |es| == |fs| && !SameHistory(redact, c, es, c, fs) {
      TextsSame(redact, c, es, c, fs);
      var first := TamperedSomewhere(redact, c, es, fs, |es|);
    }
  }

  /** The materials hashed at event `k` of the two histories collide. */
  ghost predicate ClashAt(H: Hash, redact: Redactor, c: Text, es: seq<CaseEvent>, fs: seq<CaseEvent>, k: nat)
    requires AllSerializable(AuditSerializer(redact, c), es) && AllSerializable(AuditSerializer(redact, c), fs)
    requires k < |es| && k < |fs|
  {
    Collision(H, MaterialsAt(H, Texts(AuditSerializer(redact, c), fs), Texts(AuditSerializer(redact, c), es), k))
  }

  /** Events without links of their own are verified against the links once computed from
      `es` if the two differ in number or audit the same content, and only then, unless
      the hashes of the first changed event collide. A history from which events were
      dropped, or to which some were added, is always verified. */
  lemma VerifiedIff(H: Hash, redact: Redactor, c: Text, es: seq<CaseEvent>, fs: seq<CaseEvent>,
      r: Result<Verdict, ChainError>)
    requires IsDigest(H) && c != [] && fs != [] && !CanUseBackendLinks(fs)
    requires AllSerializable(AuditSerializer(redact, c), es) && AllSerializable(AuditSerializer(redact, c), fs)
    requires IsVerification(H, AuditSerializer(redact, c), c, fs, Some(ChainOf(H, AuditSerializer(redact, c), es)), r)
    ensures |es| != |fs| || SameHistory(redact, c, es, c, fs) ==> r == Success(Verified)
    ensures r == Success(Verified) ==>
      |es| != |fs| || SameHistory(redact, c, es, c, fs) ||
      exists k :: FirstTampered(redact, c, es, fs, k) && ClashAt(H, redact, c, es, fs, k)
  {
    TamperLocated(H, redact, c, es, fs, r);
  }

  /** Dropping the last event of any history, or adding one, goes unnoticed. */
  lemma ChangedCountVerifies(H: Hash, redact: Redactor, c: Text, es: seq<CaseEvent>, e: CaseEvent,
      shorter: Result<Verdict, ChainError>, longer: Result<Verdict, ChainError>)
    requires IsDigest(H) && c != [] && es != [] && AllSerializable(AuditSerializer(redact, c), es + [e])
    requires !CanUseBackendLinks(es) && !CanUseBackendLinks(es + [e])
    requires AllSerializable(AuditSerializer(redact, c), es)
    requires IsVerification(H, AuditSerializer(redact, c), c, es,
      Some(ChainOf(H, AuditSerializer(redact, c), es + [e])), shorter)
    requires IsVerification(H, AuditSerializer(redact, c), c, es + [e],
      Some(ChainOf(H, AuditSerializer(redact, c), es)), longer)
    ensures shorter == longer == Success(Verified)
  {
    VerifiedIff(H, redact, c, es + [e], es, shorter);
    VerifiedIff(H, redact, c, es, es + [e], longer);
  }

  lemma SuppliedLinksLocate(H: Hash, redact: Redactor, c: Text, es: seq<CaseEvent>, fs: seq<CaseEvent>, v: Verdict)
    requires IsDigest(H) && |es| == |fs|
    requires AllSerializable(AuditSerializer(redact, c), es) && AllSerializable(AuditSerializer(redact, c), fs)
    requires IsComparison(ChainOf(H, AuditSerializer(redact, c), fs), ChainOf(H, AuditSerializer(redact, c), es), v)
    ensures SameHistory(redact, c, es, c, fs) ==> v == Verified
    ensures forall k :: FirstTampered(redact, c, es, fs, k) ==>
      (v.Broken? && v.index == k) || ClashAt(H, redact, c, es, fs, k)
  {
    var xs, ys := Texts(AuditSerializer(redact, c), fs), Texts(AuditSerializer(redact, c), es);
    TextsWellFormed(redact, c, es);
    TextsWellFormed(redact, c, fs);
    ComparisonLocates(H, xs, fs, ys, es, v);
    TextsSame(redact, c, es, c, fs);
    forall k | FirstTampered(redact, c, es, fs, k) ensures FirstDifference(xs, ys, k) {
      FirstTamperedText(redact, c, es, fs, k);
    }
  }

  // ----- events that carry their own links -----

  /** Every event carries the link that its own history gives it. */
  ghost predicate SelfLinked(H: Hash, ser: Serializer, events: seq<CaseEvent>) {
    AllSerializable(ser, events) &&
    forall i :: 0 <= i < |events| ==>
      var link := ChainOf(H, ser, events)[i];
      events[i].prevHash == Set(link.prevHash) && events[i].hash == Set(link.hash)
  }

  /** The links events carry decide alone, whatever links are supplied to check against. */
  lemma OwnLinksDecide(H: Hash, ser: Serializer, c: Text, events: seq<CaseEvent>, links: Option<seq<ChainLink>>,
      r: Result<Verdict, ChainError>)
    requires c != [] && CanUseBackendLinks(events) && IsVerification(H, ser, c, events, links, r)
    ensures r == Success(Verified) <==> SelfLinked(H, ser, events)
  {
    if AllSerializable(ser, events) {
      var own := ExtractBackendLinks(events);
      forall i | 0 <= i < |events|
        ensures Agree(ChainOf(H, ser, events)[i], own[i]) <==>
          events[i].prevHash == Set(ChainOf(H, ser, events)[i].prevHash) &&
          events[i].hash == Set(ChainOf(H, ser, events)[i].hash)
      {
      }
    }
  }

  /** The events with their links computed anew. */
  function Relinked(H: Hash, ser: Serializer, events: seq<CaseEvent>): (r: seq<CaseEvent>)
    requires AllSerializable(ser, events)
    ensures |r| == |events|
  {
    var links := ChainOf(H, ser, events);
    seq(|events|, i requires 0 <= i < |events| =>
      events[i].(prevHash := Set(links[i].prevHash), hash := Set(links[i].hash)))
  }

  /** Links are not audited: any history, relinked, audits the same content and is
      verified, whatever trusted links it is checked against. */
  lemma RelinkedVerifies(H: Hash, redact: Redactor, c: Text, events: seq<CaseEvent>, trusted: Option<seq<ChainLink>>,
      r: Result<Verdict, ChainError>)
    requires IsDigest(H) && c != [] && events != [] && AllSerializable(AuditSerializer(redact, c), events)
    requires IsVerification(H, AuditSerializer(redact, c), c, Relinked(H, AuditSerializer(redact, c), events),
      trusted, r)
    ensures SameHistory(redact, c, events, c, Relinked(H, AuditSerializer(redact, c), events))
    ensures r == Success(Verified)
  {
    var ser := AuditSerializer(redact, c);
    var fs := Relinked(H, ser, events);
    RelinkedTexts(H, redact, c, events);
    TextsSame(redact, c, events, c, fs);
    forall i | 0 <= i < |fs| ensures fs[i].hash == Set(ChainOf(H, ser, events)[i].hash) && IsHex64(fs[i].hash.value) {
      HeadGrows(H, Texts(ser, events), i);
    }
    OwnLinksDecide(H, ser, c, fs, trusted, r);
  }

  lemma RelinkedTexts(H: Hash, redact: Redactor, c: Text, events: seq<CaseEvent>)
    requires AllSerializable(AuditSerializer(redact, c), events)
    ensures var ser := AuditSerializer(redact, c);
      var fs := Relinked(H, ser, events);
      AllSerializable(ser, fs) && Texts(ser, fs) == Texts(ser, events) && ChainOf(H, ser, fs) == ChainOf(H, ser, events)
  {
    var ser := AuditSerializer(redact, c);
    var fs := Relinked(H, ser, events);
    forall i | 0 <= i < |fs| ensures ser(fs[i]) == ser(events[i]) && fs[i].id == events[i].id {
      assert BuildAuditPayload(redact, c, fs[i]) == BuildAuditPayload(redact, c, events[i]);
    }
    assert Texts(ser, fs) == Texts(ser, events);
  }

  /** Two histories that are verified by their own links carry the same last hash when
      they audit the same content, and only then, unless they exhibit a collision. */
  lemma OwnHeadsPinHistory(H: Hash, redact: Redactor, c: Text, es: seq<CaseEvent>, d: Text, fs: seq<CaseEvent>,
      forEs: Option<seq<ChainLink>>, forFs: Option<seq<ChainLink>>)
    requires IsDigest(H) && c != [] && d != [] && CanUseBackendLinks(es) && CanUseBackendLinks(fs)
    requires IsVerification(H, AuditSerializer(redact, c), c, es, forEs, Success(Verified))
    requires IsVerification(H, AuditSerializer(redact, d), d, fs, forFs, Success(Verified))
    ensures AllSerializable(AuditSerializer(redact, c), es) && AllSerializable(AuditSerializer(redact, d), fs)
    ensures SameHistory(redact, c, es, d, fs) ==> es[|es| - 1].hash == fs[|fs| - 1].hash
    ensures es[|es| - 1].hash == fs[|fs| - 1].hash ==>
      SameHistory(redact, c, es, d, fs) ||
      Collision(H, LastClash(H, Texts(AuditSerializer(redact, c), es), Texts(AuditSerializer(redact, d), fs)))
  {
    OwnLinksDecide(H, AuditSerializer(redact, c), c, es, forEs, Success(Verified));
    OwnLinksDecide(H, AuditSerializer(redact, d), d, fs, forFs, Success(Verified));
    LastHash(H, AuditSerializer(redact, c), es);
    LastHash(H, AuditSerializer(redact, d), fs);
    HeadPinsHistory(H, redact, c, es, d, fs);
  }

  lemma LastHash(H: Hash, ser: Serializer, events: seq<CaseEvent>)
    requires SelfLinked(H, ser, events) && events != []
    ensures events[|events| - 1].hash == Set(Head(H, GENESIS, Texts(ser, events)))
  {
    var texts := Texts(ser, events);
    assert texts[..|events| - 1 + 1] == texts;
    assert ChainOf(H, ser, events)[|events| - 1] == LinkAt(H, texts, events, |events| - 1);
  }
}
