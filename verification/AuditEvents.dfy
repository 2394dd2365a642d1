/** What of a case event is audited, read off the event itself: when two events audit
    the same, and which object is written for one. */
module AuditEvents {
  import opened Wrappers
  import opened Sequences
  import opened Utf16
  import opened Values
  import opened AuditPayload

  // ----- two events audit the same -----

  /** A nonempty string. */
  predicate Filled(f: Field<Text>) {
    f.Set? && |f.value| > 0
  }

  /** An actor counts if one of its two names is filled. */
  predicate Named(e: CaseEvent) {
    e.actor.Some? && (Filled(e.actor.value.id) || Filled(e.actor.value.email))
  }

  /** `null` and `undefined` are not told apart. */
  predicate SameOptional(f: Field<Text>, g: Field<Text>) {
    f.Set? == g.Set? && (f.Set? ==> f.value == g.value)
  }

  /** The source given, or one derived from the id. */
  predicate SourceIs(e: CaseEvent, s: Text) {
    if e.source.Some? && |e.source.value| > 0 then s == e.source.value
    else if |e.id| >= 10 && e.id[..10] == Ascii("synthetic_") then s == Ascii("synthetic")
    else s == Ascii("backend")
  }

  /** The changes of an event; none at all and an empty list are the same. */
  function ChangesOf(e: CaseEvent): seq<Change> {
    match e.meta
    case Some(Meta(Some(changes), _, _)) => changes
    case _ => []
  }

  function ExportOf(e: CaseEvent): Option<ExportRef> {
    match e.meta
    case Some(Meta(_, _, exportRef)) => exportRef
    case None => None
  }

  function ReasonOf(e: CaseEvent): Field<Text> {
    match e.meta
    case Some(Meta(_, reason, _)) => reason
    case None => Unset
  }

  /** The old and new values of every change, redacted, can be written. */
  predicate PrintableEvent(redact: Redactor, e: CaseEvent) {
    forall c :: c in ChangesOf(e) ==> Plain(redact(c.field, c.from)) && Plain(redact(c.field, c.to))
  }

  ghost predicate SameAuditedChanges(redact: Redactor, e: CaseEvent, f: CaseEvent)
    requires PrintableEvent(redact, e) && PrintableEvent(redact, f)
  {
    var cs, ds := ChangesOf(e), ChangesOf(f);
    |cs| == |ds| &&
    forall i :: 0 <= i < |cs| ==>
      cs[i] in cs && ds[i] in ds && cs[i].field == ds[i].field &&
      Same(redact(cs[i].field, cs[i].from), redact(ds[i].field, ds[i].from)) &&
      Same(redact(cs[i].field, cs[i].to), redact(ds[i].field, ds[i].to))
  }

  predicate SameActor(e: CaseEvent, f: CaseEvent) {
    Named(e) == Named(f) &&
    (Named(e) ==>
      SameOptional(e.actor.value.id, f.actor.value.id) && SameOptional(e.actor.value.email, f.actor.value.email))
  }

  predicate SameExport(e: CaseEvent, f: CaseEvent) {
    var a, b := ExportOf(e), ExportOf(f);
    a.Some? == b.Some? &&
    (a.Some? ==> a.value.kind == b.value.kind && a.value.id == b.value.id && SameOptional(a.value.url, b.value.url))
  }

  /** The two events, read as parts of two cases, agree on everything audited. Their
      links are not audited. */
  ghost predicate EventsAgree(redact: Redactor, c: Text, e: CaseEvent, d: Text, f: CaseEvent)
    requires PrintableEvent(redact, e) && PrintableEvent(redact, f)
  {
    c == d && e.id == f.id && e.at == f.at && e.kind == f.kind &&
    (exists s :: SourceIs(e, s) && SourceIs(f, s)) &&
    e.requestId == f.requestId && e.traceId == f.traceId && ReasonOf(e) == ReasonOf(f) &&
    SameActor(e, f) && SameExport(e, f) && SameAuditedChanges(redact, e, f)
  }

  lemma SourceDerived(e: CaseEvent, s: Text)
    ensures SourceIs(e, s) <==> s == DeriveSource(e)
  {
    if Ascii("synthetic_") <= e.id {
      assert e.id[..10] == Ascii("synthetic_");
    }
  }

  lemma PayloadPrintable(redact: Redactor, c: Text, e: CaseEvent)
    ensures PrintablePayload(BuildAuditPayload(redact, c, e)) <==> PrintableEvent(redact, e)
    ensures |BuildAuditPayload(redact, c, e).changes| == |ChangesOf(e)|
    ensures forall i :: 0 <= i < |ChangesOf(e)| ==>
      var x := ChangesOf(e)[i];
      BuildAuditPayload(redact, c, e).changes[i] == Change(x.field, redact(x.field, x.from), redact(x.field, x.to))
  {
    var p := BuildAuditPayload(redact, c, e);
    if PrintablePayload(p) {
      forall x | x in ChangesOf(e) ensures Plain(redact(x.field, x.from)) && Plain(redact(x.field, x.to)) {
        var i :| 0 <= i < |ChangesOf(e)| && ChangesOf(e)[i] == x;
        assert PrintableChange(p.changes[i]);
      }
    }
  }

  lemma ChangesAgree(redact: Redactor, c: Text, e: CaseEvent, d: Text, f: CaseEvent)
    requires PrintableEvent(redact, e) && PrintableEvent(redact, f)
    ensures PrintablePayload(BuildAuditPayload(redact, c, e)) && PrintablePayload(BuildAuditPayload(redact, d, f))
    ensures SameChanges(BuildAuditPayload(redact, c, e).changes, BuildAuditPayload(redact, d, f).changes) <==>
      SameAuditedChanges(redact, e, f)
  {
    PayloadPrintable(redact, c, e);
    PayloadPrintable(redact, d, f);
    var p, q := BuildAuditPayload(redact, c, e).changes, BuildAuditPayload(redact, d, f).changes;
    if |p| == |q| {
      forall i | 0 <= i < |p|
        ensures ChangesOf(e)[i] in ChangesOf(e) && ChangesOf(f)[i] in ChangesOf(f)
        ensures SameChange(p[i], q[i]) <==>
          var x, y := ChangesOf(e)[i], ChangesOf(f)[i];
          x.field == y.field && Same(redact(x.field, x.from), redact(y.field, y.from)) &&
          Same(redact(x.field, x.to), redact(y.field, y.to))
      {
      }
    }
  }

  /** The payloads of two events are the same exactly when the events agree. */
  lemma AgreeIffSamePayload(redact: Redactor, c: Text, e: CaseEvent, d: Text, f: CaseEvent)
    requires PrintableEvent(redact, e) && PrintableEvent(redact, f)
    ensures PrintablePayload(BuildAuditPayload(redact, c, e)) && PrintablePayload(BuildAuditPayload(redact, d, f))
    ensures SamePayload(BuildAuditPayload(redact, c, e), BuildAuditPayload(redact, d, f)) <==>
      EventsAgree(redact, c, e, d, f)
  {
    ChangesAgree(redact, c, e, d, f);
    forall s ensures SourceIs(e, s) <==> s == DeriveSource(e) {
      SourceDerived(e, s);
    }
    forall s ensures SourceIs(f, s) <==> s == DeriveSource(f) {
      SourceDerived(f, s);
    }
    assert SourceIs(e, DeriveSource(e));
    ActorsAgree(e, f);
    ExportsAgree(redact, c, e, d, f);
  }

  lemma ActorsAgree(e: CaseEvent, f: CaseEvent)
    ensures NormalizeActor(e.actor) == NormalizeActor(f.actor) <==> SameActor(e, f)
  {
  }

  lemma ExportsAgree(redact: Redactor, c: Text, e: CaseEvent, d: Text, f: CaseEvent)
    ensures BuildAuditPayload(redact, c, e).artifact == BuildAuditPayload(redact, d, f).artifact <==> SameExport(e, f)
  {
  }

  // ----- the object written for an event -----

  /** The property of an object under an ASCII name; undefined if there is none. */
  function PropertyOf(t: Tree, name: string): Tree
    requires t.Obj?
  {
    if Ascii(name) in Keys(t.members) then Lookup(t.members, Ascii(name)) else Leaf(Undefined)
  }

  predicate OnlyKeys(t: Tree, names: seq<string>) {
    t.Obj? && forall k :: k in Keys(t.members) ==> exists i :: 0 <= i < |names| && k == Ascii(names[i])
  }

  predicate HoldsText(t: Tree, s: Text) {
    t == Leaf(String(s))
  }

  /** `undefined`, `null` and a string are written as themselves. */
  predicate HoldsField(t: Tree, f: Field<Text>) {
    match f
    case Unset => t == Leaf(Undefined)
    case Nil => t == Leaf(Null)
    case Set(s) => t == Leaf(String(s))
  }

  /** A string is written, anything else left out. */
  predicate HoldsOptional(t: Tree, f: Field<Text>) {
    if f.Set? then t == Leaf(String(f.value)) else t == Leaf(Undefined)
  }

  predicate HoldsActor(t: Tree, e: CaseEvent) {
    if !Named(e) then t == Leaf(Null)
    else
      OnlyKeys(t, ["id", "email"]) && HoldsOptional(PropertyOf(t, "id"), e.actor.value.id) &&
      HoldsOptional(PropertyOf(t, "email"), e.actor.value.email)
  }

  predicate HoldsExport(t: Tree, e: CaseEvent) {
    match ExportOf(e)
    case None => t == Leaf(Undefined)
    case Some(x) =>
      OnlyKeys(t, ["kind", "id", "url"]) && HoldsText(PropertyOf(t, "kind"), x.kind) &&
      HoldsText(PropertyOf(t, "id"), x.id) &&
      PropertyOf(t, "url") == if x.url.Set? then Leaf(String(x.url.value)) else Leaf(Null)
  }

  predicate HoldsChange(t: Tree, redact: Redactor, c: Change) {
    OnlyKeys(t, ["field", "from", "to"]) && HoldsText(PropertyOf(t, "field"), c.field) &&
    PropertyOf(t, "from") == redact(c.field, c.from) && PropertyOf(t, "to") == redact(c.field, c.to)
  }

  predicate HoldsChanges(t: Tree, redact: Redactor, e: CaseEvent) {
    if |ChangesOf(e)| == 0 then t == Leaf(Undefined)
    else
      t.Arr? && |t.items| == |ChangesOf(e)| &&
      forall i :: 0 <= i < |t.items| ==> HoldsChange(t.items[i], redact, ChangesOf(e)[i])
  }

  lemma RecordProperty(keys: seq<Text>, xs: seq<Tree>, name: string, i: nat)
    requires |keys| == |xs| && Distinct(keys) && i < |keys| && keys[i] == Ascii(name)
    ensures PropertyOf(Record(keys, xs), name) == xs[i]
  {
    RecordAt(keys, xs, i);
  }

  lemma RecordOnly(keys: seq<Text>, xs: seq<Tree>, names: seq<string>)
    requires |keys| == |xs| == |names| && forall i :: 0 <= i < |keys| ==> keys[i] == Ascii(names[i])
    ensures OnlyKeys(Record(keys, xs), names)
  {
    assert Keys(Members(keys, xs)) == keys;
  }

  lemma ActorObject(e: CaseEvent)
    ensures HoldsActor(ActorTree(NormalizeActor(e.actor)), e)
  {
    if Named(e) {
      KeysDistinct();
      var a := NormalizeActor(e.actor).value;
      var xs := [FieldTree(a.id), FieldTree(a.email)];
      RecordOnly(ACTOR_KEYS, xs, ["id", "email"]);
      RecordProperty(ACTOR_KEYS, xs, "id", 0);
      RecordProperty(ACTOR_KEYS, xs, "email", 1);
    }
  }

  lemma ExportObject(redact: Redactor, c: Text, e: CaseEvent)
    ensures HoldsExport(ArtifactTree(BuildAuditPayload(redact, c, e).artifact), e)
  {
    if ExportOf(e).Some? {
      KeysDistinct();
      var a := BuildAuditPayload(redact, c, e).artifact.value;
      var xs := [TextTree(a.kind), TextTree(a.id), FieldTree(a.url)];
      RecordOnly(ARTIFACT_KEYS, xs, ["kind", "id", "url"]);
      RecordProperty(ARTIFACT_KEYS, xs, "kind", 0);
      RecordProperty(ARTIFACT_KEYS, xs, "id", 1);
      RecordProperty(ARTIFACT_KEYS, xs, "url", 2);
    }
  }

  lemma ChangeObject(redact: Redactor, c: Change)
    ensures HoldsChange(ChangeTree(Change(c.field, redact(c.field, c.from), redact(c.field, c.to))), redact, c)
  {
    KeysDistinct();
    var xs := [TextTree(c.field), redact(c.field, c.from), redact(c.field, c.to)];
    RecordOnly(CHANGE_KEYS, xs, ["field", "from", "to"]);
    RecordProperty(CHANGE_KEYS, xs, "field", 0);
    RecordProperty(CHANGE_KEYS, xs, "from", 1);
    RecordProperty(CHANGE_KEYS, xs, "to", 2);
  }

  lemma ChangesObject(redact: Redactor, c: Text, e: CaseEvent)
    ensures HoldsChanges(ChangesTree(BuildAuditPayload(redact, c, e).changes), redact, e)
  {
    PayloadPrintable(redact, c, e);
    var t := ChangesTree(BuildAuditPayload(redact, c, e).changes);
    forall i | 0 <= i < |ChangesOf(e)| ensures HoldsChange(t.items[i], redact, ChangesOf(e)[i]) {
      ChangeObject(redact, ChangesOf(e)[i]);
    }
  }

  const NAMES := [
    "id", "case_id", "at", "type", "source", "request_id", "trace_id", "reason", "actor", "changes", "artifact"]

  predicate HoldsPlace(t: Tree, c: Text, e: CaseEvent)
    requires t.Obj?
  {
    HoldsText(PropertyOf(t, "id"), e.id) && HoldsText(PropertyOf(t, "case_id"), c) &&
    HoldsText(PropertyOf(t, "at"), e.at) && HoldsText(PropertyOf(t, "type"), e.kind)
  }

  ghost predicate HoldsOrigin(t: Tree, e: CaseEvent)
    requires t.Obj?
  {
    (forall s :: SourceIs(e, s) ==> HoldsText(PropertyOf(t, "source"), s)) &&
    HoldsField(PropertyOf(t, "request_id"), e.requestId) && HoldsField(PropertyOf(t, "trace_id"), e.traceId)
  }

  predicate HoldsContent(t: Tree, redact: Redactor, e: CaseEvent)
    requires t.Obj?
  {
    HoldsField(PropertyOf(t, "reason"), ReasonOf(e)) && HoldsActor(PropertyOf(t, "actor"), e) &&
    HoldsChanges(PropertyOf(t, "changes"), redact, e) && HoldsExport(PropertyOf(t, "artifact"), e)
  }

  lemma PayloadProperty(p: Payload, name: string, i: nat)
    requires i < |PAYLOAD_KEYS| && PAYLOAD_KEYS[i] == Ascii(name)
    ensures i < |PayloadValues(p)| && PropertyOf(PayloadTree(p), name) == PayloadValues(p)[i]
  {
    KeysDistinct();
    RecordProperty(PAYLOAD_KEYS, PayloadValues(p), name, i);
  }

  lemma EventIds(redact: Redactor, c: Text, e: CaseEvent)
    ensures var t := PayloadTree(BuildAuditPayload(redact, c, e));
      HoldsText(PropertyOf(t, "id"), e.id) && HoldsText(PropertyOf(t, "case_id"), c)
  {
    PayloadProperty(BuildAuditPayload(redact, c, e), "id", 0);
    PayloadProperty(BuildAuditPayload(redact, c, e), "case_id", 1);
  }

  lemma EventPlace(redact: Redactor, c: Text, e: CaseEvent)
    ensures HoldsPlace(PayloadTree(BuildAuditPayload(redact, c, e)), c, e)
  {
    EventIds(redact, c, e);
    PayloadProperty(BuildAuditPayload(redact, c, e), "at", 2);
    PayloadProperty(BuildAuditPayload(redact, c, e), "type", 3);
  }

  lemma EventSource(redact: Redactor, c: Text, e: CaseEvent, s: Text)
    requires SourceIs(e, s)
    ensures HoldsText(PropertyOf(PayloadTree(BuildAuditPayload(redact, c, e)), "source"), s)
  {
    SourceDerived(e, s);
    PayloadProperty(BuildAuditPayload(redact, c, e), "source", 4);
  }

  lemma EventOrigin(redact: Redactor, c: Text, e: CaseEvent)
    ensures HoldsOrigin(PayloadTree(BuildAuditPayload(redact, c, e)), e)
  {
    var p := BuildAuditPayload(redact, c, e);
    PayloadProperty(p, "request_id", 5);
    PayloadProperty(p, "trace_id", 6);
    forall s | SourceIs(e, s) ensures HoldsText(PropertyOf(PayloadTree(p), "source"), s) {
      EventSource(redact, c, e, s);
    }
  }

  lemma EventContent(redact: Redactor, c: Text, e: CaseEvent)
    ensures HoldsContent(PayloadTree(BuildAuditPayload(redact, c, e)), redact, e)
  {
    var p := BuildAuditPayload(redact, c, e);
    PayloadProperty(p, "reason", 7);
    PayloadProperty(p, "actor", 8);
    PayloadProperty(p, "changes", 9);
    PayloadProperty(p, "artifact", 10);
    ActorObject(e);
    ChangesObject(redact, c, e);
    ExportObject(redact, c, e);
  }

  /** The object written for an event holds these eleven properties with these values, and no others. */
  lemma EventObject(redact: Redactor, c: Text, e: CaseEvent)
    ensures var t := PayloadTree(BuildAuditPayload(redact, c, e));
      OnlyKeys(t, NAMES) && HoldsPlace(t, c, e) && HoldsOrigin(t, e) && HoldsContent(t, redact, e)
  {
    RecordOnly(PAYLOAD_KEYS, PayloadValues(BuildAuditPayload(redact, c, e)), NAMES);
    EventPlace(redact, c, e);
    EventOrigin(redact, c, e);
    EventContent(redact, c, e);
  }
}
