/** The payload an audit event contributes to the chain, and exactly what of
    the event its canonical text fixes. */
module AuditPayload {
  import opened Wrappers
  import opened Sequences
  import opened Utf16
  import opened Values

  /** A property that may be `undefined`, `null` or hold a value. */
  datatype Field<+T> = Unset | Nil | Set(value: T)

  datatype Actor = Actor(id: Field<Text>, email: Field<Text>)

  datatype Change = Change(field: Text, from: Tree, to: Tree)

  datatype ExportRef = ExportRef(kind: Text, id: Text, url: Field<Text>)

  datatype Meta = Meta(changes: Option<seq<Change>>, reason: Field<Text>, exportRef: Option<ExportRef>)

  datatype CaseEvent = CaseEvent(
    id: Text, at: Text, kind: Text,
    actor: Option<Actor>,
    requestId: Field<Text>, traceId: Field<Text>,
    source: Option<Text>,
    prevHash: Field<Text>, hash: Field<Text>,
    meta: Option<Meta>)

  datatype Payload = Payload(
    id: Text, caseId: Text, at: Text, kind: Text,
    actor: Option<Actor>, source: Text,
    requestId: Field<Text>, traceId: Field<Text>,
    changes: seq<Change>,
    artifact: Option<ExportRef>,
    reason: Field<Text>)

  /** `redactForChain`: masks a value by the field it belongs to. */
  type Redactor = (Text, Tree) -> Tree

  function Ascii(s: string): (t: Text)
    ensures |t| == |s|
    ensures forall i :: 0 <= i < |s| && s[i] < 128 as char ==> t[i] == s[i] as int
  {
    seq(|s|, i requires 0 <= i < |s| => if s[i] < 128 as char then s[i] as int else 0)
  }

  // ----- building the payload -----

  predicate Falsy(f: Field<Text>) {
    !f.Set? || f.value == []
  }

  /** `value ?? undefined` */
  function NilToUnset(f: Field<Text>): Field<Text> {
    if f.Nil? then Unset else f
  }

  /** `value ?? null` */
  function UnsetToNil(f: Field<Text>): Field<Text> {
    if f.Unset? then Nil else f
  }

  function NormalizeActor(actor: Option<Actor>): Option<Actor> {
    if actor.None? || (Falsy(actor.value.id) && Falsy(actor.value.email)) then None
    else Some(Actor(NilToUnset(actor.value.id), NilToUnset(actor.value.email)))
  }

  function DeriveSource(e: CaseEvent): Text {
    if e.source.Some? && e.source.value != [] then e.source.value
    else if Ascii("synthetic_") <= e.id then Ascii("synthetic")
    else Ascii("backend")
  }

  function RedactChanges(redact: Redactor, changes: seq<Change>): (r: seq<Change>)
    ensures |r| == |changes|
    ensures forall i :: 0 <= i < |r| ==>
      r[i] == Change(changes[i].field, redact(changes[i].field, changes[i].from),
        redact(changes[i].field, changes[i].to))
  {
    seq(|changes|, i requires 0 <= i < |changes| =>
      Change(changes[i].field, redact(changes[i].field, changes[i].from), redact(changes[i].field, changes[i].to)))
  }

  function BuildAuditPayload(redact: Redactor, caseId: Text, e: CaseEvent): Payload {
    Payload(
      e.id, caseId, e.at, e.kind,
      NormalizeActor(e.actor), DeriveSource(e),
      e.requestId, e.traceId,
      if e.meta.Some? && e.meta.value.changes.Some? then RedactChanges(redact, e.meta.value.changes.value) else [],
      if e.meta.Some? && e.meta.value.exportRef.Some? then
        Some(e.meta.value.exportRef.value.(url := UnsetToNil(e.meta.value.exportRef.value.url)))
      else None,
      if e.meta.Some? then e.meta.value.reason else Unset)
  }

  // ----- the payload as an ECMAScript object -----

  function TextTree(t: Text): Tree { Leaf(String(t)) }

  function FieldTree(f: Field<Text>): Tree {
    match f
    case Unset => Leaf(Undefined)
    case Nil => Leaf(Null)
    case Set(t) => TextTree(t)
  }

  /** An object with the given properties; one set to `undefined` is the same as one never set. */
  function Record(keys: seq<Text>, values: seq<Tree>): Tree
    requires |keys| == |values|
  {
    Obj(Members(keys, values))
  }

  function Members(keys: seq<Text>, values: seq<Tree>): (ms: seq<Member>)
    requires |keys| == |values|
    ensures |ms| == |keys|
    ensures forall i :: 0 <= i < |ms| ==> ms[i] == Member(keys[i], values[i])
  {
    seq(|keys|, i requires 0 <= i < |keys| => Member(keys[i], values[i]))
  }

  const ACTOR_KEYS := [Ascii("id"), Ascii("email")]
  const CHANGE_KEYS := [Ascii("field"), Ascii("from"), Ascii("to")]
  const ARTIFACT_KEYS := [Ascii("kind"), Ascii("id"), Ascii("url")]

  /** The scalar properties first; the order of a record's keys does not reach its text. */
  const PAYLOAD_KEYS := [
    Ascii("id"), Ascii("case_id"), Ascii("at"), Ascii("type"), Ascii("source"),
    Ascii("request_id"), Ascii("trace_id"), Ascii("reason"), Ascii("actor"), Ascii("changes"), Ascii("artifact")]

  function ActorTree(a: Option<Actor>): Tree {
    if a.None? then Leaf(Null) else Record(ACTOR_KEYS, [FieldTree(a.value.id), FieldTree(a.value.email)])
  }

  function ChangeTree(c: Change): Tree {
    Record(CHANGE_KEYS, [TextTree(c.field), c.from, c.to])
  }

  /** An empty list of changes is not put into the payload. */
  function ChangesTree(cs: seq<Change>): Tree {
    if cs == [] then Leaf(Undefined)
    else Arr(seq(|cs|, i requires 0 <= i < |cs| => ChangeTree(cs[i])))
  }

  function ArtifactTree(a: Option<ExportRef>): Tree {
    if a.None? then Leaf(Undefined)
    else Record(ARTIFACT_KEYS, [TextTree(a.value.kind), TextTree(a.value.id), FieldTree(a.value.url)])
  }

  function FieldTrees(fs: seq<Field<Text>>): (ts: seq<Tree>)
    ensures |ts| == |fs|
    ensures forall i :: 0 <= i < |ts| ==> ts[i] == FieldTree(fs[i])
  {
    seq(|fs|, i requires 0 <= i < |fs| => FieldTree(fs[i]))
  }

  function Scalars(p: Payload): seq<Field<Text>> {
    [Set(p.id), Set(p.caseId), Set(p.at), Set(p.kind), Set(p.source), p.requestId, p.traceId, p.reason]
  }

  function PayloadValues(p: Payload): seq<Tree> {
    FieldTrees(Scalars(p)) + [ActorTree(p.actor), ChangesTree(p.changes), ArtifactTree(p.artifact)]
  }

  function PayloadTree(p: Payload): Tree {
    Record(PAYLOAD_KEYS, PayloadValues(p))
  }

  // ----- what a record's text fixes -----

  lemma {:induction false} RecordPlain(keys: seq<Text>, values: seq<Tree>)
    requires |keys| == |values| && Distinct(keys)
    ensures Plain(Record(keys, values)) <==> forall i :: 0 <= i < |values| ==> Plain(values[i])
  {
    var ms := Members(keys, values);
    assert Keys(ms) == keys;
    if Plain(Record(keys, values)) {
      forall i | 0 <= i < |values| ensures Plain(values[i]) { assert Plain(ms[i].value); }
    }
  }

  lemma RecordAt(keys: seq<Text>, xs: seq<Tree>, i: nat)
    requires |keys| == |xs| && Distinct(keys) && i < |keys|
    ensures keys[i] in Keys(Members(keys, xs)) && Lookup(Members(keys, xs), keys[i]) == xs[i]
  {
    assert Keys(Members(keys, xs)) == keys;
    LookupAt(Members(keys, xs), i);
  }

  lemma RecordSameAt(keys: seq<Text>, xs: seq<Tree>, ys: seq<Tree>, i: nat)
    requires |keys| == |xs| == |ys| && Distinct(keys) && i < |keys|
    requires Plain(Record(keys, xs)) && Plain(Record(keys, ys)) && Plain(xs[i]) && Plain(ys[i])
    ensures Same(xs[i], ys[i]) <==> SameAt(Record(keys, xs), Record(keys, ys), keys[i])
  {
    RecordAt(keys, xs, i);
    RecordAt(keys, ys, i);
    SameAtLookup(Record(keys, xs), Record(keys, ys), keys[i]);
  }

  /** Two records over the same keys are the same exactly when they agree key by key. */
  lemma {:induction false} RecordSame(keys: seq<Text>, xs: seq<Tree>, ys: seq<Tree>)
    requires |keys| == |xs| == |ys| && Distinct(keys)
    requires Plain(Record(keys, xs)) && Plain(Record(keys, ys))
    ensures Same(Record(keys, xs), Record(keys, ys)) <==> SameValues(xs, ys)
  {
    var a, b := Record(keys, xs), Record(keys, ys);
    RecordPlain(keys, xs);
    RecordPlain(keys, ys);
    forall i | 0 <= i < |keys|
      ensures Same(xs[i], ys[i]) <==> SameAt(a, b, keys[i])
    {
      RecordSameAt(keys, xs, ys, i);
    }
    if SameValues(xs, ys) {
      assert Keys(a.members) == keys && Keys(b.members) == keys;
      forall k ensures SameAt(a, b, k) {
        if k in keys {
          var i :| 0 <= i < |keys| && keys[i] == k;
          assert Same(xs[i], ys[i]);
        }
      }
    }
  }

  lemma KeysDistinct()
    ensures Distinct(ACTOR_KEYS) && Distinct(CHANGE_KEYS) && Distinct(ARTIFACT_KEYS) && Distinct(PAYLOAD_KEYS)
  {
    assert Ascii("id")[0] != Ascii("at")[0];
    assert Ascii("case_id")[1] != Ascii("changes")[1];
    assert Ascii("source")[0] != Ascii("reason")[0];
    assert Ascii("trace_id")[0] != Ascii("artifact")[0];
    assert Ascii("kind")[0] != Ascii("from")[0];
  }

  lemma FieldSame(f: Field<Text>, g: Field<Text>)
    ensures Plain(FieldTree(f)) && Plain(FieldTree(g))
    ensures Same(FieldTree(f), FieldTree(g)) <==> f == g
  {
  }

  lemma ActorSame(a: Option<Actor>, b: Option<Actor>)
    ensures Plain(ActorTree(a)) && Plain(ActorTree(b))
    ensures Same(ActorTree(a), ActorTree(b)) <==> a == b
  {
    KeysDistinct();
    ActorPlain(a);
    ActorPlain(b);
    if a.Some? && b.Some? {
      var xs := [FieldTree(a.value.id), FieldTree(a.value.email)];
      var ys := [FieldTree(b.value.id), FieldTree(b.value.email)];
      RecordSame(ACTOR_KEYS, xs, ys);
      FieldSame(a.value.id, b.value.id);
      FieldSame(a.value.email, b.value.email);
      assert SameValues(xs, ys) <==> Same(xs[0], ys[0]) && Same(xs[1], ys[1]);
    }
  }

  lemma ActorPlain(a: Option<Actor>)
    ensures Plain(ActorTree(a))
  {
    KeysDistinct();
    if a.Some? {
      RecordPlain(ACTOR_KEYS, [FieldTree(a.value.id), FieldTree(a.value.email)]);
    }
  }

  lemma ArtifactPlain(a: Option<ExportRef>)
    ensures Plain(ArtifactTree(a))
  {
    KeysDistinct();
    if a.Some? {
      RecordPlain(ARTIFACT_KEYS, [TextTree(a.value.kind), TextTree(a.value.id), FieldTree(a.value.url)]);
    }
  }

  lemma ArtifactSame(a: Option<ExportRef>, b: Option<ExportRef>)
    ensures Plain(ArtifactTree(a)) && Plain(ArtifactTree(b))
    ensures Same(ArtifactTree(a), ArtifactTree(b)) <==> a == b
  {
    KeysDistinct();
    ArtifactPlain(a);
    ArtifactPlain(b);
    if a.Some? && b.Some? {
      var xs := [TextTree(a.value.kind), TextTree(a.value.id), FieldTree(a.value.url)];
      var ys := [TextTree(b.value.kind), TextTree(b.value.id), FieldTree(b.value.url)];
      RecordSame(ARTIFACT_KEYS, xs, ys);
      FieldSame(a.value.url, b.value.url);
      assert SameValues(xs, ys) <==> Same(xs[0], ys[0]) && Same(xs[1], ys[1]) && Same(xs[2], ys[2]);
    }
  }

  /** The redacted old and new values can be written. */
  predicate PrintableChange(c: Change) {
    Plain(c.from) && Plain(c.to)
  }

  predicate PrintablePayload(p: Payload) {
    forall i :: 0 <= i < |p.changes| ==> PrintableChange(p.changes[i])
  }

  ghost predicate SameChange(c: Change, d: Change)
    requires PrintableChange(c) && PrintableChange(d)
  {
    c.field == d.field && Same(c.from, d.from) && Same(c.to, d.to)
  }

  lemma ChangePlain(c: Change)
    ensures Plain(ChangeTree(c)) <==> PrintableChange(c)
  {
    KeysDistinct();
    var xs := [TextTree(c.field), c.from, c.to];
    RecordPlain(CHANGE_KEYS, xs);
    assert Plain(xs[0]) && xs[1] == c.from && xs[2] == c.to;
  }

  lemma ChangeSame(c: Change, d: Change)
    requires PrintableChange(c) && PrintableChange(d)
    ensures Plain(ChangeTree(c)) && Plain(ChangeTree(d))
    ensures Same(ChangeTree(c), ChangeTree(d)) <==> SameChange(c, d)
  {
    KeysDistinct();
    ChangePlain(c);
    ChangePlain(d);
    var xs, ys := [TextTree(c.field), c.from, c.to], [TextTree(d.field), d.from, d.to];
    RecordSame(CHANGE_KEYS, xs, ys);
    assert SameValues(xs, ys) <==> Same(xs[0], ys[0]) && Same(xs[1], ys[1]) && Same(xs[2], ys[2]);
  }

  lemma ChangesPlain(cs: seq<Change>)
    ensures Plain(ChangesTree(cs)) <==> forall i :: 0 <= i < |cs| ==> PrintableChange(cs[i])
  {
    forall i | 0 <= i < |cs|
      ensures Plain(ChangeTree(cs[i])) <==> PrintableChange(cs[i])
    {
      ChangePlain(cs[i]);
    }
    if cs != [] && Plain(ChangesTree(cs)) {
      forall i | 0 <= i < |cs| ensures PrintableChange(cs[i]) {
        assert Plain(ChangesTree(cs).items[i]);
      }
    }
  }

  ghost predicate SameChanges(cs: seq<Change>, ds: seq<Change>)
    requires forall i :: 0 <= i < |cs| ==> PrintableChange(cs[i])
    requires forall i :: 0 <= i < |ds| ==> PrintableChange(ds[i])
  {
    |cs| == |ds| && forall i :: 0 <= i < |cs| ==> SameChange(cs[i], ds[i])
  }

  lemma ChangesSame(cs: seq<Change>, ds: seq<Change>)
    requires forall i :: 0 <= i < |cs| ==> PrintableChange(cs[i])
    requires forall i :: 0 <= i < |ds| ==> PrintableChange(ds[i])
    ensures Plain(ChangesTree(cs)) && Plain(ChangesTree(ds))
    ensures Same(ChangesTree(cs), ChangesTree(ds)) <==> SameChanges(cs, ds)
  {
    ChangesPlain(cs);
    ChangesPlain(ds);
    if cs != [] && ds != [] {
      ListSame(ChangesTree(cs).items, ChangesTree(ds).items);
      ChangeTreesSame(cs, ds);
    }
  }

  lemma ChangeTreesSame(cs: seq<Change>, ds: seq<Change>)
    requires cs != [] && ds != []
    requires forall i :: 0 <= i < |cs| ==> PrintableChange(cs[i])
    requires forall i :: 0 <= i < |ds| ==> PrintableChange(ds[i])
    ensures SameValues(ChangesTree(cs).items, ChangesTree(ds).items) <==> SameChanges(cs, ds)
  {
    if |cs| == |ds| {
      forall i | 0 <= i < |cs|
        ensures Plain(ChangesTree(cs).items[i]) && Plain(ChangesTree(ds).items[i])
        ensures Same(ChangesTree(cs).items[i], ChangesTree(ds).items[i]) <==> SameChange(cs[i], ds[i])
      {
        ChangeSame(cs[i], ds[i]);
      }
    }
  }

  /** Everything the audit trail is about: all fields, the normalized actor and
      every redacted old and new value. */
  ghost predicate SamePayload(p: Payload, q: Payload)
    requires PrintablePayload(p) && PrintablePayload(q)
  {
    p.(changes := []) == q.(changes := []) && SameChanges(p.changes, q.changes)
  }

  lemma PayloadPlain(p: Payload)
    ensures Plain(PayloadTree(p)) <==> PrintablePayload(p)
  {
    KeysDistinct();
    var xs := PayloadValues(p);
    RecordPlain(PAYLOAD_KEYS, xs);
    ActorPlain(p.actor);
    ArtifactPlain(p.artifact);
    ChangesPlain(p.changes);
    ScalarsPlain(Scalars(p));
    assert xs[9] == ChangesTree(p.changes);
  }

  lemma ScalarsPlain(fs: seq<Field<Text>>)
    ensures forall i :: 0 <= i < |fs| ==> Plain(FieldTrees(fs)[i])
  {
    forall i | 0 <= i < |fs| ensures Plain(FieldTrees(fs)[i]) {
      FieldSame(fs[i], fs[i]);
    }
  }

  lemma ScalarsSame(fs: seq<Field<Text>>, gs: seq<Field<Text>>)
    ensures SameValues(FieldTrees(fs), FieldTrees(gs)) <==> fs == gs
  {
    ScalarsPlain(fs);
    ScalarsPlain(gs);
    if |fs| == |gs| {
      forall i | 0 <= i < |fs|
        ensures Same(FieldTrees(fs)[i], FieldTrees(gs)[i]) <==> fs[i] == gs[i]
      {
        FieldSame(fs[i], gs[i]);
      }
    }
  }

  lemma SameValuesAppend(xs: seq<Tree>, x: Tree, ys: seq<Tree>, y: Tree)
    requires |xs| == |ys| && Plain(x) && Plain(y)
    ensures SameValues(xs + [x], ys + [y]) <==> SameValues(xs, ys) && Same(x, y)
  {
    var us, vs := xs + [x], ys + [y];
    assert us[..|xs|] == xs && vs[..|ys|] == ys;
    if SameValues(us, vs) {
      assert Same(us[|xs|], vs[|xs|]);
      forall i | 0 <= i < |xs| ensures Plain(xs[i]) && Plain(ys[i]) && Same(xs[i], ys[i]) {
        assert us[i] == xs[i] && vs[i] == ys[i];
      }
    }
  }

  /** Two payloads have the same canonical text exactly when they agree on everything audited. */
  lemma PayloadTextFixesPayload(p: Payload, q: Payload)
    requires PrintablePayload(p) && PrintablePayload(q)
    ensures Plain(PayloadTree(p)) && Plain(PayloadTree(q))
    ensures TreeText(PayloadTree(p)) == TreeText(PayloadTree(q)) <==> SamePayload(p, q)
  {
    PayloadPlain(p);
    PayloadPlain(q);
    KeysDistinct();
    TextEqualIffSame(PayloadTree(p), PayloadTree(q));
    var xs, ys := PayloadValues(p), PayloadValues(q);
    RecordSame(PAYLOAD_KEYS, xs, ys);
    PayloadValuesSame(p, q);
  }

  lemma PayloadValuesSame(p: Payload, q: Payload)
    requires PrintablePayload(p) && PrintablePayload(q)
    ensures SameValues(PayloadValues(p), PayloadValues(q)) <==> SamePayload(p, q)
  {
    var a, b := FieldTrees(Scalars(p)), FieldTrees(Scalars(q));
    var c, d := a + [ActorTree(p.actor)], b + [ActorTree(q.actor)];
    var e, f := c + [ChangesTree(p.changes)], d + [ChangesTree(q.changes)];
    assert PayloadValues(p) == e + [ArtifactTree(p.artifact)];
    assert PayloadValues(q) == f + [ArtifactTree(q.artifact)];
    ScalarsSame(Scalars(p), Scalars(q));
    ActorSame(p.actor, q.actor);
    SameValuesAppend(a, ActorTree(p.actor), b, ActorTree(q.actor));
    ChangesSame(p.changes, q.changes);
    SameValuesAppend(c, ChangesTree(p.changes), d, ChangesTree(q.changes));
    ArtifactSame(p.artifact, q.artifact);
    SameValuesAppend(e, ArtifactTree(p.artifact), f, ArtifactTree(q.artifact));
    ScalarsFixFields(p, q);
  }

  lemma ScalarsFixFields(p: Payload, q: Payload)
    ensures Scalars(p) == Scalars(q) <==>
      p.(changes := [], actor := None, artifact := None) == q.(changes := [], actor := None, artifact := None)
  {
    var fs, gs := Scalars(p), Scalars(q);
    if fs == gs {
      assert fs[0] == gs[0] && fs[1] == gs[1] && fs[2] == gs[2] && fs[3] == gs[3];
      assert fs[4] == gs[4] && fs[5] == gs[5] && fs[6] == gs[6] && fs[7] == gs[7];
    }
  }
}
