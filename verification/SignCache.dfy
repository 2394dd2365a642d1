/** Signing a document into two objects that are put one after the other, with
    crashes at any point between the steps. */
module SignCache {
  import opened Wrappers
  import opened Sequences
  import opened SignedKeys

  /** What a request wants signed, and by which provider. The keys do not depend on it. */
  datatype Ask = Ask(provider: string, input: string, meta: string)

  /** A stored object and the number of the `provider.sign` call it came from. */
  datatype Object = Object(bytes: string, call: nat)

  type Objects = map<Key, Object>

  /** What `provider.sign` returned. */
  datatype Signed = Signed(document: string, signature: string)

  /** The answer to a request and the two objects it reports. */
  datatype Response = Response(place: Place, ask: Ask, document: Object, signature: Object)

  datatype Phase = Checked | Have(document: Object, signature: Object) | HalfPut(document: Object, signature: Object)

  datatype Session = Session(place: Place, ask: Ask, phase: Phase)

  /** What the provider was called for and what it returned; nothing when it raised. */
  datatype ProviderCall = ProviderCall(ask: Ask, result: Option<Signed>)

  /** `calls` and `responses` only record history: the provider calls and the answers. */
  datatype Machine =
    Machine(objects: Objects, sessions: map<nat, Session>, calls: seq<ProviderCall>, responses: seq<Response>)

  datatype Step =
    | Check(s: nat, place: Place, ask: Ask)
    | Sign(s: nat, result: Option<Signed>)   // None: the provider or its lookup raised
    | PutDocument(s: nat)
    | PutSignature(s: nat)
    | Crash(s: nat)                          // the process dies, or a put raises

  const EMPTY: Machine := Machine(map[], map[], [], [])

  predicate Complete(objects: Objects, p: Place) {
    SignedKey(p) in objects && SignatureKey(p) in objects
  }

  /** The answer that reports the stored pair. */
  function Reported(objects: Objects, p: Place, ask: Ask): Response
    requires Complete(objects, p)
  {
    Response(p, ask, objects[SignedKey(p)], objects[SignatureKey(p)])
  }

  function Next(m: Machine, step: Step): Machine {
    match step
    case Check(s, p, ask) =>
      if s in m.sessions || !IsPlace(p) then m
      else if Complete(m.objects, p) then m.(responses := m.responses + [Reported(m.objects, p, ask)])
      else m.(sessions := m.sessions[s := Session(p, ask, Checked)])
    case Sign(s, result) =>
      if s !in m.sessions || !m.sessions[s].phase.Checked? then m
      else
        var x, calls := m.sessions[s], m.calls + [ProviderCall(m.sessions[s].ask, result)];
        if result.None? then m.(sessions := m.sessions - {s}, calls := calls)
        else
          var document := Object(result.value.document, |m.calls|);
          var signature := Object(result.value.signature, |m.calls|);
          m.(sessions := m.sessions[s := x.(phase := Have(document, signature))], calls := calls)
    case PutDocument(s) =>
      if s !in m.sessions || !m.sessions[s].phase.Have? then m
      else
        var x := m.sessions[s];
        m.(objects := m.objects[SignedKey(x.place) := x.phase.document],
           sessions := m.sessions[s := x.(phase := HalfPut(x.phase.document, x.phase.signature))])
    case PutSignature(s) =>
      if s !in m.sessions || !m.sessions[s].phase.HalfPut? then m
      else
        var x := m.sessions[s];
        m.(objects := m.objects[SignatureKey(x.place) := x.phase.signature],
           sessions := m.sessions - {s},
           responses := m.responses + [Response(x.place, x.ask, x.phase.document, x.phase.signature)])
    case Crash(s) => m.(sessions := m.sessions - {s})
  }

  function Run(m: Machine, steps: seq<Step>): Machine
    decreases |steps|
  {
    if steps == [] then m else Next(Run(m, steps[..|steps| - 1]), steps[|steps| - 1])
  }

  /** The step admits a request to sign for its place. */
  predicate Opens(m: Machine, step: Step) {
    step.Check? && step.s !in m.sessions && IsPlace(step.place) && !Complete(m.objects, step.place)
  }

  /** No request is signing for the place. */
  predicate PlaceFree(m: Machine, p: Place) {
    forall s :: s in m.sessions ==> m.sessions[s].place != p
  }

  /** From `m` on no request is admitted while another one signs for the same place.
      Requests for different places may overlap in any way. */
  ghost predicate NoOverlap(m: Machine, steps: seq<Step>)
    decreases |steps|
  {
    steps == [] ||
    (var n := |steps| - 1;
     NoOverlap(m, steps[..n]) &&
     (Opens(Run(m, steps[..n]), steps[n]) ==> PlaceFree(Run(m, steps[..n]), steps[n].place)))
  }

  // ----- invariant -----

  /** A signature is there only beside the document of the same call. */
  predicate PairSound(objects: Objects, p: Place) {
    SignatureKey(p) in objects ==>
      SignedKey(p) in objects && objects[SignedKey(p)].call == objects[SignatureKey(p)].call
  }

  /** Provider call number `call` was made for `ask`. */
  predicate MadeFor(calls: seq<ProviderCall>, call: nat, ask: Ask) {
    call < |calls| && calls[call].ask == ask
  }

  /** A request in progress works on a place without a signature. */
  predicate SessionSound(m: Machine, x: Session) {
    IsPlace(x.place) && SignatureKey(x.place) !in m.objects &&
    match x.phase
    case Checked => true
    case Have(d, s) => d.call == s.call && MadeFor(m.calls, d.call, x.ask)
    case HalfPut(d, s) =>
      d.call == s.call && MadeFor(m.calls, d.call, x.ask) &&
      SignedKey(x.place) in m.objects && m.objects[SignedKey(x.place)] == d
  }

  ghost predicate Inv(m: Machine) {
    (forall p :: IsPlace(p) ==> PairSound(m.objects, p)) &&
    (forall s :: s in m.sessions ==> SessionSound(m, m.sessions[s])) &&
    (forall s, t :: s in m.sessions && t in m.sessions && s != t ==> m.sessions[s].place != m.sessions[t].place) &&
    (forall i :: 0 <= i < |m.responses| ==>
      IsPlace(m.responses[i].place) && Complete(m.objects, m.responses[i].place) &&
      m.responses[i] == Reported(m.objects, m.responses[i].place, m.responses[i].ask))
  }

  /** Storing an object of one place touches no object of another. */
  lemma PutApart(p: Place, k: Key)
    requires IsPlace(p) && (k == SignedKey(p) || k == SignatureKey(p))
    ensures forall q :: IsPlace(q) && q != p ==> SignedKey(q) != k && SignatureKey(q) != k
    ensures SignedKey(p) != SignatureKey(p)
  {
    KeysApart(p, p);
    forall q | IsPlace(q) && q != p ensures SignedKey(q) != k && SignatureKey(q) != k {
      KeysApart(p, q);
      KeysApart(q, p);
    }
  }

  lemma InvCheck(m: Machine, step: Step)
    requires Inv(m) && step.Check? && (Opens(m, step) ==> PlaceFree(m, step.place))
    ensures Inv(Next(m, step))
  {
    if Opens(m, step) {
      assert PairSound(m.objects, step.place);
    }
  }

  lemma InvSign(m: Machine, step: Step)
    requires Inv(m) && step.Sign?
    ensures Inv(Next(m, step))
  {
  }

  lemma InvPutDocument(m: Machine, s: nat)
    requires Inv(m) && s in m.sessions && m.sessions[s].phase.Have?
    ensures Inv(Next(m, PutDocument(s)))
  {
    var x := m.sessions[s];
    var n := Next(m, PutDocument(s));
    assert SessionSound(m, x);
    PutApart(x.place, SignedKey(x.place));
    forall p | IsPlace(p) ensures PairSound(n.objects, p) {
      assert PairSound(m.objects, p);
    }
    forall t | t in n.sessions ensures SessionSound(n, n.sessions[t]) {
      assert SessionSound(m, m.sessions[t]);
    }
  }

  lemma InvPutSignature(m: Machine, s: nat)
    requires Inv(m) && s in m.sessions && m.sessions[s].phase.HalfPut?
    ensures Inv(Next(m, PutSignature(s)))
  {
    var x := m.sessions[s];
    var n := Next(m, PutSignature(s));
    assert SessionSound(m, x);
    PutApart(x.place, SignatureKey(x.place));
    forall p | IsPlace(p) ensures PairSound(n.objects, p) {
      assert PairSound(m.objects, p);
    }
    forall t | t in n.sessions ensures SessionSound(n, n.sessions[t]) {
      assert SessionSound(m, m.sessions[t]);
    }
  }

  lemma InvStep(m: Machine, step: Step)
    requires Inv(m) && (Opens(m, step) ==> PlaceFree(m, step.place))
    ensures Inv(Next(m, step))
  {
    match step
    case Check(s, p, ask) => InvCheck(m, step);
    case Sign(s, result) => InvSign(m, step);
    case PutDocument(s) => if s in m.sessions && m.sessions[s].phase.Have? { InvPutDocument(m, s); }
    case PutSignature(s) => if s in m.sessions && m.sessions[s].phase.HalfPut? { InvPutSignature(m, s); }
    case Crash(s) =>
  }

  lemma {:induction false} InvRun(m: Machine, steps: seq<Step>)
    requires Inv(m) && NoOverlap(m, steps)
    ensures Inv(Run(m, steps))
    decreases |steps|
  {
    if steps != [] {
      var n := |steps| - 1;
      InvRun(m, steps[..n]);
      InvStep(Run(m, steps[..n]), steps[n]);
    }
  }

  // ----- what a client sees -----

  /** If both objects of the place exist they come from one call of the provider, and
      every response ever given for it reports exactly the pair that is stored now. */
  predicate Consistent(m: Machine, p: Place) {
    (Complete(m.objects, p) ==> m.objects[SignedKey(p)].call == m.objects[SignatureKey(p)].call) &&
    forall i :: 0 <= i < |m.responses| && m.responses[i].place == p ==>
      Complete(m.objects, p) && m.responses[i] == Reported(m.objects, p, m.responses[i].ask)
  }

  /** Every place is consistent after every run in which no two requests for one place
      overlap, whatever crashes and however requests for other places run in between. */
  lemma PairsConsistent(steps: seq<Step>, p: Place)
    requires NoOverlap(EMPTY, steps) && IsPlace(p)
    ensures Consistent(Run(EMPTY, steps), p)
  {
    InvRun(EMPTY, steps);
    assert PairSound(Run(EMPTY, steps).objects, p);
  }

  predicate SamePair(a: Objects, b: Objects, p: Place)
    requires Complete(a, p) && Complete(b, p)
  {
    a[SignedKey(p)] == b[SignedKey(p)] && a[SignatureKey(p)] == b[SignatureKey(p)]
  }

  lemma CompleteStep(m: Machine, step: Step, p: Place)
    requires Inv(m) && IsPlace(p) && Complete(m.objects, p)
    ensures Complete(Next(m, step).objects, p) && SamePair(m.objects, Next(m, step).objects, p)
  {
    if step.s in m.sessions {
      assert SessionSound(m, m.sessions[step.s]);
      KeysApart(p, m.sessions[step.s].place);
      KeysApart(m.sessions[step.s].place, p);
    }
  }

  /** Once both objects exist neither is ever overwritten. */
  lemma {:induction false} CompleteForever(before: seq<Step>, after: seq<Step>, p: Place)
    requires NoOverlap(EMPTY, before + after) && IsPlace(p) && Complete(Run(EMPTY, before).objects, p)
    ensures Complete(Run(EMPTY, before + after).objects, p)
    ensures SamePair(Run(EMPTY, before).objects, Run(EMPTY, before + after).objects, p)
    decreases |after|
  {
    if after == [] {
      assert before + after == before;
    } else {
      var n := |after| - 1;
      SplitLast(before, after);
      CompleteForever(before, after[..n], p);
      InvRun(EMPTY, before + after[..n]);
      CompleteStep(Run(EMPTY, before + after[..n]), after[n], p);
    }
  }

  // ----- each object holds its own part of what the provider returned -----

  /** The object holds the document that its provider call returned. */
  predicate IsDocument(calls: seq<ProviderCall>, x: Object) {
    x.call < |calls| && calls[x.call].result.Some? && x.bytes == calls[x.call].result.value.document
  }

  /** The object holds the signature that its provider call returned. */
  predicate IsSignature(calls: seq<ProviderCall>, x: Object) {
    x.call < |calls| && calls[x.call].result.Some? && x.bytes == calls[x.call].result.value.signature
  }

  predicate StoredParts(m: Machine, p: Place) {
    (SignedKey(p) in m.objects ==> IsDocument(m.calls, m.objects[SignedKey(p)])) &&
    (SignatureKey(p) in m.objects ==> IsSignature(m.calls, m.objects[SignatureKey(p)]))
  }

  ghost predicate PartsSound(m: Machine) {
    (forall p :: IsPlace(p) ==> StoredParts(m, p)) &&
    (forall s :: s in m.sessions ==>
      IsPlace(m.sessions[s].place) &&
      (!m.sessions[s].phase.Checked? ==>
        IsDocument(m.calls, m.sessions[s].phase.document) && IsSignature(m.calls, m.sessions[s].phase.signature))) &&
    (forall i :: 0 <= i < |m.responses| ==>
      IsDocument(m.calls, m.responses[i].document) && IsSignature(m.calls, m.responses[i].signature))
  }

  lemma PartsAfterPut(m: Machine, n: Machine, p: Place, k: Key, x: Object)
    requires PartsSound(m) && IsPlace(p) && n.objects == m.objects[k := x] && n.calls == m.calls
    requires (k == SignedKey(p) && IsDocument(m.calls, x)) || (k == SignatureKey(p) && IsSignature(m.calls, x))
    ensures forall q :: IsPlace(q) ==> StoredParts(n, q)
  {
    PutApart(p, k);
    forall q | IsPlace(q) ensures StoredParts(n, q) {
      assert StoredParts(m, q);
    }
  }

  lemma PartsStep(m: Machine, step: Step)
    requires PartsSound(m)
    ensures PartsSound(Next(m, step))
  {
    var n := Next(m, step);
    if step.PutDocument? && n != m {
      var x := m.sessions[step.s];
      PartsAfterPut(m, n, x.place, SignedKey(x.place), x.phase.document);
    } else if step.PutSignature? && n != m {
      var x := m.sessions[step.s];
      PartsAfterPut(m, n, x.place, SignatureKey(x.place), x.phase.signature);
    } else {
      forall p | IsPlace(p) ensures StoredParts(n, p) {
        assert StoredParts(m, p);
      }
    }
  }

  lemma {:induction false} PartsRun(m: Machine, steps: seq<Step>)
    requires PartsSound(m)
    ensures PartsSound(Run(m, steps))
    decreases |steps|
  {
    if steps != [] {
      PartsRun(m, steps[..|steps| - 1]);
      PartsStep(Run(m, steps[..|steps| - 1]), steps[|steps| - 1]);
    }
  }

  /** In every run, overlapping requests and crashes included: the object under a place's
      document key is the document of some provider call and the one under its signature
      key a signature, and so are the two objects of every response. */
  lemma PartsInPlace(steps: seq<Step>, p: Place, i: nat)
    requires IsPlace(p)
    ensures var m := Run(EMPTY, steps);
      (SignedKey(p) in m.objects ==> IsDocument(m.calls, m.objects[SignedKey(p)])) &&
      (SignatureKey(p) in m.objects ==> IsSignature(m.calls, m.objects[SignatureKey(p)])) &&
      (i < |m.responses| ==>
        IsDocument(m.calls, m.responses[i].document) && IsSignature(m.calls, m.responses[i].signature))
  {
    PartsRun(EMPTY, steps);
    assert StoredParts(Run(EMPTY, steps), p);
  }

  // ----- exactly when one more request is harmless -----

  /** `ms` are the machines a run goes through. */
  lemma {:induction false} TraceIsRun(m: Machine, steps: seq<Step>, ms: seq<Machine>)
    requires |ms| == |steps| + 1 && ms[0] == m
    requires forall i :: 0 <= i < |steps| ==> Next(ms[i], steps[i]) == ms[i + 1]
    ensures Run(m, steps) == ms[|steps|]
    decreases |steps|
  {
    if steps != [] {
      TraceIsRun(m, steps[..|steps| - 1], ms[..|steps|]);
    }
  }

  lemma {:induction false} ChecksOnlyOverlap(m: Machine, steps: seq<Step>)
    requires forall i :: 0 <= i < |steps| ==> !steps[i].Check?
    ensures NoOverlap(m, steps)
    decreases |steps|
  {
    if steps != [] {
      ChecksOnlyOverlap(m, steps[..|steps| - 1]);
    }
  }

  /** Two requests signing for one place, however far the first has come: it stores its
      document, the other one stores its own over it, and the first its signature. */
  lemma MixedPair(m: Machine, t: nat, s: nat, p: Place) returns (steps: seq<Step>)
    requires IsPlace(p) && t != s && t in m.sessions && s in m.sessions
    requires m.sessions[t].place == p && SessionSound(m, m.sessions[t])
    requires m.sessions[s].place == p && m.sessions[s].phase.Checked?
    ensures NoOverlap(m, steps)
    ensures var n := Run(m, steps);
      Complete(n.objects, p) && n.objects[SignedKey(p)].call != n.objects[SignatureKey(p)].call
  {
    KeysApart(p, p);
    var signed := Some(Signed("d", "s"));
    steps := [Sign(t, signed), PutDocument(t), Sign(s, signed), PutDocument(s), PutSignature(t)];
    ChecksOnlyOverlap(m, steps);
    var m1 := Next(m, steps[0]);
    var m2 := Next(m1, steps[1]);
    assert m2.sessions[t].phase.HalfPut? && m2.sessions[t].phase.signature.call < |m2.calls|;
    var m3 := Next(m2, steps[2]);
    var m4 := Next(m3, steps[3]);
    TraceIsRun(m, steps, [m, m1, m2, m3, m4, Next(m4, steps[4])]);
  }

  /** The place stays consistent in every continuation in which no further requests for
      one place overlap. */
  ghost predicate StaysConsistent(m: Machine, p: Place) {
    forall steps :: NoOverlap(m, steps) ==> Consistent(Run(m, steps), p)
  }

  /** In a state reached without overlaps, with the pair of `p` incomplete, one more
      request for `p` is harmless exactly when no request is signing for `p`. */
  lemma HarmlessIff(before: seq<Step>, s: nat, p: Place, ask: Ask)
    requires NoOverlap(EMPTY, before) && Opens(Run(EMPTY, before), Check(s, p, ask))
    ensures StaysConsistent(Next(Run(EMPTY, before), Check(s, p, ask)), p) <==> PlaceFree(Run(EMPTY, before), p)
  {
    var m := Run(EMPTY, before);
    var n := Next(m, Check(s, p, ask));
    InvRun(EMPTY, before);
    if PlaceFree(m, p) {
      InvStep(m, Check(s, p, ask));
      forall steps | NoOverlap(n, steps) ensures Consistent(Run(n, steps), p) {
        InvRun(n, steps);
        assert PairSound(Run(n, steps).objects, p);
      }
    } else {
      var t :| t in m.sessions && m.sessions[t].place == p;
      assert SessionSound(m, m.sessions[t]);
      var steps := MixedPair(n, t, s, p);
      assert !Consistent(Run(n, steps), p);
    }
  }

  /** From an empty store two overlapping requests suffice. */
  lemma MixedFromEmpty(p: Place, ask: Ask, other: Ask) returns (steps: seq<Step>)
    requires IsPlace(p)
    ensures NoOverlap(Run(EMPTY, [Check(0, p, ask), Check(1, p, other)]), steps)
    ensures !Consistent(Run(Run(EMPTY, [Check(0, p, ask), Check(1, p, other)]), steps), p)
  {
    var m1 := Next(EMPTY, Check(0, p, ask));
    var m2 := Next(m1, Check(1, p, other));
    TraceIsRun(EMPTY, [Check(0, p, ask), Check(1, p, other)], [EMPTY, m1, m2]);
    steps := MixedPair(m2, 0, 1, p);
  }

  // ----- what an answer was made for -----

  /** An answered request got the outcome of a provider call for its own document, provider
      and metadata if and only if the document now stored under its place was made for
      them. The endpoint never looks at what a stored pair was made for. */
  lemma OwnAskIff(steps: seq<Step>, i: nat)
    requires NoOverlap(EMPTY, steps) && i < |Run(EMPTY, steps).responses|
    ensures var m := Run(EMPTY, steps);
      var r := m.responses[i];
      Complete(m.objects, r.place) &&
      ((exists c :: MadeFor(m.calls, c, r.ask) && r.document.call == c == r.signature.call) <==>
        MadeFor(m.calls, m.objects[SignedKey(r.place)].call, r.ask))
  {
    InvRun(EMPTY, steps);
    assert PairSound(Run(EMPTY, steps).objects, Run(EMPTY, steps).responses[i].place);
  }

  /** A request that is signed, rather than answered from the store, gets what was made for it. */
  lemma SignedForItself(steps: seq<Step>, s: nat)
    requires NoOverlap(EMPTY, steps)
    requires var m := Run(EMPTY, steps); s in m.sessions && m.sessions[s].phase.HalfPut?
    ensures var m, n := Run(EMPTY, steps), Next(Run(EMPTY, steps), PutSignature(s));
      var r := n.responses[|m.responses|];
      |n.responses| == |m.responses| + 1 && r.ask == m.sessions[s].ask && r.place == m.sessions[s].place &&
      r.document.call == r.signature.call && MadeFor(n.calls, r.document.call, r.ask) &&
      IsDocument(n.calls, r.document) && IsSignature(n.calls, r.signature)
  {
    InvRun(EMPTY, steps);
    PartsRun(EMPTY, steps);
    assert SessionSound(Run(EMPTY, steps), Run(EMPTY, steps).sessions[s]);
  }

  /** With both objects there every newcomer is answered with them, whatever it asks, and
      the provider is not called. */
  lemma StoredAnswersAll(m: Machine, s: nat, p: Place, ask: Ask)
    requires s !in m.sessions && IsPlace(p) && Complete(m.objects, p)
    ensures Next(m, Check(s, p, ask)) ==
      m.(responses := m.responses + [Response(p, ask, m.objects[SignedKey(p)], m.objects[SignatureKey(p)])])
  {
  }

  /** A request for another document, or from another provider, under the same place is
      answered with the first one's pair. */
  lemma OtherAskAnswered(p: Place, ask: Ask, other: Ask, signed: Signed) returns (steps: seq<Step>)
    requires IsPlace(p) && ask != other
    ensures NoOverlap(EMPTY, steps)
    ensures var m := Run(EMPTY, steps);
      |m.responses| == 2 && m.responses[0].ask == ask && m.responses[1] == m.responses[0].(ask := other) &&
      m.calls == [ProviderCall(ask, Some(signed))] && !MadeFor(m.calls, m.responses[1].document.call, other)
  {
    KeysApart(p, p);
    var d, g := Object(signed.document, 0), Object(signed.signature, 0);
    var first := [Check(0, p, ask), Sign(0, Some(signed)), PutDocument(0), PutSignature(0)];
    var calls := [ProviderCall(ask, Some(signed))];
    var stored := Machine(map[SignedKey(p) := d, SignatureKey(p) := g], map[], calls, [Response(p, ask, d, g)]);
    var ms := [
      EMPTY,
      Machine(map[], map[0 := Session(p, ask, Checked)], [], []),
      Machine(map[], map[0 := Session(p, ask, Have(d, g))], calls, []),
      Machine(map[SignedKey(p) := d], map[0 := Session(p, ask, HalfPut(d, g))], calls, []),
      stored];
    forall i | 0 <= i < |first| ensures Next(ms[i], first[i]) == ms[i + 1] {
    }
    TraceIsRun(EMPTY, first, ms);
    AloneNoOverlap(first);
    Extended(first, Check(1, p, other));
    steps := first + [Check(1, p, other)];
    StoredAnswersAll(stored, 1, p, other);
  }

  lemma AloneNoOverlap(steps: seq<Step>)
    requires |steps| == 4 && forall i :: 0 < i < 4 ==> !steps[i].Check?
    ensures NoOverlap(EMPTY, steps)
  {
    assert steps[..4] == steps && steps[..4][..3] == steps[..3] && steps[..3][..2] == steps[..2];
    assert steps[..2][..1] == steps[..1] && steps[..1][..0] == [];
    assert NoOverlap(EMPTY, steps[..1]);
    assert NoOverlap(EMPTY, steps[..2]);
    assert NoOverlap(EMPTY, steps[..3]);
  }

  // ----- the endpoint -----

  /** Where one request is cut off. */
  datatype Cut = Uncut | BeforePuts | BetweenPuts

  /** The machine after one request nobody interferes with. */
  function ServedAlone(m: Machine, p: Place, ask: Ask, result: Option<Signed>, cut: Cut): Machine {
    var called := Next(Next(m, Check(0, p, ask)), Sign(0, result));
    match cut
    case Uncut => Next(Next(called, PutDocument(0)), PutSignature(0))
    case BeforePuts => Next(called, Crash(0))
    case BetweenPuts => Next(Next(called, PutDocument(0)), Crash(0))
  }

  class Service {
    var objects: Objects
    var calls: seq<ProviderCall>

    constructor ()
      ensures objects == map[] && calls == []
    {
      objects := map[];
      calls := [];
    }

    /** `sign_document` past the input checks; no response when the provider raises or the request is cut off. */
    method SignDocument(p: Place, ask: Ask, result: Option<Signed>, cut: Cut) returns (r: Option<Response>)
      requires IsPlace(p)
      modifies this
      ensures var m := ServedAlone(Machine(old(objects), map[], old(calls), []), p, ask, result, cut);
        objects == m.objects && calls == m.calls && m.sessions == map[] &&
        m.responses == if r.Some? then [r.value] else []
      ensures Complete(old(objects), p) ==>
        objects == old(objects) && calls == old(calls) && r == Some(Reported(objects, p, ask))
      ensures !Complete(old(objects), p) ==>
        calls == old(calls) + [ProviderCall(ask, result)] &&
        (result.None? || cut.BeforePuts? ==> objects == old(objects) && r.None?) &&
        (result.Some? && cut.BetweenPuts? ==>
          objects == old(objects)[SignedKey(p) := Object(result.value.document, |old(calls)|)] && r.None?) &&
        (result.Some? && cut.Uncut? ==>
          objects == old(objects)[SignedKey(p) := Object(result.value.document, |old(calls)|)][
            SignatureKey(p) := Object(result.value.signature, |old(calls)|)] &&
          r == Some(Reported(objects, p, ask)))
    {
      KeysApart(p, p);
      if SignedKey(p) in objects && SignatureKey(p) in objects {
        return Some(Response(p, ask, objects[SignedKey(p)], objects[SignatureKey(p)]));
      }
      var call := |calls|;
      calls := calls + [ProviderCall(ask, result)];
      if result.None? || cut.BeforePuts? {
        return None;
      }
      var document, signature := Object(result.value.document, call), Object(result.value.signature, call);
      objects := objects[SignedKey(p) := document];
      if cut.BetweenPuts? {
        return None;
      }
      objects := objects[SignatureKey(p) := signature];
      return Some(Response(p, ask, document, signature));
    }
  }
}
