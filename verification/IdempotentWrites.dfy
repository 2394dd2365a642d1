/** Any number of requests against one idempotency store, their steps
    interleaved in any order, any of them dying at any point. */
module IdempotentWrites {
  import opened Wrappers
  import opened IdempotencyStore

  datatype Pc =
    | Arrived
    | Missed                               // the store had no answer
    | Owner                                // this request inserted the record
    | Called(result: Result<Body, Fault>)  // the provider has answered
    | Answered(answer: Answer)
    | Dead

  /** `owners` and `calls` only record history: who inserted each record, who called the provider. */
  datatype Machine = Machine(
    records: Records,
    reqs: map<nat, Request>,
    pcs: map<nat, Pc>,
    owners: map<StoreKey, nat>,
    calls: seq<nat>)

  datatype Step =
    | Arrive(r: nat, req: Request)
    | Lookup(r: nat)
    | Start(r: nat)
    | Call(r: nat, providerName: string, outcome: Outcome)
    | Finish(r: nat)
    | Die(r: nat)

  const IDLE: Machine := Machine(map[], map[], map[], map[], [])

  predicate At(m: Machine, r: nat, pc: Pc) {
    r in m.reqs && r in m.pcs && m.pcs[r] == pc
  }

  function Move(m: Machine, r: nat, pc: Pc): Machine {
    m.(pcs := m.pcs[r := pc])
  }

  /** One step; a step that cannot be taken leaves the machine as it is. */
  function Next(m: Machine, step: Step): Machine {
    match step
    case Arrive(r, req) =>
      if r in m.reqs then m else m.(reqs := m.reqs[r := req], pcs := m.pcs[r := Arrived])
    case Lookup(r) =>
      if !At(m, r, Arrived) || !m.reqs[r].Keyed() then m
      else
        var k := m.reqs[r].At();
        var early := if k in m.records then AnswerFrom(m.records[k], k.key) else None;
        Move(m, r, if early.Some? then Answered(early.value) else Missed)
    case Start(r) =>
      if !At(m, r, Missed) || !m.reqs[r].Keyed() then m
      else
        var k := m.reqs[r].At();
        if k in m.records then Move(m, r, Answered(InProgress))
        else
          Move(m, r, Owner).(
            records := m.records[k := Record(m.reqs[r].requestHash, Processing, None, None)],
            owners := m.owners[k := r])
    case Call(r, providerName, outcome) =>
      var result := TransportResult(providerName, outcome);
      if At(m, r, Owner) then Move(m, r, Called(result)).(calls := m.calls + [r])
      else if At(m, r, Arrived) && !m.reqs[r].Keyed() then
        // without a key the endpoint calls the provider and answers at once
        var answer := if result.Success? then Ok(result.value["idempotency_status" := "new"]) else Failed(result.error);
        Move(m, r, Answered(answer)).(calls := m.calls + [r])
      else m
    case Finish(r) =>
      if r !in m.reqs || r !in m.pcs || !m.pcs[r].Called? || !m.reqs[r].Keyed() then m
      else
        var (records, answer) := Conclude(m.records, m.reqs[r].At(), m.pcs[r].result);
        Move(m, r, Answered(answer)).(records := records)
    case Die(r) =>
      if r in m.pcs && !m.pcs[r].Answered? then Move(m, r, Dead) else m
  }

  function Run(steps: seq<Step>): Machine
    decreases |steps|
  {
    if steps == [] then IDLE else Next(Run(steps[..|steps| - 1]), steps[|steps| - 1])
  }

  // ----- invariant -----

  /** A finalized record holds what its owner answered; a record in processing has an
      owner that has not answered. */
  predicate RecordMatches(rec: Record, pc: Pc, key: string) {
    match rec.status
    case Processing => rec.body.None? && (pc.Owner? || pc.Called? || pc.Dead?)
    case Succeeded => rec.body.Some? && pc == Answered(Ok(Stamped(rec.body.value, key, "new")))
    case Errored =>
      rec.body.Some? && rec.code.Some? && rec.code.value != 0 &&
      pc == Answered(Failed(Fault(rec.code.value, rec.body.value)))
  }

  predicate Owned(m: Machine, k: StoreKey) {
    k in m.records && k in m.owners &&
    var r := m.owners[k];
    r in m.reqs && r in m.pcs && m.reqs[r].Keyed() && m.reqs[r].At() == k &&
    m.records[k].requestHash == m.reqs[r].requestHash && RecordMatches(m.records[k], m.pcs[r], k.key)
  }

  /** What a keyed request may have been answered. */
  predicate Justified(m: Machine, r: nat, answer: Answer)
    requires r in m.reqs && m.reqs[r].Keyed()
  {
    var k := m.reqs[r].At();
    answer == InProgress ||
    (k in m.owners && m.owners[k] == r) ||
    (k in m.records && m.records[k].body.Some? && AnswerFrom(m.records[k], k.key) == Some(answer))
  }

  predicate PcSound(m: Machine, r: nat)
    requires r in m.reqs && r in m.pcs
  {
    var owns := m.reqs[r].Keyed() && m.reqs[r].At() in m.owners && m.owners[m.reqs[r].At()] == r;
    match m.pcs[r]
    case Arrived => !owns && r !in m.calls
    case Missed => !owns && r !in m.calls && m.reqs[r].Keyed()
    case Owner => owns && r !in m.calls
    case Called(result) => owns && r in m.calls && (result.Failure? ==> result.error.code != 0)
    case Answered(answer) => m.reqs[r].Keyed() ==> Justified(m, r, answer) && (owns ==> r in m.calls)
    case Dead => true
  }

  predicate CallsSound(m: Machine) {
    (forall i :: 0 <= i < |m.calls| ==>
      m.calls[i] in m.reqs &&
      (m.reqs[m.calls[i]].Keyed() ==>
        m.reqs[m.calls[i]].At() in m.owners && m.owners[m.reqs[m.calls[i]].At()] == m.calls[i])) &&
    (forall i, j :: 0 <= i < j < |m.calls| ==> m.calls[i] != m.calls[j])
  }

  ghost predicate Inv(m: Machine) {
    m.reqs.Keys == m.pcs.Keys && m.records.Keys == m.owners.Keys &&
    (forall k :: k in m.records ==> Owned(m, k)) &&
    (forall r :: r in m.reqs ==> PcSound(m, r)) &&
    CallsSound(m)
  }

  // ----- every step keeps it -----

  lemma InvArrive(m: Machine, r: nat, req: Request)
    requires Inv(m) && r !in m.reqs
    ensures Inv(Next(m, Arrive(r, req)))
  {
    var n := Next(m, Arrive(r, req));
    forall k | k in n.records ensures Owned(n, k) {
      assert Owned(m, k);
    }
    forall k | k in m.owners ensures m.owners[k] != r {
      assert Owned(m, k);
    }
    forall u | u in n.reqs ensures PcSound(n, u) {
      if u != r { assert PcSound(m, u); }
    }
  }

  /** A request that owns nothing moves on without touching the records. */
  lemma InvMove(m: Machine, r: nat, pc: Pc)
    requires Inv(m) && r in m.reqs && PcSound(Move(m, r, pc), r)
    requires m.pcs[r].Arrived? || m.pcs[r].Missed?
    ensures Inv(Move(m, r, pc))
  {
    var n := Move(m, r, pc);
    assert PcSound(m, r);
    forall k | k in n.records ensures Owned(n, k) {
      assert Owned(m, k);
    }
    forall u | u in n.reqs ensures PcSound(n, u) {
      assert PcSound(m, u);
    }
  }

  lemma InvStart(m: Machine, r: nat)
    requires Inv(m)
    ensures Inv(Next(m, Start(r)))
  {
    if At(m, r, Missed) && m.reqs[r].Keyed() {
      assert PcSound(m, r);
      var k := m.reqs[r].At();
      if k in m.records {
        InvMove(m, r, Answered(InProgress));
      } else {
        var n := Next(m, Start(r));
        forall j | j in n.records ensures Owned(n, j) {
          if j != k { assert Owned(m, j); }
        }
        forall u | u in n.reqs ensures PcSound(n, u) {
          if u != r { assert PcSound(m, u); }
        }
      }
    }
  }

  lemma InvCallOwner(m: Machine, r: nat, result: Result<Body, Fault>)
    requires Inv(m) && At(m, r, Owner) && (result.Failure? ==> result.error.code != 0)
    ensures Inv(Move(m, r, Called(result)).(calls := m.calls + [r]))
  {
    var n := Move(m, r, Called(result)).(calls := m.calls + [r]);
    assert PcSound(m, r);
    forall k | k in n.records ensures Owned(n, k) {
      assert Owned(m, k);
    }
    forall u | u in n.reqs ensures PcSound(n, u) {
      assert PcSound(m, u);
    }
  }

  lemma InvCallUnkeyed(m: Machine, r: nat, answer: Answer)
    requires Inv(m) && At(m, r, Arrived) && !m.reqs[r].Keyed()
    ensures Inv(Move(m, r, Answered(answer)).(calls := m.calls + [r]))
  {
    var n := Move(m, r, Answered(answer));
    assert PcSound(m, r);
    InvMove(m, r, Answered(answer));
    forall u | u in n.reqs ensures PcSound(n.(calls := m.calls + [r]), u) {
      assert PcSound(n, u);
    }
    forall k | k in n.records ensures Owned(n.(calls := m.calls + [r]), k) {
      assert Owned(n, k);
    }
  }

  lemma InvCall(m: Machine, r: nat, providerName: string, outcome: Outcome)
    requires Inv(m)
    ensures Inv(Next(m, Call(r, providerName, outcome)))
  {
    if At(m, r, Owner) {
      InvCallOwner(m, r, TransportResult(providerName, outcome));
    } else if At(m, r, Arrived) && !m.reqs[r].Keyed() {
      InvCallUnkeyed(m, r, Next(m, Call(r, providerName, outcome)).pcs[r].answer);
    }
  }

  lemma InvFinish(m: Machine, r: nat)
    requires Inv(m)
    ensures Inv(Next(m, Finish(r)))
  {
    var n := Next(m, Finish(r));
    if n != m {
      assert PcSound(m, r);
      var k := m.reqs[r].At();
      assert Owned(m, k);
      forall j | j in n.records ensures Owned(n, j) {
        assert Owned(m, j);
      }
      forall u | u in n.reqs ensures PcSound(n, u) {
        assert PcSound(m, u);
      }
    }
  }

  lemma InvDie(m: Machine, r: nat)
    requires Inv(m)
    ensures Inv(Next(m, Die(r)))
  {
    var n := Next(m, Die(r));
    if n != m {
      forall k | k in n.records ensures Owned(n, k) {
        assert Owned(m, k);
      }
      forall u | u in n.reqs ensures PcSound(n, u) {
        assert PcSound(m, u);
      }
    }
  }

  lemma InvLookup(m: Machine, r: nat)
    requires Inv(m)
    ensures Inv(Next(m, Lookup(r)))
  {
    var n := Next(m, Lookup(r));
    if n != m {
      assert PcSound(m, r);
      var k := m.reqs[r].At();
      if k in m.records { assert Owned(m, k); }
      InvMove(m, r, n.pcs[r]);
    }
  }

  lemma InvStep(m: Machine, step: Step)
    requires Inv(m)
    ensures Inv(Next(m, step))
  {
    match step
    case Arrive(r, req) => if r !in m.reqs { InvArrive(m, r, req); }
    case Lookup(r) => InvLookup(m, r);
    case Start(r) => InvStart(m, r);
    case Call(r, providerName, outcome) => InvCall(m, r, providerName, outcome);
    case Finish(r) => InvFinish(m, r);
    case Die(r) => InvDie(m, r);
  }

  lemma {:induction false} InvRun(steps: seq<Step>)
    ensures Inv(Run(steps))
    decreases |steps|
  {
    if steps != [] {
      InvRun(steps[..|steps| - 1]);
      InvStep(Run(steps[..|steps| - 1]), steps[|steps| - 1]);
    }
  }
}
