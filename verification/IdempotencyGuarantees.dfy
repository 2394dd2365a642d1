/** What clients of the keyed endpoints can rely on, over every interleaving. */
module IdempotencyGuarantees {
  import opened Wrappers
  import opened Sequences
  import opened IdempotencyStore
  import opened IdempotentWrites

  // ----- what one request is answered -----

  /** `b` is the body with its idempotency key and how it was obtained. */
  predicate StampedAs(b: Body, body: Body, key: string, status: string) {
    b.Keys == body.Keys + {"idempotency_key", "idempotency_status"} &&
    b["idempotency_key"] == key && b["idempotency_status"] == status &&
    forall p :: p in body && p != "idempotency_key" && p != "idempotency_status" ==> b[p] == body[p]
  }

  /** Under a free key the provider is called. Its answer is stored with code 200 and given
      as new; an unavailable provider is stored and given as a 503 and any other exception
      as a 502 that may be retried. */
  lemma FirstAnswered(records: Records, k: StoreKey, hash: string, providerName: string, outcome: Outcome)
    requires k !in records
    ensures var (after, answer, called) := ServeKeyed(records, k, hash, TransportResult(providerName, outcome));
      called &&
      match outcome
      case Returned(body) =>
        after == records[k := Record(hash, Succeeded, Some(200), Some(body))] &&
        answer.Ok? && StampedAs(answer.body, body, k.key, "new")
      case Unavailable(code, provider, mode) =>
        var detail := map["category" := "provider_unavailable", "error" := code, "provider" := provider,
                          "mode" := mode, "retryable" := "false"];
        after == records[k := Record(hash, Errored, Some(503), Some(detail))] && answer == Failed(Fault(503, detail))
      case Raised =>
        var detail := map["category" := "provider_error", "error" := "provider_error",
                          "provider" := providerName, "retryable" := "true"];
        after == records[k := Record(hash, Errored, Some(502), Some(detail))] && answer == Failed(Fault(502, detail))
  {
  }

  /** Under a taken key nothing is called or stored: a record in processing, or without a
      body, is a 409, a stored fault is given again, and a stored response is replayed. */
  lemma RepeatAnswered(records: Records, k: StoreKey, hash: string, result: Result<Body, Fault>)
    requires k in records
    ensures var (after, answer, called) := ServeKeyed(records, k, hash, result);
      var rec := records[k];
      after == records && !called &&
      (rec.status == Processing || rec.body.None? ==> answer == InProgress) &&
      (rec.status == Errored && rec.body.Some? && rec.code.Some? && rec.code.value != 0 ==>
        answer == Failed(Fault(rec.code.value, rec.body.value))) &&
      (rec.status == Errored && rec.body.Some? && (rec.code.None? || rec.code == Some(0)) ==>
        answer == Failed(Fault(503, rec.body.value))) &&
      (rec.status == Succeeded && rec.body.Some? ==>
        answer.Ok? && StampedAs(answer.body, rec.body.value, k.key, "replayed"))
  {
  }

  /** Without a key, or with an empty one, the provider is called every time and nothing is stored. */
  lemma UnkeyedAnswered(m: Machine, r: nat, providerName: string, outcome: Outcome)
    requires At(m, r, Arrived) && (m.reqs[r].key.None? || m.reqs[r].key == Some(""))
    ensures var n := Next(m, Call(r, providerName, outcome));
      n.records == m.records && n.calls == m.calls + [r] && r in n.pcs && n.pcs[r].Answered? &&
      match outcome
      case Returned(body) => n.pcs[r].answer == Ok(body["idempotency_status" := "new"])
      case Unavailable(_, _, _) => n.pcs[r].answer.Failed? && n.pcs[r].answer.fault.code == 503
      case Raised => n.pcs[r].answer.Failed? && n.pcs[r].answer.fault.code == 502
    ensures Next(m, Lookup(r)) == Next(m, Start(r)) == Next(m, Finish(r)) == m
  {
  }

  // ----- at most one provider call per scope and key -----

  predicate SameKey(m: Machine, r: nat, u: nat) {
    r in m.reqs && u in m.reqs && m.reqs[r].Keyed() && m.reqs[u].Keyed() && m.reqs[r].At() == m.reqs[u].At()
  }

  /** Whatever the interleaving and whoever dies, two provider calls never serve one scope and key. */
  lemma AtMostOneCall(steps: seq<Step>, i: nat, j: nat)
    requires i < j < |Run(steps).calls|
    ensures var m := Run(steps); !SameKey(m, m.calls[i], m.calls[j])
  {
    InvRun(steps);
    assert CallsSound(Run(steps));
  }

  // ----- records only move forward -----

  /** Absent, then in processing, then finalized for good. */
  predicate Forward(before: Records, after: Records, k: StoreKey) {
    k in before ==>
      k in after && after[k].requestHash == before[k].requestHash &&
      (!before[k].status.Processing? ==> after[k] == before[k])
  }

  /** What the invariant says of the record under `k` and of the request about to move. */
  predicate LocallySound(m: Machine, r: nat, k: StoreKey) {
    (k in m.records ==> Owned(m, k)) && (r in m.reqs && r in m.pcs ==> PcSound(m, r))
  }

  lemma InvLocally(m: Machine, r: nat, k: StoreKey)
    requires Inv(m)
    ensures LocallySound(m, r, k) && (k in m.records <==> k in m.owners)
  {
  }

  lemma ForwardStep(m: Machine, step: Step, k: StoreKey)
    requires LocallySound(m, step.r, k)
    ensures Forward(m.records, Next(m, step).records, k)
    ensures k !in m.records && k in Next(m, step).records ==> Next(m, step).records[k].status.Processing?
  {
  }

  lemma ForwardTransitive(a: Records, b: Records, c: Records, k: StoreKey)
    requires Forward(a, b, k) && Forward(b, c, k)
    ensures Forward(a, c, k)
  {
  }

  lemma {:induction false} RecordsMoveForward(before: seq<Step>, after: seq<Step>, k: StoreKey)
    ensures Forward(Run(before).records, Run(before + after).records, k)
    decreases |after|
  {
    if after == [] {
      assert before + after == before;
    } else {
      var n := |after| - 1;
      RecordsMoveForward(before, after[..n], k);
      InvRun(before + after[..n]);
      var m := Run(before + after[..n]);
      InvLocally(m, after[n].r, k);
      ForwardStep(m, after[n], k);
      SplitLast(before, after);
      ForwardTransitive(Run(before).records, m.records, Next(m, after[n]).records, k);
    }
  }

  // ----- who holds a record in processing -----

  predicate InFlight(m: Machine, r: nat, k: StoreKey) {
    r in m.reqs && r in m.pcs && m.reqs[r].Keyed() && m.reqs[r].At() == k && (m.pcs[r].Owner? || m.pcs[r].Called?)
  }

  predicate DeathFree(steps: seq<Step>) {
    forall i :: 0 <= i < |steps| ==> !steps[i].Die?
  }

  lemma {:induction false} NobodyDies(steps: seq<Step>)
    requires DeathFree(steps)
    ensures forall r :: r in Run(steps).pcs ==> Run(steps).pcs[r] != Dead
    decreases |steps|
  {
    if steps != [] {
      NobodyDies(steps[..|steps| - 1]);
    }
  }

  /** Without deaths a record is in processing exactly while one request is in flight for it, and then only one is. */
  lemma ProcessingIsOwned(steps: seq<Step>, k: StoreKey)
    requires DeathFree(steps)
    ensures var m := Run(steps);
      ((k in m.records && m.records[k].status.Processing?) <==> exists r :: InFlight(m, r, k)) &&
      (forall r, u :: InFlight(m, r, k) && InFlight(m, u, k) ==> r == u)
  {
    var m := Run(steps);
    InvRun(steps);
    NobodyDies(steps);
    if k in m.records && m.records[k].status.Processing? {
      assert Owned(m, k);
      assert InFlight(m, m.owners[k], k);
    }
    forall r | InFlight(m, r, k)
      ensures k in m.records && m.records[k].status.Processing? && m.owners[k] == r
    {
      assert PcSound(m, r);
      assert Owned(m, k);
    }
  }

  // ----- replay agreement -----

  /** The answer a repeat of the owner's request gets: the same, except for how it was obtained. */
  function AsReplayed(answer: Answer): Answer {
    if answer.Ok? then Ok(answer.body["idempotency_status" := "replayed"]) else answer
  }

  /** Every answered keyed request is the owner, was turned away as in processing,
      or agrees with what the owner of its scope and key was answered. The
      request bodies are not compared. */
  lemma ReplayAgreement(steps: seq<Step>, r: nat)
    requires var m := Run(steps); r in m.reqs && r in m.pcs && m.reqs[r].Keyed() && m.pcs[r].Answered?
    ensures var m := Run(steps);
      var k := m.reqs[r].At();
      m.pcs[r].answer == InProgress ||
      (k in m.owners &&
       var owner := m.owners[k];
       SameKey(m, owner, r) && owner in m.pcs && m.pcs[owner].Answered? &&
       (owner == r || m.pcs[r].answer == AsReplayed(m.pcs[owner].answer)))
  {
    var m := Run(steps);
    InvRun(steps);
    assert PcSound(m, r);
    var k := m.reqs[r].At();
    if k in m.owners {
      assert Owned(m, k);
      if m.pcs[r].answer != InProgress && m.owners[k] != r {
        StampedAgain(m.records[k].body.value, k.key);
      }
    }
  }

  lemma StampedAgain(body: Body, key: string)
    ensures Stamped(body, key, "new")["idempotency_status" := "replayed"] == Stamped(body, key, "replayed")
  {
  }

  // ----- keys that are lost -----

  /** The record is in processing and its owner is dead. */
  predicate Lost(m: Machine, k: StoreKey) {
    k in m.records && k in m.owners && m.owners[k] in m.pcs &&
    m.records[k].status.Processing? && m.pcs[m.owners[k]] == Dead
  }

  predicate Processes(m: Machine, k: StoreKey) {
    k in m.records && m.records[k].status.Processing?
  }

  predicate IsFinal(m: Machine, k: StoreKey) {
    k in m.records && !m.records[k].status.Processing?
  }

  /** Once its owner has died before finalizing, a key is lost for good. */
  lemma {:induction false} LostForever(before: seq<Step>, after: seq<Step>, k: StoreKey)
    requires Lost(Run(before), k)
    ensures Lost(Run(before + after), k)
    decreases |after|
  {
    if after == [] {
      assert before + after == before;
    } else {
      var n := |after| - 1;
      LostForever(before, after[..n], k);
      InvRun(before + after[..n]);
      var m := Run(before + after[..n]);
      InvLocally(m, after[n].r, k);
      LostStep(m, after[n], k);
      SplitLast(before, after);
    }
  }

  lemma LostStep(m: Machine, step: Step, k: StoreKey)
    requires LocallySound(m, step.r, k) && Lost(m, k)
    ensures Lost(Next(m, step), k)
  {
  }

  lemma RunMore(before: seq<Step>, steps: seq<Step>, last: Step)
    ensures Run(before + (steps + [last])) == Next(Run(before + steps), last)
  {
    assert before + (steps + [last]) == before + steps + [last];
    Extended(before + steps, last);
  }

  lemma RunOne(before: seq<Step>, a: Step)
    ensures Run(before + [a]) == Next(Run(before), a)
  {
    Extended(before, a);
  }

  lemma RunTwo(before: seq<Step>, a: Step, b: Step)
    ensures Run(before + [a, b]) == Next(Next(Run(before), a), b)
  {
    RunOne(before, a);
    RunMore(before, [a], b);
    assert [a] + [b] == [a, b];
  }

  /** A record in processing can still be finalized by some continuation exactly
      when its owner is not dead. */
  lemma FinalizableIff(before: seq<Step>, k: StoreKey)
    requires Processes(Run(before), k)
    ensures (exists after :: IsFinal(Run(before + after), k)) <==> !Lost(Run(before), k)
  {
    var m := Run(before);
    InvRun(before);
    assert Owned(m, k);
    if Lost(m, k) {
      forall after ensures !IsFinal(Run(before + after), k) {
        LostForever(before, after, k);
      }
    } else {
      var r := m.owners[k];
      var after := [Call(r, "", Raised), Finish(r)];
      RunTwo(before, after[0], after[1]);
      OwnerFinishes(m, k, r);
    }
  }

  lemma OwnerFinishes(m: Machine, k: StoreKey, r: nat)
    requires Processes(m, k) && Owned(m, k) && m.owners[k] == r && m.pcs[r] != Dead
    ensures IsFinal(Next(Next(m, Call(r, "", Raised)), Finish(r)), k)
  {
  }

  /** Any free scope and key is lost by a request that dies right after taking it. */
  lemma LostByDeath(before: seq<Step>, r: nat, req: Request) returns (after: seq<Step>)
    requires r !in Run(before).reqs && req.Keyed() && req.At() !in Run(before).records
    ensures Lost(Run(before + after), req.At())
  {
    after := [Arrive(r, req), Lookup(r)] + [Start(r), Die(r)];
    RunTwo(before, Arrive(r, req), Lookup(r));
    RunTwo(before + [Arrive(r, req), Lookup(r)], Start(r), Die(r));
    assert before + after == before + [Arrive(r, req), Lookup(r)] + [Start(r), Die(r)];
    TakenThenDead(Run(before), r, req);
  }

  lemma TakenThenDead(m: Machine, r: nat, req: Request)
    requires r !in m.reqs && req.Keyed() && req.At() !in m.records
    ensures Lost(Next(Next(Next(Next(m, Arrive(r, req)), Lookup(r)), Start(r)), Die(r)), req.At())
  {
  }

  /** Every request that gets an answer under a lost key is turned away. */
  lemma LostTurnsAway(steps: seq<Step>, k: StoreKey, r: nat)
    requires var m := Run(steps);
      Lost(m, k) && r in m.reqs && r in m.pcs && m.reqs[r].Keyed() && m.reqs[r].At() == k && m.pcs[r].Answered?
    ensures Run(steps).pcs[r].answer == InProgress
  {
    var m := Run(steps);
    InvRun(steps);
    InvLocally(m, r, k);
  }

  // ----- whose body an answer is for -----

  /** `u` called the provider, and `r` was given the outcome. */
  predicate AnsweredBy(m: Machine, r: nat, u: nat) {
    SameKey(m, u, r) && u in m.calls && r in m.pcs && u in m.pcs && m.pcs[r].Answered? && m.pcs[u].Answered? &&
    m.pcs[r].answer == if u == r then m.pcs[u].answer else AsReplayed(m.pcs[u].answer)
  }

  /** A request that was answered and not turned away got the outcome of a call made for
      its own body if and only if the stored request hash is its own. The endpoints
      never compare the two. */
  lemma OwnBodyIff(steps: seq<Step>, r: nat)
    requires var m := Run(steps);
      r in m.reqs && r in m.pcs && m.reqs[r].Keyed() && m.pcs[r].Answered? && m.pcs[r].answer != InProgress
    ensures var m := Run(steps);
      var k := m.reqs[r].At();
      k in m.records &&
      ((exists u :: AnsweredBy(m, r, u) && m.reqs[u].requestHash == m.reqs[r].requestHash) <==>
        m.records[k].requestHash == m.reqs[r].requestHash)
  {
    var m := Run(steps);
    var k := m.reqs[r].At();
    InvRun(steps);
    ReplayAgreement(steps, r);
    assert PcSound(m, r);
    assert Owned(m, k);
    var owner := m.owners[k];
    assert PcSound(m, owner);
    assert AnsweredBy(m, r, owner);
    forall u | AnsweredBy(m, r, u) ensures u == owner {
      var i :| 0 <= i < |m.calls| && m.calls[i] == u;
      assert CallsSound(m) && m.calls[i] in m.reqs;
    }
  }

  /** Under a finalized record every newcomer is answered from it, whatever its body. */
  lemma RepeatIgnoresBody(before: seq<Step>, r: nat, req: Request)
    requires r !in Run(before).reqs && req.Keyed() && IsFinal(Run(before), req.At())
    ensures var m, n := Run(before), Run(before + [Arrive(r, req), Lookup(r)]);
      var answer := AnswerFrom(m.records[req.At()], req.key.value);
      answer.Some? && answer.value != InProgress && n.records == m.records && n.calls == m.calls &&
      n.reqs == m.reqs[r := req] && n.pcs == m.pcs[r := Answered(answer.value)]
  {
    InvRun(before);
    assert Owned(Run(before), req.At());
    RunTwo(before, Arrive(r, req), Lookup(r));
  }

  /** Two requests with different bodies under one key: the second gets the first one's
      response, and the provider never sees its body. */
  lemma OtherBodyReplayed(first: Request, second: Request, body: Body) returns (steps: seq<Step>)
    requires first.Keyed() && second.Keyed() && first.At() == second.At() && first.requestHash != second.requestHash
    ensures var m := Run(steps);
      0 in m.reqs && m.reqs[0] == first && 1 in m.reqs && m.reqs[1] == second && m.calls == [0] &&
      1 in m.pcs && m.pcs[1] == Answered(Ok(Stamped(body, second.key.value, "replayed"))) &&
      !(exists u :: AnsweredBy(m, 1, u) && m.reqs[u].requestHash == second.requestHash)
  {
    steps := ServedFirst(first, body);
    RepeatIgnoresBody(steps, 1, second);
    steps := steps + [Arrive(1, second), Lookup(1)];
    OwnBodyIff(steps, 1);
  }

  lemma ServedFirst(req: Request, body: Body) returns (steps: seq<Step>)
    requires req.Keyed()
    ensures var m := Run(steps);
      m.records == map[req.At() := Record(req.requestHash, Succeeded, Some(200), Some(body))] &&
      m.reqs == map[0 := req] && m.calls == [0]
  {
    var a, b := [Arrive(0, req), Lookup(0)], [Start(0), Call(0, "", Returned(body))];
    steps := a + b + [Finish(0)];
    assert [] + a == a;
    RunTwo([], a[0], a[1]);
    RunTwo(a, b[0], b[1]);
    RunOne(a + b, Finish(0));
    FirstAlone(req, body);
  }

  lemma FirstAlone(req: Request, body: Body)
    requires req.Keyed()
    ensures var m := ServedAlone(IDLE, 0, req, "", Returned(body));
      m.records == map[req.At() := Record(req.requestHash, Succeeded, Some(200), Some(body))] &&
      m.reqs == map[0 := req] && m.calls == [0]
  {
    HandlerIsRun(IDLE, 0, req, "", Returned(body));
  }

  // ----- scopes and keys do not affect each other -----

  /** The requests of one scope and key see the same record and take the same steps in both machines. */
  ghost predicate SameView(m: Machine, n: Machine, k: StoreKey, ids: set<nat>) {
    (k in m.records <==> k in n.records) && (k in m.records ==> m.records[k] == n.records[k]) &&
    forall r :: r in ids ==>
      (r in m.reqs <==> r in n.reqs) && (r in m.pcs <==> r in n.pcs) &&
      (r in m.reqs ==> m.reqs[r] == n.reqs[r] && m.reqs[r].Keyed() && m.reqs[r].At() == k) &&
      (r in m.pcs ==> m.pcs[r] == n.pcs[r])
  }

  /** `ids` are the requests that arrive under `k`, and only those. */
  predicate Under(steps: seq<Step>, k: StoreKey, ids: set<nat>) {
    forall i :: 0 <= i < |steps| && steps[i].Arrive? ==>
      (steps[i].r in ids <==> steps[i].req.Keyed() && steps[i].req.At() == k)
  }

  /** The steps taken by the requests in `ids`. */
  function Only(steps: seq<Step>, ids: set<nat>): seq<Step>
    decreases |steps|
  {
    if steps == [] then []
    else
      var earlier := Only(steps[..|steps| - 1], ids);
      if steps[|steps| - 1].r in ids then earlier + [steps[|steps| - 1]] else earlier
  }

  /** Requests outside `ids` that have arrived are unkeyed or under another scope or key. */
  predicate Elsewhere(m: Machine, k: StoreKey, ids: set<nat>) {
    forall r :: r in m.reqs && r !in ids ==> !(m.reqs[r].Keyed() && m.reqs[r].At() == k)
  }

  lemma ViewKept(m: Machine, n: Machine, step: Step, k: StoreKey, ids: set<nat>)
    requires SameView(m, n, k, ids) && Elsewhere(m, k, ids) && step.r !in ids
    requires step.Arrive? ==> !(step.req.Keyed() && step.req.At() == k)
    ensures SameView(Next(m, step), n, k, ids) && Elsewhere(Next(m, step), k, ids)
  {
  }

  lemma ViewArrives(m: Machine, n: Machine, step: Step, k: StoreKey, ids: set<nat>)
    requires SameView(m, n, k, ids) && Elsewhere(m, k, ids) && step.r in ids
    requires step.Arrive? && step.req.Keyed() && step.req.At() == k
    ensures SameView(Next(m, step), Next(n, step), k, ids) && Elsewhere(Next(m, step), k, ids)
  {
  }

  lemma ViewLooksUp(m: Machine, n: Machine, step: Step, k: StoreKey, ids: set<nat>)
    requires SameView(m, n, k, ids) && Elsewhere(m, k, ids) && step.r in ids && (step.Lookup? || step.Die?)
    ensures SameView(Next(m, step), Next(n, step), k, ids) && Elsewhere(Next(m, step), k, ids)
  {
  }

  lemma ViewStarts(m: Machine, n: Machine, step: Step, k: StoreKey, ids: set<nat>)
    requires SameView(m, n, k, ids) && Elsewhere(m, k, ids) && step.r in ids && step.Start?
    ensures SameView(Next(m, step), Next(n, step), k, ids) && Elsewhere(Next(m, step), k, ids)
  {
  }

  lemma ViewCalls(m: Machine, n: Machine, step: Step, k: StoreKey, ids: set<nat>)
    requires SameView(m, n, k, ids) && Elsewhere(m, k, ids) && step.r in ids && step.Call?
    ensures SameView(Next(m, step), Next(n, step), k, ids) && Elsewhere(Next(m, step), k, ids)
  {
  }

  lemma ViewFinishes(m: Machine, n: Machine, step: Step, k: StoreKey, ids: set<nat>)
    requires SameView(m, n, k, ids) && Elsewhere(m, k, ids) && step.r in ids && step.Finish?
    ensures SameView(Next(m, step), Next(n, step), k, ids) && Elsewhere(Next(m, step), k, ids)
  {
  }

  lemma ViewMoves(m: Machine, n: Machine, step: Step, k: StoreKey, ids: set<nat>)
    requires SameView(m, n, k, ids) && Elsewhere(m, k, ids) && step.r in ids
    requires step.Arrive? ==> step.req.Keyed() && step.req.At() == k
    ensures SameView(Next(m, step), Next(n, step), k, ids) && Elsewhere(Next(m, step), k, ids)
  {
    match step
    case Arrive(_, _) => ViewArrives(m, n, step, k, ids);
    case Lookup(_) => ViewLooksUp(m, n, step, k, ids);
    case Die(_) => ViewLooksUp(m, n, step, k, ids);
    case Start(_) => ViewStarts(m, n, step, k, ids);
    case Call(_, _, _) => ViewCalls(m, n, step, k, ids);
    case Finish(_) => ViewFinishes(m, n, step, k, ids);
  }

  /** For the requests of one scope and key a run with everybody else in it is
      the run in which only they take steps. */
  lemma {:induction false} ScopesApart(steps: seq<Step>, k: StoreKey, ids: set<nat>)
    requires Under(steps, k, ids)
    ensures SameView(Run(steps), Run(Only(steps, ids)), k, ids) && Elsewhere(Run(steps), k, ids)
    decreases |steps|
  {
    if steps != [] {
      var n := |steps| - 1;
      var earlier := Only(steps[..n], ids);
      ScopesApart(steps[..n], k, ids);
      if steps[n].r in ids {
        ViewMoves(Run(steps[..n]), Run(earlier), steps[n], k, ids);
        Extended(earlier, steps[n]);
      } else {
        ViewKept(Run(steps[..n]), Run(earlier), steps[n], k, ids);
      }
    }
  }

  // ----- a request served alone -----

  /** The machine after the five steps of one request nobody interferes with. */
  function ServedAlone(m: Machine, r: nat, req: Request, providerName: string, outcome: Outcome): Machine {
    var looked := Next(Next(m, Arrive(r, req)), Lookup(r));
    Next(Next(Next(looked, Start(r)), Call(r, providerName, outcome)), Finish(r))
  }

  /** The handler of the endpoints is the run of one request nobody interferes with. */
  lemma HandlerIsRun(m: Machine, r: nat, req: Request, providerName: string, outcome: Outcome)
    requires r !in m.reqs && r !in m.pcs && req.Keyed()
    ensures var n := ServedAlone(m, r, req, providerName, outcome);
      var (records, answer, called) := ServeKeyed(m.records, req.At(), req.requestHash,
        TransportResult(providerName, outcome));
      n.records == records && r in n.pcs && n.pcs[r] == Answered(answer) &&
      n.calls == if called then m.calls + [r] else m.calls
  {
    var k, result := req.At(), TransportResult(providerName, outcome);
    var arrived := m.(reqs := m.reqs[r := req], pcs := m.pcs[r := Arrived]);
    assert Next(m, Arrive(r, req)) == arrived;
    var early := if k in m.records then AnswerFrom(m.records[k], k.key) else None;
    var looked := Next(arrived, Lookup(r));
    assert looked == Move(arrived, r, if early.Some? then Answered(early.value) else Missed);
    var started := Next(looked, Start(r));
    if early.Some? {
      AnsweredStays(looked, r, early.value, providerName, outcome);
    } else if k in m.records {
      assert started == Move(looked, r, Answered(InProgress));
      AnsweredStays(started, r, InProgress, providerName, outcome);
    } else {
      assert At(started, r, Owner) &&
        started.records == m.records[k := Record(req.requestHash, Processing, None, None)];
      OwnerConcludes(started, r, providerName, outcome);
    }
  }

  lemma AnsweredStays(m: Machine, r: nat, answer: Answer, providerName: string, outcome: Outcome)
    requires At(m, r, Answered(answer))
    ensures Next(m, Start(r)) == m && Next(m, Call(r, providerName, outcome)) == m && Next(m, Finish(r)) == m
  {
  }

  lemma OwnerConcludes(m: Machine, r: nat, providerName: string, outcome: Outcome)
    requires At(m, r, Owner) && m.reqs[r].Keyed()
    ensures var n := Next(Next(m, Call(r, providerName, outcome)), Finish(r));
      var (records, answer) := Conclude(m.records, m.reqs[r].At(), TransportResult(providerName, outcome));
      n.records == records && r in n.pcs && n.pcs[r] == Answered(answer) && n.calls == m.calls + [r]
  {
  }
}
