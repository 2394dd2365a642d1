/** Exactly when an event can still come to be in the stream twice although nothing
    goes wrong any more. */
module OutboxDuplicates {
  import opened Sequences
  import opened EventOutbox
  import opened OutboxWorkers
  import opened OutboxGuarantees

  /** Deliveries so far, and one more if the event is still to be published. */
  function Expected(m: Machine, id: nat): nat
    requires id < |m.view|
  {
    multiset(m.stream)[id] + Ones(m.view[id].status == Pending)
  }

  /** In no clean continuation is the event in the stream twice. */
  ghost predicate StaysSingle(cfg: Config, before: seq<Step>, id: nat) {
    forall after :: Clean(after) ==> multiset(Run(cfg, before + after).stream)[id] <= 1
  }

  // ----- clean steps deliver no more than expected -----

  predicate CleanStep(step: Step) {
    !step.Rollback? && (step.Try? ==> !step.a.publish.DeliveredUnseen?)
  }

  lemma ExpectedAfterTry(cfg: Config, m: Machine, w: nat, a: Attempt, id: nat)
    requires CanTry(m, w) && m.view[m.todo[w][0]].status == Pending && id < |m.view| && !a.publish.DeliveredUnseen?
    ensures Expected(Next(cfg, m, Try(w, a)), id) <= Expected(m, id)
  {
    StreamAfterTry(m.stream, m.todo[w][0], a, id);
    DoneAfterTry(cfg, m.view[m.todo[w][0]], a);
  }

  lemma ExpectedStep(cfg: Config, m: Machine, step: Step, id: nat)
    requires Inv(cfg, m) && CleanStep(step) && id < |m.view|
    ensures id < |Next(cfg, m, step).view| && Expected(Next(cfg, m, step), id) <= Expected(m, id)
  {
    if step.Try? && CanTry(m, step.w) {
      assert TodoSound(m, step.w);
      assert Holds(m, step.w, m.todo[step.w][0]);
      assert RowSound(cfg, m, m.todo[step.w][0]);
      ExpectedAfterTry(cfg, m, step.w, step.a, id);
    }
  }

  lemma {:induction false} ExpectedRun(cfg: Config, before: seq<Step>, after: seq<Step>, id: nat)
    requires Clean(after) && id < |Run(cfg, before).view|
    ensures id < |Run(cfg, before + after).view|
    ensures Expected(Run(cfg, before + after), id) <= Expected(Run(cfg, before), id)
    decreases |after|
  {
    if after == [] {
      assert before + after == before;
    } else {
      var n := |after| - 1;
      SplitLast(before, after);
      ExpectedRun(cfg, before, after[..n], id);
      InvRun(cfg, before + after[..n]);
      ExpectedStep(cfg, Run(cfg, before + after[..n]), after[n], id);
    }
  }

  // ----- a pending event can be delivered without anything going wrong -----

  /** The second run continues the first one cleanly. */
  predicate Continues(a: seq<Step>, b: seq<Step>) {
    a <= b && Clean(b[|a|..])
  }

  lemma ContinuesFurther(a: seq<Step>, b: seq<Step>, c: seq<Step>)
    requires Continues(a, b) && Continues(b, c)
    ensures Continues(a, c)
  {
    forall i | 0 <= i < |c| - |a| ensures CleanStep(c[|a|..][i]) {
      if |a| + i < |b| {
        assert c[|a| + i] == b[|a| + i] == b[|a|..][i];
      } else {
        assert c[|a| + i] == c[|b|..][|a| + i - |b|];
      }
    }
  }

  lemma {:induction false} FreshWorker(used: set<nat>) returns (w: nat)
    ensures forall v :: v in used ==> v < w
    decreases |used|
  {
    w := 0;
    if used != {} {
      var v :| v in used;
      var other := FreshWorker(used - {v});
      w := if v < other then other else v + 1;
      assert forall u :: u in used ==> u == v || u in used - {v};
    }
  }

  predicate Fetchable(rows: seq<Event>, locked: set<nat>, now: int, id: nat) {
    id < |rows| && id !in locked && Due(rows[id], now)
  }

  lemma {:induction false} OldestFetchable(rows: seq<Event>, locked: set<nat>, now: int, n: nat) returns (oldest: nat)
    requires n <= |rows| && exists id: nat :: id < n && Fetchable(rows, locked, now, id)
    ensures Fetchable(rows, locked, now, oldest)
    ensures forall id: nat :: id < n && Fetchable(rows, locked, now, id) ==>
      rows[oldest].createdAt <= rows[id].createdAt
  {
    if exists id: nat :: id < n - 1 && Fetchable(rows, locked, now, id) {
      oldest := OldestFetchable(rows, locked, now, n - 1);
      if Fetchable(rows, locked, now, n - 1) && rows[n - 1].createdAt < rows[oldest].createdAt {
        oldest := n - 1;
      }
    } else {
      oldest := n - 1;
    }
  }

  /** The query always has a batch to return, and one with rows in it if there are any. */
  lemma {:induction false} SomeBatch(rows: seq<Event>, locked: set<nat>, now: int, size: nat) returns (batch: seq<nat>)
    ensures IsBatch(rows, locked, now, size, batch)
    ensures size > 0 && (exists id: nat :: Fetchable(rows, locked, now, id)) ==> batch != []
    decreases size
  {
    batch := [];
    if size > 0 && exists id: nat :: Fetchable(rows, locked, now, id) {
      var oldest := OldestFetchable(rows, locked, now, |rows|);
      var rest := SomeBatch(rows, locked + {oldest}, now, size - 1);
      batch := [oldest] + rest;
      BatchExtends(rows, locked, now, size, oldest, rest);
    } else {
      forall id | 0 <= id < |rows| && id !in locked && Due(rows[id], now) ensures size == 0 {
        assert Fetchable(rows, locked, now, id);
      }
    }
  }

  lemma BatchExtends(rows: seq<Event>, locked: set<nat>, now: int, size: nat, oldest: nat, rest: seq<nat>)
    requires size > 0 && Fetchable(rows, locked, now, oldest)
    requires forall id: nat :: Fetchable(rows, locked, now, id) ==> rows[oldest].createdAt <= rows[id].createdAt
    requires IsBatch(rows, locked + {oldest}, now, size - 1, rest)
    ensures IsBatch(rows, locked, now, size, [oldest] + rest)
  {
    var batch := [oldest] + rest;
    forall i | 0 < i < |batch| ensures batch[i] == rest[i - 1] && Fetchable(rows, locked, now, batch[i]) {
    }
    forall id | 0 <= id < |rows| && id !in locked && id !in batch && Due(rows[id], now)
      ensures |batch| == size && forall i :: 0 <= i < |batch| ==> rows[batch[i]].createdAt <= rows[id].createdAt
    {
      assert Fetchable(rows, locked, now, id);
      assert oldest in batch;
      forall x | x in rest ensures x in batch {
      }
    }
  }

  /** What delivering the next event of a session changes. */
  lemma DeliverNext(cfg: Config, m: Machine, w: nat)
    requires Inv(cfg, m) && w in m.todo && m.todo[w] != []
    ensures var n, head := Next(cfg, m, Try(w, Attempt(Delivered, 0))), m.todo[w][0];
      w in n.todo && n.todo[w] == m.todo[w][1..] && head !in n.todo[w] && head < |m.view| == |n.view| &&
      n.rows == m.rows && n.locks == m.locks && n.stream == m.stream + [head] &&
      forall id :: 0 <= id < |m.view| && id != head ==> n.view[id] == m.view[id]
  {
    assert TodoSound(m, w);
    assert Holds(m, w, m.todo[w][0]);
  }

  /** A session delivers all it has still to publish. */
  lemma {:induction false} DeliverAll(cfg: Config, a: seq<Step>, w: nat, id: nat) returns (b: seq<Step>)
    requires w in Run(cfg, a).todo && id < |Run(cfg, a).view|
    ensures Continues(a, b)
    ensures var m, n := Run(cfg, a), Run(cfg, b);
      w in n.todo && n.todo[w] == [] && n.locks == m.locks && n.rows == m.rows && |n.view| == |m.view| &&
      multiset(n.stream)[id] >= multiset(m.stream)[id] + Ones(id in m.todo[w]) &&
      (id !in m.todo[w] ==> n.view[id] == m.view[id])
    decreases |Run(cfg, a).todo[w]|
  {
    b := a;
    var m := Run(cfg, a);
    if m.todo[w] != [] {
      InvRun(cfg, a);
      DeliverNext(cfg, m, w);
      StreamAfterTry(m.stream, m.todo[w][0], Attempt(Delivered, 0), id);
      var next := RunMore(cfg, a, Try(w, Attempt(Delivered, 0)));
      assert m.todo[w] == [m.todo[w][0]] + m.todo[w][1..];
      b := DeliverAll(cfg, next, w, id);
      ContinuesFurther(a, next, b);
    }
  }

  /** The event lies in the table, pending and in nobody's hands. */
  predicate Waiting(m: Machine, id: nat) {
    id < |m.rows| && id !in m.locks && m.rows[id].status == Pending
  }

  /** A session that holds a pending event delivers it or gives it back. */
  lemma Release(cfg: Config, a: seq<Step>, id: nat) returns (b: seq<Step>)
    requires var m := Run(cfg, a); id in m.locks && id < |m.view| && m.view[id].status == Pending
    ensures Continues(a, b)
    ensures multiset(Run(cfg, b).stream)[id] >= multiset(Run(cfg, a).stream)[id]
    ensures multiset(Run(cfg, b).stream)[id] > multiset(Run(cfg, a).stream)[id] || Waiting(Run(cfg, b), id)
  {
    var m := Run(cfg, a);
    var w := m.locks[id];
    InvRun(cfg, a);
    assert RowSound(cfg, m, id);
    b := DeliverAll(cfg, a, w, id);
    if id !in m.todo[w] {
      var done := b;
      b := RunMore(cfg, done, Commit(w));
      ContinuesFurther(a, done, b);
    }
  }

  /** The session `w` has just fetched the batch, and `id` is in it or still waiting. */
  ghost predicate JustFetchedFor(m: Machine, n: Machine, w: nat, batch: seq<nat>, id: nat) {
    w in n.todo && n.todo[w] == batch != [] && n.rows == m.rows && n.stream == m.stream && |n.view| == |m.rows| &&
    Holds(n, w, batch[0]) && (id !in batch ==> id !in n.locks)
  }

  lemma FetchForIt(cfg: Config, a: seq<Step>, id: nat) returns (b: seq<Step>, w: nat, batch: seq<nat>)
    requires cfg.batchSize > 0 && Waiting(Run(cfg, a), id)
    ensures Continues(a, b) && JustFetchedFor(Run(cfg, a), Run(cfg, b), w, batch, id)
  {
    var m := Run(cfg, a);
    InvRun(cfg, a);
    var now := m.rows[id].nextAttemptAt;
    w := FreshWorker(m.todo.Keys);
    assert Fetchable(m.rows, m.locks.Keys, now, id);
    batch := SomeBatch(m.rows, m.locks.Keys, now, cfg.batchSize);
    assert CanFetch(cfg, m, w, now, batch);
    assert batch[0] in batch;
    b := RunMore(cfg, a, Fetch(w, now, batch));
  }

  /** One batch fetched, delivered and committed: the event was in it, or less is left to do. */
  lemma Round(cfg: Config, a: seq<Step>, id: nat) returns (b: seq<Step>)
    requires cfg.batchSize > 0 && Waiting(Run(cfg, a), id)
    ensures Continues(a, b) && multiset(Run(cfg, b).stream)[id] >= multiset(Run(cfg, a).stream)[id]
    ensures multiset(Run(cfg, b).stream)[id] > multiset(Run(cfg, a).stream)[id] ||
      (Waiting(Run(cfg, b), id) && WorkLeft(cfg, Run(cfg, b).rows) < WorkLeft(cfg, Run(cfg, a).rows))
  {
    var fetched, w, batch := FetchForIt(cfg, a, id);
    b := DeliverAll(cfg, fetched, w, id);
    ContinuesFurther(a, fetched, b);
    if id !in batch {
      var delivered := b;
      CommitSavesWork(cfg, delivered, w, batch[0]);
      b := RunMore(cfg, delivered, Commit(w));
      ContinuesFurther(a, delivered, b);
    }
  }

  /** Batch after batch reaches every waiting event. */
  lemma {:induction false} Drain(cfg: Config, a: seq<Step>, id: nat) returns (b: seq<Step>)
    requires cfg.batchSize > 0 && Waiting(Run(cfg, a), id)
    ensures Continues(a, b) && multiset(Run(cfg, b).stream)[id] > multiset(Run(cfg, a).stream)[id]
    decreases WorkLeft(cfg, Run(cfg, a).rows)
  {
    b := Round(cfg, a, id);
    if multiset(Run(cfg, b).stream)[id] == multiset(Run(cfg, a).stream)[id] {
      var earlier := b;
      b := Drain(cfg, earlier, id);
      ContinuesFurther(a, earlier, b);
    }
  }

  // ----- the exact condition -----

  /** An event is in the stream at most once in every clean continuation exactly when its
      deliveries so far, and one more if it is still pending, are at most one. */
  lemma SingleIff(cfg: Config, before: seq<Step>, id: nat)
    requires cfg.batchSize > 0 && id < |Run(cfg, before).view|
    ensures StaysSingle(cfg, before, id) <==> Expected(Run(cfg, before), id) <= 1
  {
    var m := Run(cfg, before);
    if Expected(m, id) <= 1 {
      forall after | Clean(after) ensures multiset(Run(cfg, before + after).stream)[id] <= 1 {
        ExpectedRun(cfg, before, after, id);
      }
    } else {
      var b := before;
      if m.view[id].status == Pending {
        b := DeliverPending(cfg, before, id);
      }
      assert before + b[|before|..] == b;
      assert Clean(b[|before|..]);
    }
  }

  lemma DeliverPending(cfg: Config, a: seq<Step>, id: nat) returns (b: seq<Step>)
    requires cfg.batchSize > 0 && id < |Run(cfg, a).view| && Run(cfg, a).view[id].status == Pending
    ensures Continues(a, b) && multiset(Run(cfg, b).stream)[id] > multiset(Run(cfg, a).stream)[id]
  {
    var m := Run(cfg, a);
    InvRun(cfg, a);
    assert RowSound(cfg, m, id);
    if id !in m.locks {
      b := Drain(cfg, a, id);
    } else {
      b := Release(cfg, a, id);
      if multiset(Run(cfg, b).stream)[id] == multiset(m.stream)[id] {
        var released := b;
        b := Drain(cfg, released, id);
        ContinuesFurther(a, released, b);
      }
    }
  }
}
