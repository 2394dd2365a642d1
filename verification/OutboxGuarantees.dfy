/** What the outbox guarantees in every run of any number of workers. */
module OutboxGuarantees {
  import opened Sequences
  import opened EventOutbox
  import opened OutboxWorkers

  // ----- delivery -----

  /** Every event committed as published has been delivered, and the stream holds an
      event that no session has in hand exactly once more than its lost
      deliveries if it is published, and exactly as often as them if it is not. */
  lemma ExactDeliveries(cfg: Config, steps: seq<Step>, id: nat)
    requires id < |Run(cfg, steps).rows|
    ensures var m := Run(cfg, steps);
      (m.rows[id].status == Published ==> id in m.stream) &&
      (id !in m.locks ==> multiset(m.stream)[id] == m.lost[id] + Ones(m.rows[id].status == Published))
  {
    var m := Run(cfg, steps);
    InvRun(cfg, steps);
    assert RowSound(cfg, m, id) && Accounted(m, id);
    if m.rows[id].status == Published {
      assert id in multiset(m.stream);
    }
  }

  /** No session was rolled back and no publish both appended and raised. */
  predicate Clean(steps: seq<Step>) {
    forall i :: 0 <= i < |steps| ==>
      !steps[i].Rollback? && (steps[i].Try? ==> !steps[i].a.publish.DeliveredUnseen?)
  }

  predicate NoRollback(steps: seq<Step>) {
    forall i :: 0 <= i < |steps| ==> !steps[i].Rollback?
  }

  lemma {:induction false} NothingLost(cfg: Config, steps: seq<Step>)
    ensures NoRollback(steps) ==> Run(cfg, steps).forgotten == multiset{}
    ensures Clean(steps) ==> Run(cfg, steps).lost == multiset{}
    decreases |steps|
  {
    if steps != [] {
      NothingLost(cfg, steps[..|steps| - 1]);
    }
  }

  /** In a clean run no event is ever in the stream twice, whoever works on it. */
  lemma AtMostOnce(cfg: Config, steps: seq<Step>, id: nat)
    requires Clean(steps)
    ensures multiset(Run(cfg, steps).stream)[id] <= 1
  {
    InvRun(cfg, steps);
    NothingLost(cfg, steps);
    assert Accounted(Run(cfg, steps), id);
  }

  /** Published again after a rollback: the delivery is not undone. */
  lemma DeliveredTwice(cfg: Config, e: Event) returns (steps: seq<Step>)
    requires cfg.batchSize > 0 && Fresh(e)
    ensures Run(cfg, steps).stream == [0, 0] && Run(cfg, steps).lost == multiset{0}
  {
    var now := e.nextAttemptAt;
    var fetch, deliver := Fetch(0, now, [0]), Try(0, Attempt(Delivered, now));
    var m1 := Next(cfg, EMPTY, Insert(e));
    assert m1.rows == [e] && m1.view == [e];
    steps := RunMore(cfg, [], Insert(e));
    steps := RunMore(cfg, steps, fetch);
    steps := RunMore(cfg, steps, deliver);
    steps := RunMore(cfg, steps, Rollback(0));
    FirstRound(cfg, m1, e, now);
    SecondRound(cfg, Run(cfg, steps), e, now);
    steps := RunMore(cfg, steps, fetch);
    steps := RunMore(cfg, steps, deliver);
  }

  lemma RunMore(cfg: Config, init: seq<Step>, last: Step) returns (steps: seq<Step>)
    ensures steps == init + [last] && Run(cfg, steps) == Next(cfg, Run(cfg, init), last)
  {
    steps := init + [last];
    Extended(init, last);
  }

  lemma Alone(cfg: Config, m: Machine, e: Event)
    requires cfg.batchSize > 0 && Fresh(e) && m.rows == [e] && m.locks == map[] && m.todo == map[]
    ensures CanFetch(cfg, m, 0, e.nextAttemptAt, [0])
  {
  }

  lemma FirstRound(cfg: Config, m: Machine, e: Event, now: int)
    requires cfg.batchSize > 0 && Fresh(e) && now == e.nextAttemptAt
    requires m == EMPTY.(rows := [e], view := [e])
    ensures Next(cfg, Next(cfg, Next(cfg, m, Fetch(0, now, [0])), Try(0, Attempt(Delivered, now))), Rollback(0)) ==
      m.(stream := [0], attempts := multiset{0}, lost := multiset{0}, forgotten := multiset{0})
  {
    Alone(cfg, m, e);
    var fetched := m.(locks := map[0 := 0], todo := map[0 := [0]]);
    assert Next(cfg, m, Fetch(0, now, [0])) == fetched;
    var sent := Process(cfg, e, Attempt(Delivered, now));
    var tried := fetched.(view := [sent], todo := map[0 := []], stream := [0], attempts := multiset{0});
    assert Next(cfg, fetched, Try(0, Attempt(Delivered, now))) == tried;
    RolledBack(cfg, m, tried, e);
  }

  lemma RolledBack(cfg: Config, m: Machine, tried: Machine, e: Event)
    requires m == EMPTY.(rows := [e], view := [e])
    requires tried.rows == [e] && |tried.view| == 1 && tried.view[0].status == Published
    requires tried ==
      m.(locks := map[0 := 0], todo := map[0 := []], view := tried.view, stream := [0], attempts := multiset{0})
    ensures Next(cfg, tried, Rollback(0)) ==
      m.(stream := [0], attempts := multiset{0}, lost := multiset{0}, forgotten := multiset{0})
  {
    assert PublishedBy(tried, 0) == {0} && Tried(tried, 0) == {0};
    assert multiset({0}) == multiset{0};
  }

  lemma SecondRound(cfg: Config, m: Machine, e: Event, now: int)
    requires cfg.batchSize > 0 && Fresh(e) && now == e.nextAttemptAt && m.rows == [e] && m.view == [e]
    requires m.locks == map[] && m.todo == map[] && m.stream == [0]
    ensures var n := Next(cfg, Next(cfg, m, Fetch(0, now, [0])), Try(0, Attempt(Delivered, now)));
      n.stream == [0, 0] && n.lost == m.lost
  {
    Alone(cfg, m, e);
  }

  // ----- final states -----

  /** A committed row that is no longer pending stays exactly as it is. */
  ghost predicate Settled(a: Machine, b: Machine) {
    |a.rows| <= |b.rows| &&
    forall id :: 0 <= id < |a.rows| && a.rows[id].status != Pending ==> b.rows[id] == a.rows[id]
  }

  lemma SettledStep(cfg: Config, m: Machine, step: Step)
    requires Inv(cfg, m)
    ensures Settled(m, Next(cfg, m, step))
  {
    forall id | 0 <= id < |m.rows| && m.rows[id].status != Pending ensures id !in m.locks {
      assert RowSound(cfg, m, id);
    }
  }

  lemma {:induction false} PublishedAndFailedAreFinal(cfg: Config, before: seq<Step>, after: seq<Step>)
    ensures Settled(Run(cfg, before), Run(cfg, before + after))
    decreases |after|
  {
    if after == [] {
      assert before + after == before;
    } else {
      var n := |after| - 1;
      PublishedAndFailedAreFinal(cfg, before, after[..n]);
      InvRun(cfg, before + after[..n]);
      SettledStep(cfg, Run(cfg, before + after[..n]), after[n]);
      SplitLast(before, after);
    }
  }

  // ----- bounded work -----

  /** An event is given up exactly after one failure more than the budget, pending
      events have failures left, and without rollbacks an event is attempted
      once per failure and once for its delivery, at most budget + 1 times. */
  lemma BoundedAttempts(cfg: Config, steps: seq<Step>, id: nat)
    requires id < |Run(cfg, steps).rows|
    ensures var m := Run(cfg, steps);
      var e := m.rows[id];
      (e.status == Failed <==> e.retries == cfg.Budget() + 1) &&
      (e.status == Pending ==> e.retries <= cfg.Budget()) &&
      (NoRollback(steps) ==> m.attempts[id] <= cfg.Budget() + 1) &&
      (NoRollback(steps) && id !in m.locks ==> m.attempts[id] == e.retries + Ones(e.status == Published))
  {
    var m := Run(cfg, steps);
    InvRun(cfg, steps);
    NothingLost(cfg, steps);
    assert RowSound(cfg, m, id) && Accounted(m, id);
  }

  /** In every run a session that commits leaves strictly less work than the table held before. */
  lemma CommitSavesWork(cfg: Config, steps: seq<Step>, w: nat, id: nat)
    requires var m := Run(cfg, steps); CanCommit(m, w) && Holds(m, w, id)
    ensures var m := Run(cfg, steps); WorkLeft(cfg, Next(cfg, m, Commit(w)).rows) < WorkLeft(cfg, m.rows)
  {
    var m := Run(cfg, steps);
    InvRun(cfg, steps);
    forall i: nat | Holds(m, w, i) ensures i < |m.rows| && Weight(cfg, m.view[i]) < Weight(cfg, m.rows[i]) {
      assert RowSound(cfg, m, i);
    }
    HeldSavesWork(cfg, m, w, id);
  }

  lemma HeldSavesWork(cfg: Config, m: Machine, w: nat, id: nat)
    requires |m.view| == |m.rows| && Holds(m, w, id)
    requires forall i: nat :: Holds(m, w, i) ==> i < |m.rows| && Weight(cfg, m.view[i]) < Weight(cfg, m.rows[i])
    ensures WorkLeft(cfg, Replaced(m, w, m.rows, m.view)) < WorkLeft(cfg, m.rows)
  {
    var local := map i | i in m.locks && Holds(m, w, i) :: m.view[i];
    OverlaySavesWork(cfg, m.rows, local);
    TouchedPositive(local, |m.rows|, id);
    assert Overlay(m.rows, local) == Replaced(m, w, m.rows, m.view);
  }

  // ----- run_once is a run -----

  /** The machine after the given attempts by one session. */
  ghost function TryAll(cfg: Config, m: Machine, w: nat, attempts: seq<Attempt>): Machine
    decreases |attempts|
  {
    if attempts == [] then m
    else Next(cfg, TryAll(cfg, m, w, attempts[..|attempts| - 1]), Try(w, attempts[|attempts| - 1]))
  }

  /** The session sees its batch as in `seen`, has appended `sent` to the stream and has `left` to do. */
  ghost predicate Working(start: Machine, m: Machine, w: nat, batch: seq<nat>, seen: map<nat, Event>,
      sent: seq<nat>, left: seq<nat>)
  {
    m.rows == start.rows && |m.view| == |start.view| && m.locks == start.locks &&
    w in m.todo && m.todo[w] == left && m.stream == start.stream + sent &&
    forall id :: id in batch ==> id < |m.view| && id in seen && m.view[id] == seen[id]
  }

  /** After `i` attempts the session has processed the first `i` rows of its batch. */
  ghost predicate Halfway(cfg: Config, start: Machine, m: Machine, w: nat, batch: seq<nat>, attempts: seq<Attempt>,
      i: nat)
    requires i <= |batch| == |attempts| && forall id :: id in batch ==> id < |start.rows| == |start.view|
  {
    Working(start, m, w, batch, Processed(cfg, Fetched(start.rows, batch), batch[..i], attempts[..i]),
      Deliveries(batch[..i], attempts[..i]), batch[i..])
  }

  lemma {:induction false} TriesProcess(cfg: Config, start: Machine, w: nat, batch: seq<nat>, attempts: seq<Attempt>,
      i: nat)
    requires i <= |batch| == |attempts| && |start.rows| == |start.view|
    requires forall id :: id in batch ==> id < |start.rows| && start.view[id] == start.rows[id]
    requires w in start.todo && start.todo[w] == batch
    ensures Halfway(cfg, start, TryAll(cfg, start, w, attempts[..i]), w, batch, attempts, i)
    decreases i
  {
    if i > 0 {
      TriesProcess(cfg, start, w, batch, attempts, i - 1);
      assert attempts[..i][..i - 1] == attempts[..i - 1];
      BatchGrows(cfg, Fetched(start.rows, batch), batch, attempts, i - 1);
      assert batch[i - 1..][1..] == batch[i..];
      HalfwayMoves(cfg, start, TryAll(cfg, start, w, attempts[..i - 1]), w, batch, attempts, i - 1);
    }
  }

  lemma HalfwayMoved(cfg: Config, start: Machine, n: Machine, w: nat, batch: seq<nat>, attempts: seq<Attempt>, i: nat)
    requires i < |batch| == |attempts| && forall id :: id in batch ==> id < |start.rows| == |start.view|
    requires var seen := Processed(cfg, Fetched(start.rows, batch), batch[..i], attempts[..i]);
      batch[i] in batch && batch[i] in seen &&
      Working(start, n, w, batch, seen[batch[i] := Process(cfg, seen[batch[i]], attempts[i])],
        Deliveries(batch[..i], attempts[..i]) + Appended(batch[i], attempts[i]), batch[i + 1..])
    ensures Halfway(cfg, start, n, w, batch, attempts, i + 1)
  {
    BatchGrows(cfg, Fetched(start.rows, batch), batch, attempts, i);
  }

  lemma HalfwayMoves(cfg: Config, start: Machine, m: Machine, w: nat, batch: seq<nat>, attempts: seq<Attempt>, i: nat)
    requires i < |batch| == |attempts| && forall id :: id in batch ==> id < |start.rows| == |start.view|
    requires Halfway(cfg, start, m, w, batch, attempts, i)
    ensures Halfway(cfg, start, Next(cfg, m, Try(w, attempts[i])), w, batch, attempts, i + 1)
  {
    assert batch[i..] == [batch[i]] + batch[i + 1..];
    assert batch[i] in batch;
    WorkingMoves(cfg, start, m, w, attempts[i], batch,
      Processed(cfg, Fetched(start.rows, batch), batch[..i], attempts[..i]),
      Deliveries(batch[..i], attempts[..i]), batch[i], batch[i + 1..]);
    HalfwayMoved(cfg, start, Next(cfg, m, Try(w, attempts[i])), w, batch, attempts, i);
  }

  lemma WorkingMoves(cfg: Config, start: Machine, m: Machine, w: nat, a: Attempt, batch: seq<nat>,
      seen: map<nat, Event>, sent: seq<nat>, id: nat, left: seq<nat>)
    requires Working(start, m, w, batch, seen, sent, [id] + left) && id in batch
    ensures Working(start, Next(cfg, m, Try(w, a)), w, batch,
      seen[id := Process(cfg, seen[id], a)], sent + Appended(id, a), left)
  {
    assert ([id] + left)[1..] == left;
    assert start.stream + sent + Appended(id, a) == start.stream + (sent + Appended(id, a));
  }

  /** Committing replaces exactly the rows of the batch. */
  lemma CommitOverlays(rows: seq<Event>, m: Machine, w: nat, batch: seq<nat>, seen: map<nat, Event>)
    requires m.rows == rows && |m.view| == |rows| && seen.Keys == set id | id in batch
    requires forall id :: 0 <= id < |rows| ==> (Holds(m, w, id) <==> id in batch)
    requires forall id :: id in batch ==> id < |rows| && m.view[id] == seen[id]
    ensures Replaced(m, w, m.rows, m.view) == Overlay(rows, seen)
  {
  }

  /** Right after its fetch a session holds exactly its batch, and sees it as committed. */
  predicate JustFetched(m: Machine, start: Machine, w: nat, batch: seq<nat>) {
    start.rows == m.rows && start.stream == m.stream && |start.rows| == |start.view| &&
    w in start.todo && start.todo[w] == batch &&
    (forall id :: id in batch ==> id < |start.rows| && start.view[id] == start.rows[id]) &&
    (forall id :: 0 <= id < |start.rows| ==> (Holds(start, w, id) <==> id in batch))
  }

  lemma FetchEffect(cfg: Config, m: Machine, w: nat, now: int, batch: seq<nat>)
    requires Inv(cfg, m) && CanFetch(cfg, m, w, now, batch)
    ensures JustFetched(m, Next(cfg, m, Fetch(w, now, batch)), w, batch)
  {
    forall id | id in batch ensures id < |m.rows| && id !in m.locks && m.view[id] == m.rows[id] {
      var i :| 0 <= i < |batch| && batch[i] == id;
      assert RowSound(cfg, m, batch[i]);
    }
    forall id | id in m.locks ensures m.locks[id] != w {
      assert RowSound(cfg, m, id);
    }
  }

  lemma CommitEffect(cfg: Config, m: Machine, start: Machine, tried: Machine, w: nat, batch: seq<nat>,
      attempts: seq<Attempt>)
    requires JustFetched(m, start, w, batch) && |attempts| == |batch|
    requires Halfway(cfg, start, tried, w, batch, attempts, |batch|)
    ensures var n := Next(cfg, tried, Commit(w));
      n.rows == Overlay(m.rows, Processed(cfg, Fetched(m.rows, batch), batch, attempts)) &&
      n.stream == m.stream + Deliveries(batch, attempts)
  {
    assert attempts[..|batch|] == attempts && batch[..|batch|] == batch;
    CommitOverlays(m.rows, tried, w, batch, Processed(cfg, Fetched(m.rows, batch), batch, attempts));
  }

  /** `run_once` that commits is one run of one session: fetch, try every row, commit. */
  lemma RunOnceIsRun(cfg: Config, m: Machine, w: nat, now: int, batch: seq<nat>, attempts: seq<Attempt>)
    requires Inv(cfg, m) && CanFetch(cfg, m, w, now, batch) && |attempts| == |batch|
    ensures var n := Next(cfg, TryAll(cfg, Next(cfg, m, Fetch(w, now, batch)), w, attempts), Commit(w));
      Attempted(cfg, m.rows, n.rows, batch, attempts) && n.stream == m.stream + Deliveries(batch, attempts)
  {
    FetchEffect(cfg, m, w, now, batch);
    var fetched := Next(cfg, m, Fetch(w, now, batch));
    TriesProcess(cfg, fetched, w, batch, attempts, |batch|);
    assert attempts[..|batch|] == attempts;
    CommitEffect(cfg, m, fetched, TryAll(cfg, fetched, w, attempts), w, batch, attempts);
    CommitAttempts(cfg, m.rows, batch, attempts);
  }
}
