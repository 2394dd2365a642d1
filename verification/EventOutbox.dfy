/** The transactional outbox: rows that are published to a stream, retried and
    given up, one batch at a time. An event's id is its row's position. */
module EventOutbox {
  import opened Wrappers
  import opened Sequences

  datatype Status = Pending | Published | Failed

  datatype Event = Event(
    createdAt: int, status: Status, retries: nat, nextAttemptAt: int,
    error: Option<string>, publishedAt: Option<int>)

  /** MAX_RETRIES and BATCH_SIZE. */
  datatype Config = Config(maxRetries: int, batchSize: nat)
  {
    /** Failures an event survives; a negative setting allows none. */
    function Budget(): nat {
      if maxRetries < 0 then 0 else maxRetries
    }
  }

  /** What a call of `xadd` comes to. */
  datatype Publish =
    | Delivered
    | Refused(error: string)          // raised, nothing appended
    | DeliveredUnseen(error: string)  // appended, then raised

  datatype Attempt = Attempt(publish: Publish, now: int)

  const SCHEDULE := [1, 5, 30, 120, 300]

  function ComputeBackoff(retries: int): (seconds: int)
    ensures 1 <= seconds <= 300
  {
    var index := if retries < 1 then 0 else if retries > |SCHEDULE| then |SCHEDULE| - 1 else retries - 1;
    SCHEDULE[index]
  }

  /** A row as `publish_event` inserts it. */
  predicate Fresh(e: Event) {
    e.status == Pending && e.retries == 0
  }

  /** `_process_event` on the row. */
  function Process(cfg: Config, e: Event, a: Attempt): Event {
    if a.publish.Delivered? then e.(status := Published, publishedAt := Some(a.now), error := None)
    else
      var n := e.retries + 1;
      var failed := e.(retries := n, error := Some(a.publish.error));
      if n > cfg.maxRetries then failed.(status := Failed)
      else failed.(status := Pending, nextAttemptAt := a.now + ComputeBackoff(n))
  }

  /** What the attempt appends to the stream. */
  function Appended(id: nat, a: Attempt): seq<nat> {
    if a.publish.Refused? then [] else [id]
  }

  // ----- fetching -----

  predicate Due(e: Event, now: int) {
    e.status == Pending && e.nextAttemptAt <= now
  }

  /** The rows `SELECT ... ORDER BY created_at LIMIT n FOR UPDATE SKIP LOCKED`
      may return: distinct due rows nobody has locked, oldest first, and as
      many of the oldest as the limit allows. */
  ghost predicate IsBatch(rows: seq<Event>, locked: set<nat>, now: int, size: nat, batch: seq<nat>) {
    |batch| <= size &&
    (forall i :: 0 <= i < |batch| ==> batch[i] < |rows| && batch[i] !in locked && Due(rows[batch[i]], now)) &&
    (forall i, j :: 0 <= i < j < |batch| ==>
      batch[i] != batch[j] && rows[batch[i]].createdAt <= rows[batch[j]].createdAt) &&
    (forall id :: 0 <= id < |rows| && id !in locked && id !in batch && Due(rows[id], now) ==>
      |batch| == size && forall i :: 0 <= i < |batch| ==> rows[batch[i]].createdAt <= rows[id].createdAt)
  }

  /** The session's view of the rows it fetched. */
  function Fetched(rows: seq<Event>, batch: seq<nat>): (local: map<nat, Event>)
    requires forall id :: id in batch ==> id < |rows|
    ensures forall id :: id in local <==> id in batch
    ensures forall id :: id in local ==> local[id] == rows[id]
  {
    map id | id in batch :: rows[id]
  }

  // ----- one worker -----

  /** The session's rows after the given attempts on the batch. */
  function Processed(cfg: Config, local: map<nat, Event>, batch: seq<nat>, attempts: seq<Attempt>): (r: map<nat, Event>)
    requires |attempts| == |batch| && forall id :: id in batch ==> id in local
    ensures r.Keys == local.Keys
    decreases |batch|
  {
    if batch == [] then local
    else
      var n := |batch| - 1;
      var before := Processed(cfg, local, batch[..n], attempts[..n]);
      before[batch[n] := Process(cfg, before[batch[n]], attempts[n])]
  }

  /** What the attempts append to the stream. */
  function Deliveries(batch: seq<nat>, attempts: seq<Attempt>): seq<nat>
    requires |attempts| == |batch|
    decreases |batch|
  {
    if batch == [] then []
    else
      var n := |batch| - 1;
      Deliveries(batch[..n], attempts[..n]) + Appended(batch[n], attempts[n])
  }

  /** The table after committing the session's rows. */
  function Overlay(rows: seq<Event>, local: map<nat, Event>): (r: seq<Event>)
    ensures |r| == |rows|
    ensures forall i :: 0 <= i < |r| ==> r[i] == if i in local then local[i] else rows[i]
  {
    seq(|rows|, i requires 0 <= i < |rows| => if i in local then local[i] else rows[i])
  }

  lemma BatchGrows(cfg: Config, local: map<nat, Event>, batch: seq<nat>, attempts: seq<Attempt>, i: nat)
    requires |attempts| == |batch| && i < |batch| && forall id :: id in batch ==> id in local
    ensures var before := Processed(cfg, local, batch[..i], attempts[..i]);
      batch[i] in before &&
      Processed(cfg, local, batch[..i + 1], attempts[..i + 1]) ==
        before[batch[i] := Process(cfg, before[batch[i]], attempts[i])] &&
      Deliveries(batch[..i + 1], attempts[..i + 1]) ==
        Deliveries(batch[..i], attempts[..i]) + Appended(batch[i], attempts[i])
  {
    assert batch[..i + 1][..i] == batch[..i] && attempts[..i + 1][..i] == attempts[..i];
  }

  lemma {:induction false} ProcessedElsewhere(cfg: Config, local: map<nat, Event>, batch: seq<nat>,
      attempts: seq<Attempt>, id: nat)
    requires |attempts| == |batch| && (forall b :: b in batch ==> b in local) && id in local && id !in batch
    ensures Processed(cfg, local, batch, attempts)[id] == local[id]
    decreases |batch|
  {
    if batch != [] {
      ProcessedElsewhere(cfg, local, batch[..|batch| - 1], attempts[..|batch| - 1], id);
    }
  }

  lemma {:induction false} ProcessedAt(cfg: Config, local: map<nat, Event>, batch: seq<nat>, attempts: seq<Attempt>,
      i: nat)
    requires |attempts| == |batch| && Distinct(batch) && (forall id :: id in batch ==> id in local) && i < |batch|
    ensures Processed(cfg, local, batch, attempts)[batch[i]] == Process(cfg, local[batch[i]], attempts[i])
    decreases |batch|
  {
    var n := |batch| - 1;
    if i < n {
      ProcessedAt(cfg, local, batch[..n], attempts[..n], i);
    } else {
      ProcessedElsewhere(cfg, local, batch[..n], attempts[..n], batch[n]);
    }
  }

  /** Every row of the batch has had its own attempt, and no other row has changed. */
  ghost predicate Attempted(cfg: Config, before: seq<Event>, after: seq<Event>, batch: seq<nat>, attempts: seq<Attempt>)
    requires |attempts| == |batch|
  {
    |before| == |after| &&
    (forall i :: 0 <= i < |batch| ==>
      batch[i] < |before| && after[batch[i]] == Process(cfg, before[batch[i]], attempts[i])) &&
    (forall id :: 0 <= id < |before| && id !in batch ==> after[id] == before[id])
  }

  lemma CommitAttempts(cfg: Config, rows: seq<Event>, batch: seq<nat>, attempts: seq<Attempt>)
    requires |attempts| == |batch| && Distinct(batch) && forall id :: id in batch ==> id < |rows|
    ensures Attempted(cfg, rows, Overlay(rows, Processed(cfg, Fetched(rows, batch), batch, attempts)), batch, attempts)
  {
    var local := Fetched(rows, batch);
    forall i | 0 <= i < |batch|
      ensures batch[i] < |rows|
      ensures Processed(cfg, local, batch, attempts)[batch[i]] == Process(cfg, rows[batch[i]], attempts[i])
    {
      assert batch[i] in batch;
      ProcessedAt(cfg, local, batch, attempts, i);
    }
  }

  class Worker {
    const cfg: Config
    var rows: seq<Event>
    var stream: seq<nat>

    constructor (cfg: Config, rows: seq<Event>)
      ensures this.cfg == cfg && this.rows == rows && stream == []
    {
      this.cfg := cfg;
      this.rows := rows;
      stream := [];
    }

    /** `_process_event`: the stream is written at once, the row only in the session. */
    method ProcessEvent(local: map<nat, Event>, id: nat, a: Attempt) returns (r: map<nat, Event>)
      requires id in local
      modifies this`stream
      ensures r == local[id := Process(cfg, local[id], a)]
      ensures stream == old(stream) + Appended(id, a)
    {
      var event := local[id];
      if a.publish.Delivered? {
        stream := stream + [id];
        return local[id := event.(status := Published, publishedAt := Some(a.now), error := None)];
      }
      if a.publish.DeliveredUnseen? {
        stream := stream + [id];
      }
      event := event.(retries := event.retries + 1, error := Some(a.publish.error));
      if event.retries > cfg.maxRetries {
        event := event.(status := Failed);
      } else {
        event := event.(status := Pending, nextAttemptAt := a.now + ComputeBackoff(event.retries));
      }
      return local[id := event];
    }

    /** The loop of `run_once`. */
    method ProcessBatch(batch: seq<nat>, attempts: seq<Attempt>) returns (local: map<nat, Event>)
      requires |attempts| == |batch| && forall id :: id in batch ==> id < |rows|
      modifies this`stream
      ensures local == Processed(cfg, Fetched(rows, batch), batch, attempts)
      ensures stream == old(stream) + Deliveries(batch, attempts)
    {
      local := Fetched(rows, batch);
      for i := 0 to |batch|
        invariant local.Keys == Fetched(rows, batch).Keys
        invariant local == Processed(cfg, Fetched(rows, batch), batch[..i], attempts[..i])
        invariant stream == old(stream) + Deliveries(batch[..i], attempts[..i])
      {
        BatchGrows(cfg, Fetched(rows, batch), batch, attempts, i);
        local := ProcessEvent(local, batch[i], attempts[i]);
      }
      assert batch[..|batch|] == batch && attempts[..|batch|] == attempts;
    }

    /** `run_once` on what its query returned. Without a commit the table is as before,
        but what reached the stream stays there. */
    method RunOnce(locked: set<nat>, now: int, batch: seq<nat>, attempts: seq<Attempt>, commits: bool)
        returns (count: nat)
      requires |attempts| == |batch| && IsBatch(rows, locked, now, cfg.batchSize, batch)
      modifies this
      ensures stream == old(stream) + Deliveries(batch, attempts)
      ensures if commits then Attempted(cfg, old(rows), rows, batch, attempts) else rows == old(rows)
      ensures count == if commits || batch == [] then |batch| else 0
    {
      if batch == [] {
        return 0;
      }
      var local := ProcessBatch(batch, attempts);
      if !commits {
        return 0;
      }
      CommitAttempts(cfg, rows, batch, attempts);
      rows := Overlay(rows, local);
      return |batch|;
    }
  }

  // ----- work left -----

  /** Attempts an event may still cost. */
  function Weight(cfg: Config, e: Event): nat {
    if e.status == Pending && e.retries <= cfg.Budget() then cfg.Budget() + 1 - e.retries else 0
  }

  function WorkLeft(cfg: Config, rows: seq<Event>): nat {
    if rows == [] then 0
    else WorkLeft(cfg, rows[..|rows| - 1]) + Weight(cfg, rows[|rows| - 1])
  }

  /** How many rows below `n` the session has. */
  function Touched(local: map<nat, Event>, n: nat): nat {
    if n == 0 then 0 else Touched(local, n - 1) + if n - 1 in local then 1 else 0
  }

  lemma {:induction false} TouchedPositive(local: map<nat, Event>, n: nat, id: nat)
    requires id < n && id in local
    ensures Touched(local, n) > 0
  {
    if id < n - 1 {
      TouchedPositive(local, n - 1, id);
    }
  }

  lemma {:induction false} OverlaySavesWork(cfg: Config, rows: seq<Event>, local: map<nat, Event>)
    requires forall id :: id in local && id < |rows| ==> Weight(cfg, local[id]) < Weight(cfg, rows[id])
    ensures WorkLeft(cfg, Overlay(rows, local)) + Touched(local, |rows|) <= WorkLeft(cfg, rows)
  {
    if rows != [] {
      var n := |rows| - 1;
      OverlaySavesWork(cfg, rows[..n], local);
      assert Overlay(rows, local)[..n] == Overlay(rows[..n], local);
    }
  }

  /** Rows that have only ever been through this worker. */
  predicate InBudget(cfg: Config, e: Event) {
    match e.status
    case Pending => e.retries <= cfg.Budget()
    case Published => e.retries <= cfg.Budget()
    case Failed => e.retries == cfg.Budget() + 1
  }

  lemma ProcessSavesWork(cfg: Config, e: Event, a: Attempt)
    requires e.status == Pending && InBudget(cfg, e)
    ensures InBudget(cfg, Process(cfg, e, a)) && Weight(cfg, Process(cfg, e, a)) < Weight(cfg, e)
  {
  }

  /** Every nonempty `run_once` that commits leaves strictly less work, so retries end. */
  lemma RunOnceSavesWork(cfg: Config, rows: seq<Event>, locked: set<nat>, now: int, batch: seq<nat>,
      attempts: seq<Attempt>, after: seq<Event>)
    requires |attempts| == |batch| > 0 && IsBatch(rows, locked, now, cfg.batchSize, batch)
    requires Attempted(cfg, rows, after, batch, attempts)
    requires forall i :: 0 <= i < |rows| ==> InBudget(cfg, rows[i])
    ensures WorkLeft(cfg, after) < WorkLeft(cfg, rows) && forall i :: 0 <= i < |after| ==> InBudget(cfg, after[i])
  {
    var local := map id | id in batch :: after[id];
    forall id | id in local
      ensures id < |rows| && InBudget(cfg, local[id]) && Weight(cfg, local[id]) < Weight(cfg, rows[id])
    {
      var i :| 0 <= i < |batch| && batch[i] == id;
      ProcessSavesWork(cfg, rows[id], attempts[i]);
    }
    OverlaySavesWork(cfg, rows, local);
    assert after == Overlay(rows, local);
    TouchedPositive(local, |rows|, batch[0]);
  }

  // ----- one attempt, field by field -----

  /** A delivered event is published at the time of the attempt, without an error. */
  lemma DeliveredRow(cfg: Config, e: Event, now: int)
    ensures Process(cfg, e, Attempt(Delivered, now)) ==
      Event(e.createdAt, Published, e.retries, e.nextAttemptAt, None, Some(now))
  {
  }

  /** A failed attempt counts as a retry and leaves its error. Past the budget the event is
      failed; before, it is due again after 1, 5, 30 or 120 seconds for the first four
      retries and after 300 for any other. */
  lemma FailedRow(cfg: Config, e: Event, a: Attempt)
    requires !a.publish.Delivered?
    ensures var r := Process(cfg, e, a);
      r.retries == e.retries + 1 && r.error == Some(a.publish.error) &&
      r.createdAt == e.createdAt && r.publishedAt == e.publishedAt &&
      (e.retries + 1 > cfg.maxRetries ==> r.status == Failed && r.nextAttemptAt == e.nextAttemptAt) &&
      (e.retries + 1 <= cfg.maxRetries ==> r.status == Pending) &&
      (e.retries + 1 <= cfg.maxRetries && e.retries < 4 ==> r.nextAttemptAt == a.now + [1, 5, 30, 120][e.retries]) &&
      (e.retries + 1 <= cfg.maxRetries && e.retries >= 4 ==> r.nextAttemptAt == a.now + 300)
  {
  }

  /** The query returns pending rows that are due and unlocked, and it leaves out such a row
      only for as many rows that are not newer. */
  lemma FetchesOldest(rows: seq<Event>, locked: set<nat>, now: int, size: nat, batch: seq<nat>, id: nat)
    requires IsBatch(rows, locked, now, size, batch)
    ensures forall i :: 0 <= i < |batch| ==>
      batch[i] < |rows| && batch[i] !in locked && rows[batch[i]].status == Pending &&
      rows[batch[i]].nextAttemptAt <= now
    ensures |batch| <= size
    ensures forall i, j :: 0 <= i < j < |batch| ==> rows[batch[i]].createdAt <= rows[batch[j]].createdAt
    ensures
      id < |rows| && id !in locked && id !in batch && rows[id].status == Pending && rows[id].nextAttemptAt <= now ==>
      |batch| == size && forall i :: 0 <= i < |batch| ==> rows[batch[i]].createdAt <= rows[id].createdAt
  {
    forall i | 0 <= i < |batch| ensures Due(rows[batch[i]], now) {
    }
    assert id < |rows| ==> (Due(rows[id], now) <==> rows[id].status == Pending && rows[id].nextAttemptAt <= now);
  }

  // ----- how long giving up takes -----

  /** The row after attempts one after another. */
  function ProcessAll(cfg: Config, e: Event, attempts: seq<Attempt>): Event
    decreases |attempts|
  {
    if attempts == [] then e
    else Process(cfg, ProcessAll(cfg, e, attempts[..|attempts| - 1]), attempts[|attempts| - 1])
  }

  /** Every attempt fails and is made when the row is due. */
  predicate AllFail(cfg: Config, e: Event, attempts: seq<Attempt>)
    decreases |attempts|
  {
    attempts == [] ||
    (var n := |attempts| - 1;
     AllFail(cfg, e, attempts[..n]) && !attempts[n].publish.Delivered? &&
     Due(ProcessAll(cfg, e, attempts[..n]), attempts[n].now))
  }

  /** The seconds the schedule puts between the first and the `n`-th later attempt. */
  function TotalBackoff(n: nat): nat {
    if n == 0 then 0 else TotalBackoff(n - 1) + ComputeBackoff(n)
  }

  /** An event that is never delivered is given up exactly at its attempt number
      budget + 1, no earlier than the whole schedule after its first attempt. */
  lemma {:induction false} GivingUpTakes(cfg: Config, e: Event, attempts: seq<Attempt>)
    requires Fresh(e) && AllFail(cfg, e, attempts) && attempts != []
    ensures var last, after := attempts[|attempts| - 1], ProcessAll(cfg, e, attempts);
      |attempts| <= cfg.Budget() + 1 && after.retries == |attempts| &&
      (after.status == Failed <==> |attempts| == cfg.Budget() + 1) &&
      last.now >= attempts[0].now + TotalBackoff(|attempts| - 1) &&
      (after.status == Pending ==> after.nextAttemptAt >= attempts[0].now + TotalBackoff(|attempts|))
    decreases |attempts|
  {
    if |attempts| > 1 {
      GivingUpTakes(cfg, e, attempts[..|attempts| - 1]);
    }
  }

  /** With the default of 5 retries that is at least 456 seconds. */
  lemma DefaultSpan(e: Event, size: nat, attempts: seq<Attempt>)
    requires Fresh(e) && AllFail(Config(5, size), e, attempts)
    requires ProcessAll(Config(5, size), e, attempts).status == Failed
    ensures |attempts| == 6 && attempts[5].now - attempts[0].now >= 456
  {
    GivingUpTakes(Config(5, size), e, attempts);
    assert TotalBackoff(5) == 1 + 5 + 30 + 120 + 300;
  }
}
