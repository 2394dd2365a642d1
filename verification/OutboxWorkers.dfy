/** Any number of outbox workers on one table and one stream, with sessions
    that may be rolled back at any point. The stream is never rolled back. */
module OutboxWorkers {
  import opened Sequences
  import opened EventOutbox

  /** `rows` are the committed rows. `view` shows a locked row as the session that
      holds it has changed it, and any other row as committed. `locks` tells
      who holds a row, `todo` what each open session has still to publish.
      The rest only records history: every publish attempt, the deliveries and
      the attempts that no row accounts for any more. */
  datatype Machine = Machine(
    rows: seq<Event>,
    view: seq<Event>,
    locks: map<nat, nat>,
    todo: map<nat, seq<nat>>,
    stream: seq<nat>,
    attempts: multiset<nat>,
    lost: multiset<nat>,
    forgotten: multiset<nat>)

  datatype Step =
    | Insert(e: Event)
    | Fetch(w: nat, now: int, batch: seq<nat>)
    | Try(w: nat, a: Attempt)
    | Commit(w: nat)
    | Rollback(w: nat)

  const EMPTY: Machine := Machine([], [], map[], map[], [], multiset{}, multiset{}, multiset{})

  predicate Holds(m: Machine, w: nat, id: nat) {
    id in m.locks && m.locks[id] == w
  }

  function Unlock(m: Machine, w: nat): Machine {
    m.(locks := map id | id in m.locks && m.locks[id] != w :: m.locks[id], todo := m.todo - {w})
  }

  /** `a` with the rows `w` holds taken from `b`. */
  function Replaced(m: Machine, w: nat, a: seq<Event>, b: seq<Event>): (r: seq<Event>)
    ensures |r| == |a|
    ensures forall i :: 0 <= i < |r| ==> r[i] == if i < |b| && Holds(m, w, i) then b[i] else a[i]
  {
    seq(|a|, i requires 0 <= i < |a| => if i < |b| && Holds(m, w, i) then b[i] else a[i])
  }

  /** The rows `w` holds and has tried. */
  function Tried(m: Machine, w: nat): set<nat>
    requires w in m.todo
  {
    set id | id in m.locks && m.locks[id] == w && id !in m.todo[w]
  }

  /** The rows `w` holds and has published. */
  function PublishedBy(m: Machine, w: nat): set<nat> {
    set id | id in m.locks && m.locks[id] == w && id < |m.view| && m.view[id].status == Published
  }

  ghost predicate CanFetch(cfg: Config, m: Machine, w: nat, now: int, batch: seq<nat>) {
    w !in m.todo && batch != [] && IsBatch(m.rows, m.locks.Keys, now, cfg.batchSize, batch)
  }

  predicate CanTry(m: Machine, w: nat) {
    w in m.todo && m.todo[w] != [] && m.todo[w][0] < |m.view|
  }

  predicate CanCommit(m: Machine, w: nat) {
    w in m.todo && m.todo[w] == []
  }

  /** One step; a step that cannot be taken leaves the machine as it is. */
  ghost function Next(cfg: Config, m: Machine, step: Step): Machine {
    match step
    case Insert(e) => if Fresh(e) then m.(rows := m.rows + [e], view := m.view + [e]) else m
    case Fetch(w, now, batch) =>
      if CanFetch(cfg, m, w, now, batch)
      then m.(locks := m.locks + map id | id in batch :: w, todo := m.todo[w := batch])
      else m
    case Try(w, a) =>
      if !CanTry(m, w) then m
      else
        var id := m.todo[w][0];
        m.(view := m.view[id := Process(cfg, m.view[id], a)],
           todo := m.todo[w := m.todo[w][1..]],
           stream := m.stream + Appended(id, a),
           attempts := m.attempts + multiset{id},
           lost := if a.publish.DeliveredUnseen? then m.lost + multiset{id} else m.lost)
    case Commit(w) =>
      if CanCommit(m, w) then Unlock(m, w).(rows := Replaced(m, w, m.rows, m.view)) else m
    case Rollback(w) =>
      if w in m.todo
      then Unlock(m, w).(
        view := Replaced(m, w, m.view, m.rows),
        lost := m.lost + multiset(PublishedBy(m, w)),
        forgotten := m.forgotten + multiset(Tried(m, w)))
      else m
  }

  ghost function Run(cfg: Config, steps: seq<Step>): Machine
    decreases |steps|
  {
    if steps == [] then EMPTY else Next(cfg, Run(cfg, steps[..|steps| - 1]), steps[|steps| - 1])
  }

  // ----- invariant -----

  function Ones(b: bool): nat { if b then 1 else 0 }

  /** Attempts a row accounts for. */
  function Done(e: Event): nat {
    e.retries + Ones(e.status == Published)
  }

  /** A held row was pending when it was fetched and has been tried at most once since. */
  predicate HeldSound(row: Event, seen: Event, waiting: bool) {
    row.status == Pending && if waiting then seen == row else Done(seen) == Done(row) + 1
  }

  /** The row's lock and its two versions fit together. */
  predicate RowSound(cfg: Config, m: Machine, id: nat)
    requires id < |m.rows| == |m.view|
  {
    InBudget(cfg, m.rows[id]) && InBudget(cfg, m.view[id]) &&
    if id in m.locks
    then m.locks[id] in m.todo && HeldSound(m.rows[id], m.view[id], id in m.todo[m.locks[id]])
    else m.view[id] == m.rows[id]
  }

  predicate TodoSound(m: Machine, w: nat)
    requires w in m.todo
  {
    Distinct(m.todo[w]) && forall i :: 0 <= i < |m.todo[w]| ==> Holds(m, w, m.todo[w][i])
  }

  /** Every delivery is lost or belongs to a published row, and every attempt is
      forgotten or shows in a row. */
  predicate Accounted(m: Machine, id: nat) {
    if id < |m.view| then
      multiset(m.stream)[id] == m.lost[id] + Ones(m.view[id].status == Published) &&
      m.attempts[id] == m.forgotten[id] + Done(m.view[id])
    else
      multiset(m.stream)[id] == m.lost[id] == m.attempts[id] == m.forgotten[id] == 0
  }

  ghost predicate Inv(cfg: Config, m: Machine) {
    |m.view| == |m.rows| &&
    (forall id :: id in m.locks ==> id < |m.rows|) &&
    (forall id :: 0 <= id < |m.rows| ==> RowSound(cfg, m, id)) &&
    (forall w :: w in m.todo ==> TodoSound(m, w)) &&
    (forall id: nat :: Accounted(m, id))
  }

  // ----- every step keeps it -----

  lemma InvInsert(cfg: Config, m: Machine, e: Event)
    requires Inv(cfg, m) && Fresh(e)
    ensures Inv(cfg, Next(cfg, m, Insert(e)))
  {
    var n := Next(cfg, m, Insert(e));
    forall id | 0 <= id < |n.rows| ensures RowSound(cfg, n, id) {
      if id < |m.rows| { assert RowSound(cfg, m, id); }
    }
    forall w | w in n.todo ensures TodoSound(n, w) {
      assert TodoSound(m, w);
    }
    forall id: nat ensures Accounted(n, id) {
      assert Accounted(m, id);
    }
  }

  lemma InvFetch(cfg: Config, m: Machine, w: nat, now: int, batch: seq<nat>)
    requires Inv(cfg, m) && CanFetch(cfg, m, w, now, batch)
    ensures Inv(cfg, Next(cfg, m, Fetch(w, now, batch)))
  {
    var n := Next(cfg, m, Fetch(w, now, batch));
    forall id | id in batch ensures id < |m.rows| && id !in m.locks && m.rows[id].status == Pending {
      var i :| 0 <= i < |batch| && batch[i] == id;
      assert Due(m.rows[batch[i]], now);
    }
    forall id | 0 <= id < |n.rows| ensures RowSound(cfg, n, id) {
      assert RowSound(cfg, m, id);
    }
    forall v | v in n.todo ensures TodoSound(n, v) {
      if v != w {
        assert TodoSound(m, v);
        forall i | 0 <= i < |m.todo[v]| ensures Holds(n, v, m.todo[v][i]) {
          assert Holds(m, v, m.todo[v][i]);
        }
      }
    }
    forall id: nat ensures Accounted(n, id) {
      assert Accounted(m, id);
    }
  }

  lemma RowsAfterTry(cfg: Config, m: Machine, w: nat, a: Attempt, id: nat)
    requires Inv(cfg, m) && CanTry(m, w) && id < |m.rows|
    ensures RowSound(cfg, Next(cfg, m, Try(w, a)), id)
  {
    var tried := m.todo[w][0];
    assert TodoSound(m, w);
    assert Holds(m, w, tried);
    assert RowSound(cfg, m, id);
    assert RowSound(cfg, m, tried);
    ProcessSavesWork(cfg, m.view[tried], a);
    assert m.todo[w] == [tried] + m.todo[w][1..];
    if id != tried && Holds(m, w, id) {
      assert id in m.todo[w] <==> id in m.todo[w][1..];
    }
  }

  lemma TodoAfterTry(cfg: Config, m: Machine, w: nat, a: Attempt, v: nat)
    requires Inv(cfg, m) && CanTry(m, w) && v in m.todo
    ensures TodoSound(Next(cfg, m, Try(w, a)), v)
  {
    assert TodoSound(m, v);
    var n := Next(cfg, m, Try(w, a));
    forall i | 0 <= i < |n.todo[v]| ensures Holds(n, v, n.todo[v][i]) {
      if v == w {
        assert Holds(m, v, m.todo[v][i + 1]);
      } else {
        assert Holds(m, v, m.todo[v][i]);
      }
    }
  }

  lemma StreamAfterTry(stream: seq<nat>, tried: nat, a: Attempt, id: nat)
    ensures multiset(stream + Appended(tried, a))[id] == multiset(stream)[id] + Ones(!a.publish.Refused? && tried == id)
  {
    assert multiset(stream + Appended(tried, a)) == multiset(stream) + multiset(Appended(tried, a));
  }

  lemma DoneAfterTry(cfg: Config, e: Event, a: Attempt)
    requires e.status == Pending
    ensures Done(Process(cfg, e, a)) == Done(e) + 1
    ensures Process(cfg, e, a).status == Published <==> a.publish.Delivered?
  {
  }

  lemma AccountedAfterTry(cfg: Config, m: Machine, w: nat, a: Attempt, id: nat)
    requires CanTry(m, w) && Accounted(m, id)
    requires m.view[m.todo[w][0]].status == Pending
    ensures Accounted(Next(cfg, m, Try(w, a)), id)
  {
    StreamAfterTry(m.stream, m.todo[w][0], a, id);
    DoneAfterTry(cfg, m.view[m.todo[w][0]], a);
  }

  lemma InvTry(cfg: Config, m: Machine, w: nat, a: Attempt)
    requires Inv(cfg, m) && CanTry(m, w)
    ensures Inv(cfg, Next(cfg, m, Try(w, a)))
  {
    var n := Next(cfg, m, Try(w, a));
    forall id | 0 <= id < |n.rows| ensures RowSound(cfg, n, id) {
      RowsAfterTry(cfg, m, w, a, id);
    }
    forall v | v in n.todo ensures TodoSound(n, v) {
      TodoAfterTry(cfg, m, w, a, v);
    }
    assert TodoSound(m, w);
    assert Holds(m, w, m.todo[w][0]);
    assert RowSound(cfg, m, m.todo[w][0]);
    forall id: nat ensures Accounted(n, id) {
      assert Accounted(m, id);
      AccountedAfterTry(cfg, m, w, a, id);
    }
  }

  lemma TodoAfterUnlock(m: Machine, w: nat, v: nat)
    requires v in m.todo && v != w && TodoSound(m, v)
    ensures TodoSound(Unlock(m, w), v)
  {
    forall i | 0 <= i < |m.todo[v]| ensures Holds(Unlock(m, w), v, m.todo[v][i]) {
      assert Holds(m, v, m.todo[v][i]);
    }
  }

  lemma InvCommit(cfg: Config, m: Machine, w: nat)
    requires Inv(cfg, m) && CanCommit(m, w)
    ensures Inv(cfg, Next(cfg, m, Commit(w)))
  {
    var n := Next(cfg, m, Commit(w));
    forall id | 0 <= id < |n.rows| ensures RowSound(cfg, n, id) {
      assert RowSound(cfg, m, id);
    }
    forall v | v in n.todo ensures TodoSound(n, v) {
      assert TodoSound(m, v);
      TodoAfterUnlock(m, w, v);
    }
    forall id: nat ensures Accounted(n, id) {
      assert Accounted(m, id);
    }
  }

  lemma AccountedAfterRollback(cfg: Config, m: Machine, w: nat, id: nat)
    requires Accounted(m, id) && w in m.todo && |m.rows| == |m.view|
    requires if id < |m.rows| then RowSound(cfg, m, id) else id !in m.locks
    ensures Accounted(Next(cfg, m, Rollback(w)), id)
  {
  }

  lemma InvRollback(cfg: Config, m: Machine, w: nat)
    requires Inv(cfg, m) && w in m.todo
    ensures Inv(cfg, Next(cfg, m, Rollback(w)))
  {
    var n := Next(cfg, m, Rollback(w));
    forall id | 0 <= id < |n.rows| ensures RowSound(cfg, n, id) {
      assert RowSound(cfg, m, id);
    }
    forall v | v in n.todo ensures TodoSound(n, v) {
      assert TodoSound(m, v);
      TodoAfterUnlock(m, w, v);
    }
    forall id: nat ensures Accounted(n, id) {
      assert Accounted(m, id);
      AccountedAfterRollback(cfg, m, w, id);
    }
  }

  lemma InvStep(cfg: Config, m: Machine, step: Step)
    requires Inv(cfg, m)
    ensures Inv(cfg, Next(cfg, m, step))
  {
    match step
    case Insert(e) => if Fresh(e) { InvInsert(cfg, m, e); }
    case Fetch(w, now, batch) => if CanFetch(cfg, m, w, now, batch) { InvFetch(cfg, m, w, now, batch); }
    case Try(w, a) => if CanTry(m, w) { InvTry(cfg, m, w, a); }
    case Commit(w) => if CanCommit(m, w) { InvCommit(cfg, m, w); }
    case Rollback(w) => if w in m.todo { InvRollback(cfg, m, w); }
  }

  lemma {:induction false} InvRun(cfg: Config, steps: seq<Step>)
    ensures Inv(cfg, Run(cfg, steps))
    decreases |steps|
  {
    if steps != [] {
      InvRun(cfg, steps[..|steps| - 1]);
      InvStep(cfg, Run(cfg, steps[..|steps| - 1]), steps[|steps| - 1]);
    }
  }
}
