/** What the ledger guarantees: to concurrent clients whatever the
    interleaving, and to clients served one at a time. */
module CardGuarantees {
  import opened Wrappers
  import opened Sequences
  import opened CardLedger
  import opened CardSessions

  // ----- money, over every interleaving -----

  /** A card that starts with a nonnegative `spent_day` always shows exactly what is
      outstanding, no reversal ever meets the clamp, and the day limit holds. */
  lemma SpendingExact(start: seq<Card>, steps: seq<Step>, c: nat)
    requires c < |start| && WellStarted(start[c])
    ensures var db := Run(Fresh(start), steps).db;
      c < |db.cards| &&
      db.cards[c].spentDay == Some(start[c].spentDay.value + Outstanding(db.holds, c)) &&
      (forall h :: 0 <= h < |db.holds| && db.holds[h].cardId == c && db.holds[h].status == Active ==>
        db.cards[c].spentDay.value - db.holds[h].amount >= 0.0) &&
      (OrZero(start[c].limitDay) > 0.0 && start[c].spentDay.value <= OrZero(start[c].limitDay) ==>
        start[c].spentDay.value + Outstanding(db.holds, c) <= OrZero(start[c].limitDay))
  {
    var db := Run(Fresh(start), steps).db;
    InvRun(start, steps);
    assert Conserved(start[c], db.cards[c], db.holds, c);
    assert start[c].(spentDay := None) == db.cards[c].(spentDay := None);
    forall h | 0 <= h < |db.holds| && db.holds[h].cardId == c && db.holds[h].status == Active
      ensures db.cards[c].spentDay.value - db.holds[h].amount >= 0.0
    {
      ClampIdle(start, db, h);
    }
  }

  /** `spent_day`, read with NULL as zero, accounts for the card's holds. */
  ghost predicate AlwaysAccounts(start: seq<Card>, c: nat)
    requires c < |start|
  {
    forall steps :: Accounts(start, c, Run(Fresh(start), steps).db)
  }

  predicate Accounts(start: seq<Card>, c: nat, db: Db)
    requires c < |start|
  {
    c < |db.cards| && OrZero(db.cards[c].spentDay) == OrZero(start[c].spentDay) + Outstanding(db.holds, c)
  }

  /** An authorization can reach the card: it is active and first under its token. */
  predicate Chargeable(cards: seq<Card>, c: nat)
    requires c < |cards|
  {
    cards[c].active && FindCard(cards, cards[c].token) == Some(c)
  }

  lemma OutstandingOne(h: Hold, c: nat)
    ensures Outstanding([h], c) == if h.cardId == c && h.status != Reversed then h.amount else 0.0
  {
    OutstandingAppend([], h, c);
    assert [] + [h] == [h];
  }

  /** `ms` are the machines a run goes through. */
  ghost predicate Trace(m: Machine, steps: seq<Step>, ms: seq<Machine>) {
    |ms| == |steps| + 1 && ms[0] == m && forall i :: 0 <= i < |steps| ==> Next(ms[i], steps[i]) == ms[i + 1]
  }

  lemma {:induction false} TraceIsRun(m: Machine, steps: seq<Step>, ms: seq<Machine>)
    requires Trace(m, steps, ms)
    ensures Run(m, steps) == ms[|steps|]
    decreases |steps|
  {
    if steps != [] {
      var n := |steps| - 1;
      forall i | 0 <= i < n ensures Next(ms[..n + 1][i], steps[..n][i]) == ms[..n + 1][i + 1] {
        assert Next(ms[i], steps[i]) == ms[i + 1];
      }
      TraceIsRun(m, steps[..n], ms[..n + 1]);
    }
  }

  /** Nobody has charged the card and nobody is about to. */
  ghost predicate Untouched(start: seq<Card>, c: nat, m: Machine)
    requires c < |start|
  {
    c < |m.db.cards| && m.db.cards[c] == start[c] &&
    (forall h :: 0 <= h < |m.db.holds| ==> m.db.holds[h].cardId != c) &&
    forall s :: s in m.sessions && m.sessions[s].Holding? ==> m.sessions[s].cardId != c
  }

  lemma {:induction false} FindCardSame(a: seq<Card>, b: seq<Card>, token: string)
    requires SameCards(a, b)
    ensures FindCard(a, token) == FindCard(b, token)
  {
    forall i | 0 <= i < |a| ensures a[i].token == b[i].token {
      assert a[i].(spentDay := None).token == b[i].(spentDay := None).token;
    }
    var x, y := FindCard(a, token), FindCard(b, token);
    if x.Some? { assert b[x.value].token == token; }
    if y.Some? { assert a[y.value].token == token; }
  }

  lemma UntouchedCommit(start: seq<Card>, c: nat, m: Machine, s: nat)
    requires c < |start| && Inv(start, m) && Untouched(start, c, m)
    ensures Untouched(start, c, CommitSession(m, s))
  {
    if s in m.sessions {
      var x := m.sessions[s];
      assert Sound(m.db, x);
      if x.Capturing? || x.Reversing? {
        assert Matches(m.db, m.db.holds[x.holdId]);
      }
    }
  }

  lemma UntouchedStep(start: seq<Card>, c: nat, m: Machine, step: Step)
    requires c < |start| && !Chargeable(start, c) && Inv(start, m) && Untouched(start, c, m)
    ensures Untouched(start, c, Next(m, step))
  {
    if step.LockCard? && step.s in m.sessions && m.sessions[step.s].Unseen? {
      FindCardSame(start, m.db.cards, m.sessions[step.s].req.token);
    } else if step.Commit? {
      UntouchedCommit(start, c, m, step.s);
    }
  }

  lemma {:induction false} UntouchedRun(start: seq<Card>, c: nat, steps: seq<Step>)
    requires c < |start| && !Chargeable(start, c)
    ensures Untouched(start, c, Run(Fresh(start), steps))
    decreases |steps|
  {
    if steps != [] {
      var n := |steps| - 1;
      UntouchedRun(start, c, steps[..n]);
      InvRun(start, steps[..n]);
      UntouchedStep(start, c, Run(Fresh(start), steps[..n]), steps[n]);
    }
  }

  lemma {:induction false} NothingOutstanding(holds: seq<Hold>, c: nat)
    requires forall h :: 0 <= h < |holds| ==> holds[h].cardId != c
    ensures Outstanding(holds, c) == 0.0
  {
    if holds != [] {
      NothingOutstanding(holds[..|holds| - 1], c);
    }
  }

  // ----- one settlement per authorization, over every interleaving -----

  /** Nothing is ever deleted; a hold keeps its amount and leaves `Active` at most once. */
  ghost predicate Later(a: Db, b: Db) {
    a.txns <= b.txns && |a.holds| <= |b.holds| &&
    forall h :: 0 <= h < |a.holds| ==>
      b.holds[h].(status := Active) == a.holds[h].(status := Active) &&
      (a.holds[h].status != Active ==> b.holds[h].status == a.holds[h].status)
  }

  lemma LaterWrites(db: Db, t: nat, h: nat, requested: Option<real>)
    requires t < |db.txns| && h < |db.holds| && db.holds[h].status == Active
    ensures Later(db, RecordCapture(db, t, h, requested))
    ensures Later(db, RecordReverse(db, t, h))
  {
  }

  lemma LaterCommit(start: seq<Card>, m: Machine, s: nat)
    requires Inv(start, m) && s in m.sessions
    ensures Later(m.db, CommitSession(m, s).db)
  {
    var x := m.sessions[s];
    assert Sound(m.db, x);
    if x.Capturing? || x.Reversing? {
      assert Matches(m.db, m.db.holds[x.holdId]);
      LaterWrites(m.db, x.transId, x.holdId, if x.Capturing? then x.requested else None);
    }
  }

  lemma LaterStep(start: seq<Card>, m: Machine, step: Step)
    requires Inv(start, m)
    ensures Later(m.db, Next(m, step).db)
  {
    if step.Commit? && step.s in m.sessions {
      LaterCommit(start, m, step.s);
    }
  }

  lemma {:induction false} RunAppend(m: Machine, a: seq<Step>, b: seq<Step>)
    ensures Run(m, a + b) == Run(Run(m, a), b)
    decreases |b|
  {
    if b == [] {
      assert a + b == a;
    } else {
      var n := |b| - 1;
      RunAppend(m, a, b[..n]);
      assert (a + b)[..|a + b| - 1] == a + b[..n];
    }
  }

  /** A settled hold stays as it was settled, whatever happens after. */
  lemma {:induction false} SettledForever(start: seq<Card>, before: seq<Step>, after: seq<Step>)
    ensures Later(Run(Fresh(start), before).db, Run(Fresh(start), before + after).db)
    decreases |after|
  {
    if after == [] {
      assert before + after == before;
    } else {
      var n := |after| - 1;
      SettledForever(start, before, after[..n]);
      InvRun(start, before + after[..n]);
      LaterStep(start, Run(Fresh(start), before + after[..n]), after[n]);
      assert (before + after)[..|before + after| - 1] == before + after[..n];
    }
  }

  /** Only an authorize row has a hold, so nothing else can be captured or reversed. */
  lemma OnlyAuthorizationsSettle(db: Db, t: nat, requested: Option<real>)
    requires Books(db) && t < |db.txns|
    ensures db.txns[t].kind == Authorize <==> FindHold(db.holds, t).Some?
    ensures db.txns[t].kind != Authorize ==>
      DoCapture(db, t, requested) == (db, Failure(HttpError(404, "transaction_not_found"))) &&
      DoReverse(db, t) == (db, Failure(HttpError(404, "transaction_not_found")))
  {
    if FindHold(db.holds, t).Some? {
      assert Matches(db, db.holds[FindHold(db.holds, t).value]);
    }
  }

  /** Authorize rows and holds correspond one to one, capture rows number the
      captured holds, reverse rows the reversed ones; and capture and reverse
      rows are not found by captures and reversals. */
  lemma OneSettlementEach(start: seq<Card>, steps: seq<Step>, t: nat, requested: Option<real>)
    requires t < |Run(Fresh(start), steps).db.txns|
    ensures var db := Run(Fresh(start), steps).db;
      CountTxns(db.txns, Authorize) == |db.holds| &&
      CountTxns(db.txns, Capture) == CountHolds(db.holds, Captured) &&
      CountTxns(db.txns, Reverse) == CountHolds(db.holds, Reversed) &&
      (db.txns[t].kind == Authorize <==> FindHold(db.holds, t).Some?) &&
      (db.txns[t].kind != Authorize ==>
        DoCapture(db, t, requested) == (db, Failure(HttpError(404, "transaction_not_found"))) &&
        DoReverse(db, t) == (db, Failure(HttpError(404, "transaction_not_found"))))
  {
    InvRun(start, steps);
    OnlyAuthorizationsSettle(Run(Fresh(start), steps).db, t, requested);
  }

  // ----- requests served one at a time -----

  datatype Op =
    | OpAuthorize(req: AuthorizeRequest, key: string)
    | OpCapture(transId: nat, requested: Option<real>)
    | OpReverse(transId: nat)

  function Apply(db: Db, op: Op): Db {
    match op
    case OpAuthorize(req, key) => DoAuthorize(db, req, key).0
    case OpCapture(t, requested) => DoCapture(db, t, requested).0
    case OpReverse(t) => DoReverse(db, t).0
  }

  function Serve(db: Db, ops: seq<Op>): Db
    decreases |ops|
  {
    if ops == [] then db else Apply(Serve(db, ops[..|ops| - 1]), ops[|ops| - 1])
  }

  function StepsOf(op: Op): seq<Step> {
    match op
    case OpAuthorize(req, key) => [BeginAuthorize(0, req, key), LockCard(0), Commit(0)]
    case OpCapture(t, requested) => [BeginCapture(0, t, requested), Commit(0)]
    case OpReverse(t) => [BeginReverse(0, t), Commit(0)]
  }

  lemma RunTwo(m: Machine, a: Step, b: Step)
    ensures Run(m, [a, b]) == Next(Next(m, a), b)
  {
    TraceIsRun(m, [a, b], [m, Next(m, a), Next(Next(m, a), b)]);
  }

  lemma RunThree(m: Machine, a: Step, b: Step, c: Step)
    ensures Run(m, [a, b, c]) == Next(Next(Next(m, a), b), c)
  {
    TraceIsRun(m, [a, b, c], [m, Next(m, a), Next(Next(m, a), b), Next(Next(Next(m, a), b), c)]);
  }

  /** One request alone on the machine does what its endpoint does. */
  lemma OpIsRun(db: Db, op: Op)
    ensures Run(Machine(db, map[]), StepsOf(op)) == Machine(Apply(db, op), map[])
  {
    var m := Machine(db, map[]);
    match op
    case OpAuthorize(req, key) =>
      RunThree(m, BeginAuthorize(0, req, key), LockCard(0), Commit(0));
      AuthorizeAlone(db, req, key);
    case OpCapture(t, requested) =>
      RunTwo(m, BeginCapture(0, t, requested), Commit(0));
    case OpReverse(t) =>
      RunTwo(m, BeginReverse(0, t), Commit(0));
  }

  lemma AuthorizeAlone(db: Db, req: AuthorizeRequest, key: string)
    ensures var m1 := Next(Machine(db, map[]), BeginAuthorize(0, req, key));
      Next(Next(m1, LockCard(0)), Commit(0)) == Machine(Apply(db, OpAuthorize(req, key)), map[])
  {
    if FindKey(db.txns, key).None? {
      var m1 := Machine(db, map[0 := Unseen(req, key)]);
      assert Next(Machine(db, map[]), BeginAuthorize(0, req, key)) == m1;
      var c := FindCard(db.cards, req.token);
      if c.Some? {
        assert CardFree(m1, c.value);
      }
    }
  }

  /** Serving requests one at a time is one of the interleavings, so every
      guarantee above holds for it too. */
  lemma {:induction false} ServeIsRun(db: Db, ops: seq<Op>) returns (steps: seq<Step>)
    ensures Run(Machine(db, map[]), steps) == Machine(Serve(db, ops), map[])
    decreases |ops|
  {
    if ops == [] {
      steps := [];
    } else {
      var n := |ops| - 1;
      var earlier := ServeIsRun(db, ops[..n]);
      steps := earlier + StepsOf(ops[n]);
      RunAppend(Machine(db, map[]), earlier, StepsOf(ops[n]));
      OpIsRun(Serve(db, ops[..n]), ops[n]);
    }
  }

  // ----- exactly when the books can be trusted -----

  /** Conservation holds in every run exactly for cards that start with a
      nonnegative, non-NULL `spent_day`, or that no authorization can reach. */
  lemma AccountsIff(start: seq<Card>, c: nat)
    requires c < |start|
    ensures AlwaysAccounts(start, c) <==> WellStarted(start[c]) || !Chargeable(start, c)
  {
    if WellStarted(start[c]) {
      forall steps ensures Accounts(start, c, Run(Fresh(start), steps).db) {
        SpendingExact(start, steps, c);
      }
    } else if !Chargeable(start, c) {
      forall steps ensures Accounts(start, c, Run(Fresh(start), steps).db) {
        UntouchedRun(start, c, steps);
        NothingOutstanding(Run(Fresh(start), steps).db.holds, c);
      }
    } else {
      var steps := BreakingRun(start, c);
      assert !Accounts(start, c, Run(Fresh(start), steps).db);
    }
  }

  /** The smallest histories that lose track: one authorization of a NULL
      `spent_day`, or an authorization of a negative one that is then reversed. */
  function BreakingOps(start: seq<Card>, c: nat): seq<Op>
    requires c < |start|
  {
    var limit := OrZero(start[c].limitDay);
    var charge := OpAuthorize(AuthorizeRequest(start[c].token, if limit > 0.0 then limit else 1.0, "RUB"), "k");
    if start[c].spentDay.None? then [charge] else [charge, OpReverse(0)]
  }

  lemma BreakingRun(start: seq<Card>, c: nat) returns (steps: seq<Step>)
    requires c < |start| && Chargeable(start, c) && !WellStarted(start[c])
    ensures !Accounts(start, c, Run(Fresh(start), steps).db)
  {
    var ops := BreakingOps(start, c);
    var db0 := Db(start, [], []);
    steps := ServeIsRun(db0, ops);
    var db1 := Apply(db0, ops[0]);
    ServeTwo(db0, ops);
    assert db1 == RecordAuthorization(db0, ops[0].req, "k", c);
    var h := Hold(0, c, ops[0].req.amount, Active);
    assert db1.holds == [h];
    OutstandingOne(h, c);
    if |ops| == 2 {
      var db2 := Apply(db1, ops[1]);
      assert FindHold([h], 0) == Some(0);
      assert db2.holds == [h.(status := Reversed)];
      OutstandingOne(h.(status := Reversed), c);
    }
  }

  lemma ServeTwo(db: Db, ops: seq<Op>)
    ensures |ops| == 1 ==> Serve(db, ops) == Apply(db, ops[0])
    ensures |ops| == 2 ==> Serve(db, ops) == Apply(Apply(db, ops[0]), ops[1])
  {
    if |ops| == 2 {
      assert ops[..1] == [ops[0]];
      ServeTwo(db, ops[..1]);
    }
  }

  // ----- exactly when the day limit holds -----

  /** What the card started with and what is really outstanding are within its limit. */
  predicate LimitKept(start: seq<Card>, c: nat, db: Db)
    requires c < |start|
  {
    OrZero(start[c].spentDay) + Outstanding(db.holds, c) <= OrZero(start[c].limitDay)
  }

  ghost predicate LimitAlwaysKept(start: seq<Card>, c: nat)
    requires c < |start|
  {
    forall steps :: LimitKept(start, c, Run(Fresh(start), steps).db)
  }

  /** A positive day limit bounds what is outstanding in every interleaving exactly when
      the card starts within it and `spent_day` is not NULL, or no authorization can
      reach the card. */
  lemma LimitIff(start: seq<Card>, c: nat)
    requires c < |start| && OrZero(start[c].limitDay) > 0.0
    ensures LimitAlwaysKept(start, c) <==> WithinLimit(start[c]) && (start[c].spentDay.Some? || !Chargeable(start, c))
  {
    if !WithinLimit(start[c]) {
      LimitBrokenAtOnce(start, c);
    } else if start[c].spentDay.Some? {
      forall steps ensures LimitKept(start, c, Run(Fresh(start), steps).db) {
        InvRun(start, steps);
        LimitCovers(start, c, Run(Fresh(start), steps).db);
      }
    } else if !Chargeable(start, c) {
      forall steps ensures LimitKept(start, c, Run(Fresh(start), steps).db) {
        UntouchedRun(start, c, steps);
        NothingOutstanding(Run(Fresh(start), steps).db.holds, c);
      }
    } else {
      var steps := LimitBrokenTwice(start, c);
    }
  }

  lemma LimitBrokenAtOnce(start: seq<Card>, c: nat)
    requires c < |start| && !WithinLimit(start[c])
    ensures !LimitAlwaysKept(start, c)
  {
    assert !LimitKept(start, c, Run(Fresh(start), []).db);
  }

  lemma LimitBrokenTwice(start: seq<Card>, c: nat) returns (steps: seq<Step>)
    requires c < |start| && Chargeable(start, c) && start[c].spentDay.None? && OrZero(start[c].limitDay) > 0.0
    ensures !LimitKept(start, c, Run(Fresh(start), steps).db)
  {
    var ops := ChargedTimes(start, c, 2);
    steps := ServeIsRun(Db(start, [], []), ops);
    TwoTimes(OrZero(start[c].limitDay));
  }

  lemma LimitCovers(start: seq<Card>, c: nat, db: Db)
    requires c < |start| && Money(start, db) && start[c].spentDay.Some?
    requires OrZero(start[c].limitDay) > 0.0 && WithinLimit(start[c])
    ensures LimitKept(start, c, db)
  {
    assert start[c].(spentDay := None) == db.cards[c].(spentDay := None);
    assert Covered(start[c], db.cards[c], db.holds, c);
    assert WithinLimit(db.cards[c]);
  }

  /** An amount a card accepts as its first charge. */
  function FirstCharge(card: Card): Amount {
    if OrZero(card.limitDay) > 0.0 then OrZero(card.limitDay) else 1.0
  }

  /** `n` times `a` */
  function Times(a: real, n: nat): real {
    if n == 0 then 0.0 else Times(a, n - 1) + a
  }

  lemma TwoTimes(a: real)
    ensures Times(a, 2) == a + a
  {
    assert Times(a, 1) == a;
  }

  /** `c` has been charged `n` times, and the keys so far are shorter than `n`. */
  predicate ChargedSoFar(start: seq<Card>, c: nat, n: nat, db: Db)
    requires c < |start|
  {
    db.cards == start && Outstanding(db.holds, c) == Times(FirstCharge(start[c]), n) &&
    forall t :: 0 <= t < |db.txns| && db.txns[t].key.Some? ==> |db.txns[t].key.value| < n
  }

  /** A card with a NULL `spent_day` can be charged its whole limit any number of times. */
  lemma {:induction false} ChargedTimes(start: seq<Card>, c: nat, n: nat) returns (ops: seq<Op>)
    requires c < |start| && Chargeable(start, c) && start[c].spentDay.None?
    ensures ChargedSoFar(start, c, n, Serve(Db(start, [], []), ops))
    decreases n
  {
    ops := [];
    if n > 0 {
      ops := ChargedTimes(start, c, n - 1);
      var op := OpAuthorize(AuthorizeRequest(start[c].token, FirstCharge(start[c]), "RUB"), seq(n - 1, _ => 'k'));
      ChargedOnceMore(start, c, n - 1, Serve(Db(start, [], []), ops), op);
      Extended(ops, op);
      ops := ops + [op];
    }
  }

  lemma ChargedOnceMore(start: seq<Card>, c: nat, n: nat, db: Db, op: Op)
    requires c < |start| && Chargeable(start, c) && start[c].spentDay.None? && ChargedSoFar(start, c, n, db)
    requires op.OpAuthorize? && |op.key| == n && op.req.token == start[c].token &&
      op.req.amount == FirstCharge(start[c])
    ensures ChargedSoFar(start, c, n + 1, Apply(db, op))
  {
    assert FindKey(db.txns, op.key).None?;
    OutstandingAppend(db.holds, Hold(|db.txns|, c, op.req.amount, Active), c);
  }
}
