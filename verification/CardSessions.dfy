/** The ledger under concurrent requests: database transactions that read, wait
    for row locks and commit in any order, or die before committing. */
module CardSessions {
  import opened Wrappers
  import opened CardLedger

  /** An open database transaction. */
  datatype Session =
    | Unseen(req: AuthorizeRequest, key: string)             // its key was on no transaction
    | Holding(req: AuthorizeRequest, key: string, cardId: nat)  // card row locked, limit checked
    | Capturing(transId: nat, holdId: nat, requested: Option<real>)  // hold row locked, seen active
    | Reversing(transId: nat, holdId: nat)

  datatype Machine = Machine(db: Db, sessions: map<nat, Session>)

  datatype Step =
    | BeginAuthorize(s: nat, req: AuthorizeRequest, key: string)
    | LockCard(s: nat)
    | BeginCapture(s: nat, transId: nat, requested: Option<real>)
    | BeginReverse(s: nat, transId: nat)
    | Commit(s: nat)
    | Abort(s: nat)

  // ----- row locks -----

  predicate CardFree(m: Machine, c: nat) {
    forall s :: s in m.sessions && m.sessions[s].Holding? ==> m.sessions[s].cardId != c
  }

  predicate HoldFree(m: Machine, h: nat) {
    forall s :: s in m.sessions && (m.sessions[s].Capturing? || m.sessions[s].Reversing?) ==> m.sessions[s].holdId != h
  }

  // ----- steps; a step that cannot be taken leaves the machine as it is -----

  function Close(m: Machine, s: nat): Machine {
    m.(sessions := m.sessions - {s})
  }

  /** `SELECT ... FROM cards ... FOR UPDATE` and the checks on the row it returns. */
  function TakeCard(m: Machine, s: nat): Machine {
    if s !in m.sessions || !m.sessions[s].Unseen? then m
    else
      var u := m.sessions[s];
      var c := FindCard(m.db.cards, u.req.token);
      if c.None? then Close(m, s)
      else if !CardFree(m, c.value) then m
      else if !m.db.cards[c.value].active then Close(m, s)
      else if EnsureCardCanSpend(m.db.cards[c.value], u.req.amount).Some? then Close(m, s)
      else m.(sessions := m.sessions[s := Holding(u.req, u.key, c.value)])
  }

  /** `SELECT ... FROM transactions JOIN holds ... FOR UPDATE` and the status check. */
  function TakeHold(m: Machine, s: nat, transId: nat, open: nat -> Session): Machine {
    var h := FindActiveHold(m.db, transId, "");
    if s in m.sessions || h.Failure? || !HoldFree(m, h.value) then m
    else m.(sessions := m.sessions[s := open(h.value)])
  }

  /** All writes of a session and its commit. A reversal waits for the card row. */
  function CommitSession(m: Machine, s: nat): Machine {
    if s !in m.sessions then m
    else
      match m.sessions[s]
      case Unseen(_, _) => m
      case Holding(req, key, c) =>
        if c < |m.db.cards| then Close(m.(db := RecordAuthorization(m.db, req, key, c)), s) else m
      case Capturing(t, h, requested) =>
        if t < |m.db.txns| && h < |m.db.holds| then Close(m.(db := RecordCapture(m.db, t, h, requested)), s) else m
      case Reversing(t, h) =>
        if t < |m.db.txns| && h < |m.db.holds| && CardFree(m, m.db.txns[t].cardId)
        then Close(m.(db := RecordReverse(m.db, t, h)), s) else m
  }

  function Next(m: Machine, step: Step): Machine {
    match step
    case BeginAuthorize(s, req, key) =>
      if s in m.sessions || FindKey(m.db.txns, key).Some? then m
      else m.(sessions := m.sessions[s := Unseen(req, key)])
    case LockCard(s) => TakeCard(m, s)
    case BeginCapture(s, t, requested) => TakeHold(m, s, t, (h: nat) => Capturing(t, h, requested))
    case BeginReverse(s, t) => TakeHold(m, s, t, (h: nat) => Reversing(t, h))
    case Commit(s) => CommitSession(m, s)
    case Abort(s) => Close(m, s)
  }

  function Run(m: Machine, steps: seq<Step>): Machine
    decreases |steps|
  {
    if steps == [] then m else Next(Run(m, steps[..|steps| - 1]), steps[|steps| - 1])
  }

  /** Cards as given, no transactions, no holds, nobody connected. */
  function Fresh(cards: seq<Card>): Machine {
    Machine(Db(cards, [], []), map[])
  }

  // ----- the books -----

  /** What the card owes to holds that were not reversed. */
  function Outstanding(holds: seq<Hold>, c: nat): real {
    if holds == [] then 0.0
    else
      var last := holds[|holds| - 1];
      Outstanding(holds[..|holds| - 1], c) + if last.cardId == c && last.status != Reversed then last.amount else 0.0
  }

  function CountTxns(txns: seq<Txn>, k: Kind): nat {
    if txns == [] then 0
    else CountTxns(txns[..|txns| - 1], k) + if txns[|txns| - 1].kind == k then 1 else 0
  }

  function CountHolds(holds: seq<Hold>, s: HoldStatus): nat {
    if holds == [] then 0
    else CountHolds(holds[..|holds| - 1], s) + if holds[|holds| - 1].status == s then 1 else 0
  }

  /** Hold and authorize row belong to each other. */
  predicate Matches(db: Db, h: Hold) {
    h.transId < |db.txns| && h.amount > 0.0 &&
    var t := db.txns[h.transId];
    t.kind == Authorize && t.cardId == h.cardId < |db.cards| && t.amount == h.amount
  }

  /** Every hold has its own authorize row, in the same order. */
  ghost predicate Paired(db: Db) {
    (forall i :: 0 <= i < |db.holds| ==> Matches(db, db.holds[i])) &&
    (forall i, j :: 0 <= i < j < |db.holds| ==> db.holds[i].transId < db.holds[j].transId)
  }

  /** Every authorize row has a hold. */
  ghost predicate AllHeld(db: Db) {
    forall t :: 0 <= t < |db.txns| && db.txns[t].kind == Authorize ==> FindHold(db.holds, t).Some?
  }

  predicate Tallies(db: Db) {
    CountTxns(db.txns, Authorize) == |db.holds| &&
    CountTxns(db.txns, Capture) == CountHolds(db.holds, Captured) &&
    CountTxns(db.txns, Reverse) == CountHolds(db.holds, Reversed)
  }

  /** Holds and authorize rows correspond one to one, captures and reversals to settled holds. */
  ghost predicate Books(db: Db) {
    Paired(db) && AllHeld(db) && Tallies(db)
  }

  /** Only `spent_day` of a card ever changes. */
  ghost predicate SameCards(a: seq<Card>, b: seq<Card>) {
    |a| == |b| && forall c :: 0 <= c < |a| ==> a[c].(spentDay := None) == b[c].(spentDay := None)
  }

  /** The condition under which the clamp at zero stays idle. */
  predicate WellStarted(card: Card) {
    card.spentDay.Some? && card.spentDay.value >= 0.0
  }

  /** `spent_day` is the starting value plus what is outstanding. */
  predicate Conserved(start: Card, now: Card, holds: seq<Hold>, c: nat) {
    start.spentDay.Some? && now.spentDay == Some(start.spentDay.value + Outstanding(holds, c))
  }

  /** `spent_day` is at least the starting value plus what is outstanding. */
  predicate Covered(start: Card, now: Card, holds: seq<Hold>, c: nat) {
    start.spentDay.Some? && now.spentDay.Some? && start.spentDay.value + Outstanding(holds, c) <= now.spentDay.value
  }

  /** What a session relies on is still true, because of the rows it has locked. */
  ghost predicate Sound(db: Db, x: Session) {
    match x
    case Unseen(_, _) => true
    case Holding(req, _, c) => c < |db.cards| && EnsureCardCanSpend(db.cards[c], req.amount).None?
    case Capturing(t, h, _) => h < |db.holds| && db.holds[h].transId == t && db.holds[h].status == Active
    case Reversing(t, h) => h < |db.holds| && db.holds[h].transId == t && db.holds[h].status == Active
  }

  /** No two sessions have locked the same row. */
  predicate Compatible(x: Session, y: Session) {
    (x.Holding? && y.Holding? ==> x.cardId != y.cardId) &&
    ((x.Capturing? || x.Reversing?) && (y.Capturing? || y.Reversing?) ==> x.holdId != y.holdId)
  }

  ghost predicate Locks(m: Machine) {
    (forall s :: s in m.sessions ==> Sound(m.db, m.sessions[s])) &&
    (forall s, t :: s in m.sessions && t in m.sessions && s != t ==> Compatible(m.sessions[s], m.sessions[t]))
  }

  /** Conservation and the day limit, card by card. `Covered` and the limit together bound
      what is really outstanding; of a card with a NULL `spent_day` the limit alone
      bounds only the spending it shows. */
  ghost predicate Money(start: seq<Card>, db: Db) {
    SameCards(start, db.cards) &&
    (forall c :: 0 <= c < |start| && start[c].spentDay.Some? ==> Covered(start[c], db.cards[c], db.holds, c)) &&
    (forall c :: 0 <= c < |start| && WellStarted(start[c]) ==> Conserved(start[c], db.cards[c], db.holds, c)) &&
    (forall c :: 0 <= c < |start| && WithinLimit(start[c]) ==> WithinLimit(db.cards[c]))
  }

  ghost predicate Inv(start: seq<Card>, m: Machine) {
    Books(m.db) && Locks(m) && Money(start, m.db)
  }

  // ----- sums and counts under the writes -----

  lemma OutstandingAppend(holds: seq<Hold>, h: Hold, c: nat)
    ensures Outstanding(holds + [h], c) ==
      Outstanding(holds, c) + if h.cardId == c && h.status != Reversed then h.amount else 0.0
  {
    assert (holds + [h])[..|holds|] == holds;
  }

  lemma {:induction false} OutstandingSettle(holds: seq<Hold>, h: nat, s: HoldStatus, c: nat)
    requires h < |holds| && holds[h].status == Active && s != Active
    ensures Outstanding(SetStatus(holds, h, s), c) ==
      Outstanding(holds, c) - if s == Reversed && holds[h].cardId == c then holds[h].amount else 0.0
  {
    var n, after := |holds| - 1, SetStatus(holds, h, s);
    if h == n {
      assert after[..n] == holds[..n];
    } else {
      assert after[..n] == SetStatus(holds[..n], h, s);
      OutstandingSettle(holds[..n], h, s, c);
    }
  }

  lemma {:induction false} OutstandingBounds(holds: seq<Hold>, c: nat)
    requires forall i :: 0 <= i < |holds| ==> holds[i].amount > 0.0
    ensures Outstanding(holds, c) >= 0.0
    ensures forall i :: 0 <= i < |holds| && holds[i].cardId == c && holds[i].status != Reversed ==>
      holds[i].amount <= Outstanding(holds, c)
  {
    if holds != [] {
      OutstandingBounds(holds[..|holds| - 1], c);
    }
  }

  lemma CountTxnsAppend(txns: seq<Txn>, t: Txn, k: Kind)
    ensures CountTxns(txns + [t], k) == CountTxns(txns, k) + if t.kind == k then 1 else 0
  {
    assert (txns + [t])[..|txns|] == txns;
  }

  lemma CountHoldsAppend(holds: seq<Hold>, h: Hold, s: HoldStatus)
    ensures CountHolds(holds + [h], s) == CountHolds(holds, s) + if h.status == s then 1 else 0
  {
    assert (holds + [h])[..|holds|] == holds;
  }

  lemma {:induction false} CountHoldsSettle(holds: seq<Hold>, h: nat, s: HoldStatus, k: HoldStatus)
    requires h < |holds| && holds[h].status == Active && s != Active
    ensures CountHolds(SetStatus(holds, h, s), k) ==
      CountHolds(holds, k) + (if k == s then 1 else 0) - (if k == Active then 1 else 0)
  {
    var n, after := |holds| - 1, SetStatus(holds, h, s);
    if h == n {
      assert after[..n] == holds[..n];
    } else {
      assert after[..n] == SetStatus(holds[..n], h, s);
      CountHoldsSettle(holds[..n], h, s, k);
    }
  }

  // ----- every step keeps the books -----

  lemma AllHeldLater(db: Db, after: Db)
    requires AllHeld(db) && |after.txns| == |db.txns| + 1 && after.txns[..|db.txns|] == db.txns
    requires |after.holds| >= |db.holds|
    requires forall i :: 0 <= i < |db.holds| ==> after.holds[i].transId == db.holds[i].transId
    requires after.txns[|db.txns|].kind == Authorize ==>
      |after.holds| > |db.holds| && after.holds[|db.holds|].transId == |db.txns|
    ensures AllHeld(after)
  {
    forall t | 0 <= t < |after.txns| && after.txns[t].kind == Authorize
      ensures FindHold(after.holds, t).Some?
    {
      if t < |db.txns| {
        assert after.txns[..|db.txns|][t] == db.txns[t];
        var h := FindHold(db.holds, t).value;
        assert after.holds[h].transId == t;
      }
    }
  }

  lemma PairedLater(db: Db, after: Db)
    requires Paired(db) && |after.cards| == |db.cards|
    requires |after.txns| == |db.txns| + 1 && after.txns[..|db.txns|] == db.txns
    requires |after.holds| >= |db.holds|
    requires forall i :: 0 <= i < |db.holds| ==> after.holds[i].(status := Active) == db.holds[i].(status := Active)
    requires forall i :: |db.holds| <= i < |after.holds| ==>
      i == |db.holds| && Matches(after, after.holds[i]) && after.holds[i].transId == |db.txns|
    ensures Paired(after)
  {
    forall i | 0 <= i < |db.holds|
      ensures Matches(after, after.holds[i]) && after.holds[i].transId == db.holds[i].transId < |db.txns|
    {
      assert Matches(db, db.holds[i]);
      assert after.txns[..|db.txns|][db.holds[i].transId] == db.txns[db.holds[i].transId];
    }
  }

  lemma TalliesLater(db: Db, t: Txn)
    requires Tallies(db)
    ensures CountTxns(db.txns + [t], Authorize) == |db.holds| + if t.kind == Authorize then 1 else 0
    ensures CountTxns(db.txns + [t], Capture) == CountHolds(db.holds, Captured) + if t.kind == Capture then 1 else 0
    ensures CountTxns(db.txns + [t], Reverse) == CountHolds(db.holds, Reversed) + if t.kind == Reverse then 1 else 0
  {
    CountTxnsAppend(db.txns, t, Authorize);
    CountTxnsAppend(db.txns, t, Capture);
    CountTxnsAppend(db.txns, t, Reverse);
  }

  lemma BooksAfterAuthorization(db: Db, req: AuthorizeRequest, key: string, c: nat)
    requires Books(db) && c < |db.cards|
    ensures Books(RecordAuthorization(db, req, key, c))
  {
    var after := RecordAuthorization(db, req, key, c);
    var t, h := after.txns[|db.txns|], after.holds[|db.holds|];
    PairedLater(db, after);
    AllHeldLater(db, after);
    TalliesLater(db, t);
    CountHoldsAppend(db.holds, h, Captured);
    CountHoldsAppend(db.holds, h, Reversed);
  }

  lemma BooksAfterSettling(db: Db, after: Db, h: nat, s: HoldStatus, t: Txn)
    requires Books(db) && h < |db.holds| && db.holds[h].status == Active
    requires (s == Captured && t.kind == Capture) || (s == Reversed && t.kind == Reverse)
    requires |after.cards| == |db.cards| && after.txns == db.txns + [t] && after.holds == SetStatus(db.holds, h, s)
    ensures Books(after)
  {
    PairedLater(db, after);
    AllHeldLater(db, after);
    TalliesLater(db, t);
    CountHoldsSettle(db.holds, h, s, Captured);
    CountHoldsSettle(db.holds, h, s, Reversed);
  }

  /** Locks outlast the commit of another session that touched none of their rows. */
  lemma LocksAfterCommit(m: Machine, s: nat, after: Db)
    requires Locks(m)
    requires |after.cards| == |m.db.cards| && |after.holds| >= |m.db.holds|
    requires forall u :: u in m.sessions && u != s && m.sessions[u].Holding? ==>
      m.sessions[u].cardId < |m.db.cards| ==> after.cards[m.sessions[u].cardId] == m.db.cards[m.sessions[u].cardId]
    requires forall u :: u in m.sessions && u != s && (m.sessions[u].Capturing? || m.sessions[u].Reversing?) ==>
      m.sessions[u].holdId < |m.db.holds| ==> after.holds[m.sessions[u].holdId] == m.db.holds[m.sessions[u].holdId]
    ensures Locks(Close(m.(db := after), s))
  {
    var n := Close(m.(db := after), s);
    forall u | u in n.sessions ensures Sound(after, n.sessions[u]) {
      assert Sound(m.db, m.sessions[u]);
    }
  }

  lemma CardAfterAuthorization(start: Card, db: Db, req: AuthorizeRequest, key: string, c: nat, k: nat)
    requires c < |db.cards| && k < |db.cards| && EnsureCardCanSpend(db.cards[c], req.amount).None?
    ensures var after := RecordAuthorization(db, req, key, c);
      (Conserved(start, db.cards[k], db.holds, k) ==> Conserved(start, after.cards[k], after.holds, k)) &&
      (Covered(start, db.cards[k], db.holds, k) ==> Covered(start, after.cards[k], after.holds, k)) &&
      (WithinLimit(db.cards[k]) ==> WithinLimit(after.cards[k]))
  {
    OutstandingAppend(db.holds, Hold(|db.txns|, c, req.amount, Active), k);
  }

  lemma MoneyAfterAuthorization(start: seq<Card>, db: Db, req: AuthorizeRequest, key: string, c: nat)
    requires Money(start, db) && c < |db.cards| && EnsureCardCanSpend(db.cards[c], req.amount).None?
    ensures Money(start, RecordAuthorization(db, req, key, c))
  {
    forall k: nat | k < |start| { CardAfterAuthorization(start[k], db, req, key, c, k); }
  }

  lemma MoneyAfterCapture(start: seq<Card>, db: Db, t: nat, h: nat, requested: Option<real>)
    requires Money(start, db) && t < |db.txns| && h < |db.holds| && db.holds[h].status == Active
    ensures Money(start, RecordCapture(db, t, h, requested))
  {
    forall k: nat { OutstandingSettle(db.holds, h, Captured, k); }
  }

  lemma ConservedAfterReverse(start: Card, db: Db, t: nat, h: nat, c: nat)
    requires t < |db.txns| && h < |db.holds| && c < |db.cards| && db.holds[h].status == Active
    requires Conserved(start, db.cards[c], db.holds, c) && db.txns[t].cardId == db.holds[h].cardId
    requires db.holds[h].cardId == c ==> OrZero(db.cards[c].spentDay) - db.holds[h].amount >= 0.0
    ensures var after := RecordReverse(db, t, h); Conserved(start, after.cards[c], after.holds, c)
  {
    OutstandingSettle(db.holds, h, Reversed, c);
  }

  lemma CoveredAfterReverse(start: Card, db: Db, t: nat, h: nat, c: nat)
    requires t < |db.txns| && h < |db.holds| && c < |db.cards| && db.holds[h].status == Active &&
      db.holds[h].amount > 0.0
    requires Covered(start, db.cards[c], db.holds, c) && db.txns[t].cardId == db.holds[h].cardId
    ensures var after := RecordReverse(db, t, h); Covered(start, after.cards[c], after.holds, c)
  {
    OutstandingSettle(db.holds, h, Reversed, c);
  }

  lemma MoneyAfterReverse(start: seq<Card>, db: Db, h: nat)
    requires Money(start, db) && Books(db) && h < |db.holds| && db.holds[h].status == Active
    ensures db.holds[h].transId < |db.txns| && Money(start, RecordReverse(db, db.holds[h].transId, h))
  {
    assert Matches(db, db.holds[h]);
    ClampIdle(start, db, h);
    forall c | 0 <= c < |start| && WellStarted(start[c])
      ensures var after := RecordReverse(db, db.holds[h].transId, h);
        Conserved(start[c], after.cards[c], after.holds, c)
    {
      ConservedAfterReverse(start[c], db, db.holds[h].transId, h, c);
    }
    forall c | 0 <= c < |start| && start[c].spentDay.Some?
      ensures var after := RecordReverse(db, db.holds[h].transId, h);
        Covered(start[c], after.cards[c], after.holds, c)
    {
      CoveredAfterReverse(start[c], db, db.holds[h].transId, h, c);
    }
  }

  lemma InvAfterAuthorization(start: seq<Card>, m: Machine, s: nat)
    requires Inv(start, m) && s in m.sessions && m.sessions[s].Holding?
    ensures Inv(start, CommitSession(m, s))
  {
    var Holding(req, key, c) := m.sessions[s];
    assert Sound(m.db, m.sessions[s]);
    var after := RecordAuthorization(m.db, req, key, c);
    BooksAfterAuthorization(m.db, req, key, c);
    forall u | u in m.sessions && u != s && m.sessions[u].Holding? ensures m.sessions[u].cardId != c {
      assert Compatible(m.sessions[u], m.sessions[s]);
    }
    LocksAfterCommit(m, s, after);
    MoneyAfterAuthorization(start, m.db, req, key, c);
  }

  lemma InvAfterCapture(start: seq<Card>, m: Machine, s: nat)
    requires Inv(start, m) && s in m.sessions && m.sessions[s].Capturing?
    ensures Inv(start, CommitSession(m, s))
  {
    var Capturing(t, h, requested) := m.sessions[s];
    assert Sound(m.db, m.sessions[s]);
    assert Matches(m.db, m.db.holds[h]);
    var after := RecordCapture(m.db, t, h, requested);
    BooksAfterSettling(m.db, after, h, Captured, after.txns[|m.db.txns|]);
    SettlersApart(m, s, h);
    LocksAfterCommit(m, s, after);
    MoneyAfterCapture(start, m.db, t, h, requested);
  }

  lemma SettlersApart(m: Machine, s: nat, h: nat)
    requires Locks(m) && s in m.sessions
    requires (m.sessions[s].Capturing? || m.sessions[s].Reversing?) && m.sessions[s].holdId == h
    ensures forall u :: u in m.sessions && u != s && (m.sessions[u].Capturing? || m.sessions[u].Reversing?) ==>
      m.sessions[u].holdId != h
  {
    forall u | u in m.sessions && u != s && (m.sessions[u].Capturing? || m.sessions[u].Reversing?)
      ensures m.sessions[u].holdId != h
    {
      assert Compatible(m.sessions[u], m.sessions[s]);
    }
  }

  lemma InvAfterReverse(start: seq<Card>, m: Machine, s: nat)
    requires Inv(start, m) && s in m.sessions && m.sessions[s].Reversing?
    ensures Inv(start, CommitSession(m, s))
  {
    var Reversing(t, h) := m.sessions[s];
    assert Sound(m.db, m.sessions[s]);
    assert Matches(m.db, m.db.holds[h]);
    var c := m.db.txns[t].cardId;
    if CardFree(m, c) {
      var after := RecordReverse(m.db, t, h);
      BooksAfterSettling(m.db, after, h, Reversed, after.txns[|m.db.txns|]);
      SettlersApart(m, s, h);
      LocksAfterCommit(m, s, after);
      MoneyAfterReverse(start, m.db, h);
    }
  }

  /** The clamp at zero has nothing to clamp on a well-started card. */
  lemma ClampIdle(start: seq<Card>, db: Db, h: nat)
    requires Money(start, db) && Books(db) && h < |db.holds| && db.holds[h].status != Reversed
    ensures var hold := db.holds[h];
      hold.cardId < |start| == |db.cards| &&
      (WellStarted(start[hold.cardId]) ==>
        var spent := db.cards[hold.cardId].spentDay;
        spent.Some? && spent.value - hold.amount >= 0.0)
  {
    assert Matches(db, db.holds[h]);
    forall i | 0 <= i < |db.holds| ensures db.holds[i].amount > 0.0 {
      assert Matches(db, db.holds[i]);
    }
    OutstandingBounds(db.holds, db.holds[h].cardId);
  }

  lemma LocksAfterOpening(m: Machine, s: nat, x: Session)
    requires Locks(m) && Sound(m.db, x)
    requires forall u :: u in m.sessions && u != s ==> Compatible(x, m.sessions[u]) && Compatible(m.sessions[u], x)
    ensures Locks(m.(sessions := m.sessions[s := x]))
  {
  }

  lemma InvAfterTakeCard(start: seq<Card>, m: Machine, s: nat)
    requires Inv(start, m)
    ensures Inv(start, TakeCard(m, s))
  {
    if TakeCard(m, s) != m && s in TakeCard(m, s).sessions {
      LocksAfterOpening(m, s, TakeCard(m, s).sessions[s]);
    }
  }

  lemma InvAfterTakeHold(start: seq<Card>, m: Machine, step: Step)
    requires Inv(start, m) && (step.BeginCapture? || step.BeginReverse?)
    ensures Inv(start, Next(m, step))
  {
    if Next(m, step) != m {
      LocksAfterOpening(m, step.s, Next(m, step).sessions[step.s]);
    }
  }

  lemma InvStep(start: seq<Card>, m: Machine, step: Step)
    requires Inv(start, m)
    ensures Inv(start, Next(m, step))
  {
    match step
    case BeginAuthorize(s, req, key) =>
    case LockCard(s) => InvAfterTakeCard(start, m, s);
    case BeginCapture(s, t, requested) => InvAfterTakeHold(start, m, step);
    case BeginReverse(s, t) => InvAfterTakeHold(start, m, step);
    case Abort(s) =>
    case Commit(s) =>
      if s in m.sessions {
        if m.sessions[s].Holding? { InvAfterAuthorization(start, m, s); }
        if m.sessions[s].Capturing? { InvAfterCapture(start, m, s); }
        if m.sessions[s].Reversing? { InvAfterReverse(start, m, s); }
      }
  }

  /** The invariant holds after every interleaving of every set of requests. */
  lemma {:induction false} InvRun(start: seq<Card>, steps: seq<Step>)
    ensures Inv(start, Run(Fresh(start), steps))
    decreases |steps|
  {
    if steps != [] {
      InvRun(start, steps[..|steps| - 1]);
      InvStep(start, Run(Fresh(start), steps[..|steps| - 1]), steps[|steps| - 1]);
    }
  }
}
