/** How far down reversals can bring the spending a card shows, and what no step
    of any session changes about that. */
module CardFloors {
  import opened Wrappers
  import opened Sequences
  import opened CardLedger
  import opened CardSessions
  import opened CardGuarantees
  import opened CardKeys

  // ----- the active holds of a card -----

  function ActiveOn(holds: seq<Hold>, c: nat): real {
    if holds == [] then 0.0
    else
      var last := holds[|holds| - 1];
      ActiveOn(holds[..|holds| - 1], c) + if last.cardId == c && last.status == Active then last.amount else 0.0
  }

  lemma ActiveAppend(holds: seq<Hold>, h: Hold, c: nat)
    ensures ActiveOn(holds + [h], c) ==
      ActiveOn(holds, c) + if h.cardId == c && h.status == Active then h.amount else 0.0
  {
    Extended(holds, h);
  }

  lemma {:induction false} ActiveSettle(holds: seq<Hold>, h: nat, s: HoldStatus, c: nat)
    requires h < |holds| && holds[h].status == Active && s != Active
    ensures ActiveOn(SetStatus(holds, h, s), c) ==
      ActiveOn(holds, c) - if holds[h].cardId == c then holds[h].amount else 0.0
  {
    var n, after := |holds| - 1, SetStatus(holds, h, s);
    if h == n {
      assert after[..n] == holds[..n];
    } else {
      assert after[..n] == SetStatus(holds[..n], h, s);
      ActiveSettle(holds[..n], h, s, c);
    }
  }

  lemma {:induction false} ActiveBounds(holds: seq<Hold>, c: nat)
    requires forall i :: 0 <= i < |holds| ==> holds[i].amount > 0.0
    ensures ActiveOn(holds, c) >= 0.0
    ensures forall i :: 0 <= i < |holds| && holds[i].cardId == c && holds[i].status == Active ==>
      holds[i].amount <= ActiveOn(holds, c)
    ensures (forall i :: 0 <= i < |holds| && holds[i].cardId == c ==> holds[i].status != Active) ==>
      ActiveOn(holds, c) == 0.0
  {
    if holds != [] {
      ActiveBounds(holds[..|holds| - 1], c);
    }
  }

  lemma ActiveBoundsIn(db: Db, c: nat)
    requires Books(db)
    ensures ActiveOn(db.holds, c) >= 0.0
    ensures forall i :: 0 <= i < |db.holds| && db.holds[i].cardId == c && db.holds[i].status == Active ==>
      db.holds[i].amount <= ActiveOn(db.holds, c)
    ensures (forall i :: 0 <= i < |db.holds| && db.holds[i].cardId == c ==> db.holds[i].status != Active) ==>
      ActiveOn(db.holds, c) == 0.0
  {
    forall i | 0 <= i < |db.holds| ensures db.holds[i].amount > 0.0 {
      assert Matches(db, db.holds[i]);
    }
    ActiveBounds(db.holds, c);
  }

  // ----- floors -----

  /** The least spending that reversals can make the card show. A negative value is not
      lowered any more: the clamp at zero would raise it. */
  function Floor(db: Db, c: nat): real
    requires c < |db.cards|
  {
    var spent := OrZero(db.cards[c].spentDay);
    if spent < 0.0 then spent
    else if spent < ActiveOn(db.holds, c) then 0.0
    else spent - ActiveOn(db.holds, c)
  }

  /** The floor after a charge: the charge can be reversed again, but a negative floor is lost. */
  function Recharged(floor: real, amount: real): real {
    if floor >= 0.0 then floor else if floor + amount < 0.0 then floor + amount else 0.0
  }

  /** The floor of card `k` once card `c` has been charged. */
  function FloorAfter(db: Db, c: nat, amount: real, k: nat): real
    requires k < |db.cards|
  {
    if k == c then Recharged(Floor(db, k), amount) else Floor(db, k)
  }

  predicate AcceptedAt(card: Card, floor: real, amount: real) {
    card.active && EnsureCardCanSpend(card.(spentDay := Some(floor)), amount).None?
  }

  /** The request would be accepted with its card at its floor. */
  predicate CouldAccept(db: Db, req: AuthorizeRequest) {
    var c := FindCard(db.cards, req.token);
    c.Some? && AcceptedAt(db.cards[c.value], Floor(db, c.value), req.amount)
  }

  /** The same once card `c` has been charged. */
  predicate CouldAcceptAfter(db: Db, c: nat, amount: real, req: AuthorizeRequest) {
    var k := FindCard(db.cards, req.token);
    k.Some? && AcceptedAt(db.cards[k.value], FloorAfter(db, c, amount, k.value), req.amount)
  }

  /** The session is an authorization that has its card, or could get it. */
  predicate CouldCommit(m: Machine, s: nat) {
    s in m.sessions &&
    (m.sessions[s].Holding? || (m.sessions[s].Unseen? && CouldAccept(m.db, m.sessions[s].req)))
  }

  // ----- reachable states -----

  ghost predicate Reachable(start: seq<Card>, m: Machine) {
    exists steps :: Run(Fresh(start), steps) == m
  }

  lemma ReachableRun(start: seq<Card>, m: Machine, steps: seq<Step>)
    requires Reachable(start, m)
    ensures Reachable(start, Run(m, steps))
  {
    var before :| Run(Fresh(start), before) == m;
    RunAppend(Fresh(start), before, steps);
    assert Run(Fresh(start), before + steps) == Run(m, steps);
  }

  lemma ReachableNext(start: seq<Card>, m: Machine, step: Step)
    requires Reachable(start, m)
    ensures Reachable(start, Next(m, step))
  {
    RunOne(m, step);
    ReachableRun(start, m, [step]);
  }

  lemma ReachableInv(start: seq<Card>, m: Machine)
    requires Reachable(start, m)
    ensures Inv(start, m)
  {
    var before :| Run(Fresh(start), before) == m;
    InvRun(start, before);
  }

  lemma ReachableBooks(start: seq<Card>, m: Machine)
    requires Reachable(start, m)
    ensures Books(m.db)
  {
    ReachableInv(start, m);
  }

  /** What an open session relies on. */
  lemma ReachableSession(start: seq<Card>, m: Machine, s: nat)
    requires Reachable(start, m) && s in m.sessions
    ensures var x := m.sessions[s];
      (x.Holding? ==> x.cardId < |m.db.cards|) &&
      (x.Capturing? || x.Reversing? ==>
        x.holdId < |m.db.holds| && m.db.holds[x.holdId].status == Active &&
        m.db.holds[x.holdId].transId == x.transId < |m.db.txns|)
  {
    ReachableInv(start, m);
    var x := m.sessions[s];
    assert Sound(m.db, x);
    if x.Capturing? || x.Reversing? {
      assert Matches(m.db, m.db.holds[x.holdId]);
    }
  }

  lemma RunOne(m: Machine, a: Step)
    ensures Run(m, [a]) == Next(m, a)
  {
    TraceIsRun(m, [a], [m, Next(m, a)]);
  }

  // ----- no step brings a card below its floor -----

  /** No card has a lower floor than before. */
  ghost predicate FloorsKept(a: Db, b: Db) {
    SameCards(a.cards, b.cards) && forall k :: 0 <= k < |a.cards| ==> Floor(a, k) <= Floor(b, k)
  }

  /** Transactions are only added, and the cards have the floors they had. */
  ghost predicate SameFloors(a: Db, b: Db) {
    a.txns <= b.txns && SameCards(a.cards, b.cards) &&
    forall k :: 0 <= k < |a.cards| ==> Floor(b, k) == Floor(a, k)
  }

  /** Transactions are only added, and the cards have the floors that charging `c` gives them. */
  ghost predicate ChargedFloors(a: Db, b: Db, c: nat, amount: real) {
    a.txns <= b.txns && SameCards(a.cards, b.cards) &&
    forall k :: 0 <= k < |a.cards| ==> Floor(b, k) == FloorAfter(a, c, amount, k)
  }

  lemma FloorAfterAuthorization(db: Db, req: AuthorizeRequest, key: string, c: nat, k: nat)
    requires Books(db) && c < |db.cards| && k < |db.cards|
    ensures Floor(RecordAuthorization(db, req, key, c), k) == FloorAfter(db, c, req.amount, k)
  {
    ActiveAppend(db.holds, Hold(|db.txns|, c, req.amount, Active), k);
    ActiveBoundsIn(db, k);
  }

  lemma FloorAfterCapture(db: Db, t: nat, h: nat, requested: Option<real>, k: nat)
    requires Books(db) && t < |db.txns| && h < |db.holds| && db.holds[h].status == Active && k < |db.cards|
    ensures Floor(RecordCapture(db, t, h, requested), k) >= Floor(db, k)
  {
    assert Matches(db, db.holds[h]);
    ActiveSettle(db.holds, h, Captured, k);
  }

  lemma FloorAfterReverse(db: Db, h: nat, k: nat)
    requires Books(db) && h < |db.holds| && db.holds[h].status == Active && k < |db.cards|
    ensures db.holds[h].transId < |db.txns| && db.holds[h].cardId < |db.cards|
    ensures Floor(RecordReverse(db, db.holds[h].transId, h), k) >= Floor(db, k)
    ensures OrZero(db.cards[db.holds[h].cardId].spentDay) >= 0.0 ==>
      Floor(RecordReverse(db, db.holds[h].transId, h), k) == Floor(db, k)
  {
    assert Matches(db, db.holds[h]);
    ActiveSettle(db.holds, h, Reversed, k);
    ActiveBoundsIn(db, k);
  }

  lemma FloorsAfterAuthorization(db: Db, req: AuthorizeRequest, key: string, c: nat)
    requires Books(db) && c < |db.cards|
    ensures FloorsKept(db, RecordAuthorization(db, req, key, c))
    ensures ChargedFloors(db, RecordAuthorization(db, req, key, c), c, req.amount)
  {
    forall k: nat | k < |db.cards|
      ensures Floor(RecordAuthorization(db, req, key, c), k) == FloorAfter(db, c, req.amount, k)
    {
      FloorAfterAuthorization(db, req, key, c, k);
    }
  }

  lemma FloorsAfterCapture(db: Db, t: nat, h: nat, requested: Option<real>)
    requires Books(db) && t < |db.txns| && h < |db.holds| && db.holds[h].status == Active
    ensures FloorsKept(db, RecordCapture(db, t, h, requested))
  {
    forall k: nat | k < |db.cards| ensures Floor(RecordCapture(db, t, h, requested), k) >= Floor(db, k) {
      FloorAfterCapture(db, t, h, requested, k);
    }
  }

  lemma FloorsAfterReverse(db: Db, t: nat, h: nat)
    requires Books(db) && h < |db.holds| && db.holds[h].status == Active && t == db.holds[h].transId < |db.txns|
    ensures db.holds[h].cardId < |db.cards| && FloorsKept(db, RecordReverse(db, t, h))
    ensures OrZero(db.cards[db.holds[h].cardId].spentDay) >= 0.0 ==> SameFloors(db, RecordReverse(db, t, h))
  {
    assert Matches(db, db.holds[h]);
    forall k: nat | k < |db.cards|
      ensures Floor(RecordReverse(db, t, h), k) >= Floor(db, k)
      ensures OrZero(db.cards[db.holds[h].cardId].spentDay) >= 0.0 ==>
        Floor(RecordReverse(db, t, h), k) == Floor(db, k)
    {
      FloorAfterReverse(db, h, k);
    }
  }

  lemma FloorsStep(start: seq<Card>, m: Machine, step: Step)
    requires Reachable(start, m)
    ensures FloorsKept(m.db, Next(m, step).db)
  {
    if step.Commit? && step.s in m.sessions {
      ReachableBooks(start, m);
      ReachableSession(start, m, step.s);
      match m.sessions[step.s]
      case Unseen(_, _) =>
      case Holding(req, key, c) => FloorsAfterAuthorization(m.db, req, key, c);
      case Capturing(t, h, requested) => FloorsAfterCapture(m.db, t, h, requested);
      case Reversing(t, h) => FloorsAfterReverse(m.db, t, h);
    }
  }

  // ----- what could be accepted -----

  lemma SameCardFound(a: Db, b: Db, req: AuthorizeRequest)
    requires SameCards(a.cards, b.cards)
    ensures FindCard(b.cards, req.token) == FindCard(a.cards, req.token)
    ensures var c := FindCard(a.cards, req.token);
      c.Some? ==> a.cards[c.value].(spentDay := None) == b.cards[c.value].(spentDay := None)
  {
    FindCardSame(a.cards, b.cards, req.token);
  }

  /** What could not be accepted never can. */
  lemma AcceptLost(a: Db, b: Db, req: AuthorizeRequest)
    requires FloorsKept(a, b) && CouldAccept(b, req)
    ensures CouldAccept(a, req)
  {
    SameCardFound(a, b, req);
  }

  lemma AcceptAfterLost(a: Db, b: Db, c: nat, amount: Amount, req: AuthorizeRequest)
    requires FloorsKept(a, b) && CouldAcceptAfter(b, c, amount, req)
    ensures CouldAcceptAfter(a, c, amount, req)
  {
    SameCardFound(a, b, req);
  }

  lemma AcceptCharged(a: Db, b: Db, c: nat, amount: Amount, req: AuthorizeRequest)
    requires ChargedFloors(a, b, c, amount)
    ensures CouldAccept(b, req) <==> CouldAcceptAfter(a, c, amount, req)
  {
    SameCardFound(a, b, req);
  }

  lemma AcceptedCould(db: Db, req: AuthorizeRequest)
    requires Books(db) && Accepts(db, req)
    ensures CouldAccept(db, req)
  {
    ActiveBoundsIn(db, FindCard(db.cards, req.token).value);
  }
}
