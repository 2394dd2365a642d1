/** Exactly when one more authorization can lead to two transactions with one key. */
module CardDuplicates {
  import opened Wrappers
  import opened CardLedger
  import opened CardSessions
  import opened CardGuarantees
  import opened CardKeys
  import opened CardFloors

  /** The card an authorization holds, or would get. */
  function CardOf(m: Machine, s: nat): nat
    requires CouldCommit(m, s)
  {
    if m.sessions[s].Holding? then m.sessions[s].cardId else FindCard(m.db.cards, m.sessions[s].req.token).value
  }

  /** Authorization `s` could commit, and `t` after it. */
  predicate OneThenOther(m: Machine, s: nat, t: nat) {
    CouldCommit(m, s) && t in m.sessions && m.sessions[t].Unseen? &&
    CouldAcceptAfter(m.db, CardOf(m, s), m.sessions[s].req.amount, m.sessions[t].req)
  }

  /** Both authorizations could commit, in one order or the other. */
  predicate BothCould(m: Machine, s: nat, t: nat) {
    OneThenOther(m, s, t) || OneThenOther(m, t, s) ||
    (s in m.sessions && t in m.sessions && m.sessions[s].Holding? && m.sessions[t].Holding?)
  }

  // ----- while no two authorizations with one key could both commit -----

  /** No key is on two transactions, nor on one and in an authorization that could
      commit, nor in two that could both commit. */
  ghost predicate LiveApart(m: Machine) {
    KeysUnique(m.db.txns) &&
    (forall s :: CouldCommit(m, s) ==> FindKey(m.db.txns, m.sessions[s].key).None?) &&
    (forall s, t :: BothCould(m, s, t) && s != t ==> m.sessions[s].key != m.sessions[t].key)
  }

  /** An authorization that could not commit never becomes one that could. */
  lemma LiveBefore(start: seq<Card>, m: Machine, step: Step, s: nat)
    requires Reachable(start, m) && CouldCommit(Next(m, step), s) && !(Opens(m, step) && step.s == s)
    ensures CouldCommit(m, s) && Next(m, step).sessions[s].key == m.sessions[s].key
  {
    var n := Next(m, step);
    if n.sessions[s].Unseen? {
      FloorsStep(start, m, step);
      AcceptLost(m.db, n.db, n.sessions[s].req);
    } else if !m.sessions[s].Holding? {
      ReachableBooks(start, m);
      AcceptedCould(m.db, m.sessions[s].req);
    }
  }

  lemma OthersUntouched(m: Machine, step: Step, s: nat)
    requires step.s != s
    ensures s in Next(m, step).sessions <==> s in m.sessions
    ensures s in m.sessions ==> Next(m, step).sessions[s] == m.sessions[s]
  {
  }

  /** While neither of two authorizations takes a step, they do not gain an order to commit in. */
  lemma OrderBefore(start: seq<Card>, m: Machine, step: Step, s: nat, t: nat)
    requires Reachable(start, m) && OneThenOther(Next(m, step), s, t) && step.s != s && step.s != t
    ensures OneThenOther(m, s, t)
  {
    OthersUntouched(m, step, s);
    OthersUntouched(m, step, t);
    FloorsStep(start, m, step);
    OrderLost(m, Next(m, step), s, t);
  }

  lemma OrderLost(m: Machine, n: Machine, s: nat, t: nat)
    requires s in m.sessions && t in m.sessions && s in n.sessions && t in n.sessions
    requires m.sessions[s] == n.sessions[s] && m.sessions[t] == n.sessions[t]
    requires FloorsKept(m.db, n.db) && OneThenOther(n, s, t)
    ensures OneThenOther(m, s, t)
  {
    var req := m.sessions[s].req;
    if m.sessions[s].Unseen? {
      AcceptLost(m.db, n.db, req);
      SameCardFound(m.db, n.db, req);
    }
    AcceptAfterLost(m.db, n.db, CardOf(m, s), req.amount, m.sessions[t].req);
  }

  /** Getting its card gives an authorization no new order to commit in. */
  lemma OrderBeforeLock(start: seq<Card>, m: Machine, s: nat, t: nat)
    requires Reachable(start, m) && s != t && BothCould(Next(m, LockCard(s)), s, t)
    ensures BothCould(m, s, t)
  {
    var n := Next(m, LockCard(s));
    if n != m && s in n.sessions {
      ReachableBooks(start, m);
      AcceptedCould(m.db, m.sessions[s].req);
    }
  }

  lemma BothBeforeOther(start: seq<Card>, m: Machine, step: Step, s: nat, t: nat)
    requires Reachable(start, m) && BothCould(Next(m, step), s, t) && step.s != s && step.s != t
    ensures BothCould(m, s, t)
  {
    OthersUntouched(m, step, s);
    OthersUntouched(m, step, t);
    if OneThenOther(Next(m, step), s, t) {
      OrderBefore(start, m, step, s, t);
    } else if OneThenOther(Next(m, step), t, s) {
      OrderBefore(start, m, step, t, s);
    }
  }

  /** A session that takes a step and is an open authorization afterwards was one before. */
  lemma OwnStep(m: Machine, step: Step)
    requires step.s in Next(m, step).sessions && Authorizing(Next(m, step).sessions[step.s]) && !Opens(m, step)
    ensures step.s in m.sessions && Authorizing(m.sessions[step.s])
    ensures Next(m, step).sessions[step.s].key == m.sessions[step.s].key
    ensures Next(m, step) == m || step.LockCard?
  {
  }

  lemma BothBefore(start: seq<Card>, m: Machine, step: Step, s: nat, t: nat)
    requires Reachable(start, m) && BothCould(Next(m, step), s, t) && s != t
    requires !(Opens(m, step) && (step.s == s || step.s == t))
    ensures BothCould(m, s, t) && s in m.sessions && t in m.sessions
    ensures Next(m, step).sessions[s].key == m.sessions[s].key && Next(m, step).sessions[t].key == m.sessions[t].key
  {
    if step.s != s && step.s != t {
      BothBeforeOther(start, m, step, s, t);
      OthersUntouched(m, step, s);
      OthersUntouched(m, step, t);
    } else {
      var other := if step.s == s then t else s;
      OwnStep(m, step);
      OthersUntouched(m, step, other);
      if step.LockCard? {
        OrderBeforeLock(start, m, step.s, other);
      }
    }
  }

  lemma UniqueStep(m: Machine, step: Step)
    requires LiveApart(m)
    ensures KeysUnique(Next(m, step).db.txns)
  {
    if step.Commit? && step.s in m.sessions && m.sessions[step.s].Holding? {
      assert CouldCommit(m, step.s);
    }
  }

  /** The key a step puts on a transaction is that of an authorization it closes. */
  lemma KeyWritten(m: Machine, step: Step, key: string)
    requires FindKey(m.db.txns, key).None? && FindKey(Next(m, step).db.txns, key).Some?
    ensures step.Commit? && step.s in m.sessions && m.sessions[step.s].Holding? && m.sessions[step.s].key == key
    ensures Next(m, step).sessions == m.sessions - {step.s}
  {
  }

  /** An authorization that could still commit after another one could have committed with it. */
  lemma StillLive(start: seq<Card>, m: Machine, u: nat, s: nat)
    requires Reachable(start, m) && u in m.sessions && m.sessions[u].Holding?
    requires Next(m, Commit(u)).sessions == m.sessions - {u} && CouldCommit(Next(m, Commit(u)), s)
    ensures s != u && BothCould(m, u, s)
  {
    ReachableBooks(start, m);
    ReachableSession(start, m, u);
    var Holding(req, key, c) := m.sessions[u];
    FloorsAfterAuthorization(m.db, req, key, c);
    AcceptCharged(m.db, RecordAuthorization(m.db, req, key, c), c, req.amount, m.sessions[s].req);
  }

  lemma LiveStep(start: seq<Card>, m: Machine, step: Step)
    requires Reachable(start, m) && LiveApart(m) && (Opens(m, step) ==> KeyFree(m, step.key))
    ensures LiveApart(Next(m, step))
  {
    var n := Next(m, step);
    UniqueStep(m, step);
    forall s | CouldCommit(n, s) ensures FindKey(n.db.txns, n.sessions[s].key).None? {
      if !(Opens(m, step) && step.s == s) {
        LiveBefore(start, m, step, s);
        if FindKey(n.db.txns, n.sessions[s].key).Some? {
          KeyWritten(m, step, n.sessions[s].key);
          StillLive(start, m, step.s, s);
        }
      }
    }
    forall s, t | BothCould(n, s, t) && s != t ensures n.sessions[s].key != n.sessions[t].key {
      if Opens(m, step) && step.s == s {
        assert !Carries(m, t, step.key);
      } else if Opens(m, step) && step.s == t {
        assert !Carries(m, s, step.key);
      } else {
        BothBefore(start, m, step, s, t);
      }
    }
  }

  lemma {:induction false} LiveRun(start: seq<Card>, m: Machine, steps: seq<Step>)
    requires Reachable(start, m) && LiveApart(m) && NoOverlap(m, steps)
    ensures LiveApart(Run(m, steps))
    decreases |steps|
  {
    if steps != [] {
      var n := |steps| - 1;
      LiveRun(start, m, steps[..n]);
      ReachableRun(start, m, steps[..n]);
      LiveStep(start, Run(m, steps[..n]), steps[n]);
    }
  }

  // ----- when two of them could -----

  predicate NoneAdmitted(steps: seq<Step>) {
    forall i :: 0 <= i < |steps| ==> !steps[i].BeginAuthorize?
  }

  lemma {:induction false} NoneAdmittedNoOverlap(m: Machine, steps: seq<Step>)
    requires NoneAdmitted(steps)
    ensures NoOverlap(m, steps)
    decreases |steps|
  {
    if steps != [] {
      NoneAdmittedNoOverlap(m, steps[..|steps| - 1]);
    }
  }

  /** All other sessions die. */
  lemma {:induction false} OthersDie(m: Machine, keep: set<nat>) returns (steps: seq<Step>)
    requires keep <= m.sessions.Keys
    ensures NoneAdmitted(steps)
    ensures Run(m, steps).db == m.db && Run(m, steps).sessions.Keys == keep
    ensures forall s :: s in keep ==> Run(m, steps).sessions[s] == m.sessions[s]
    decreases |m.sessions.Keys - keep|
  {
    steps := [];
    if m.sessions.Keys - keep != {} {
      var u :| u in m.sessions.Keys - keep;
      var next := Next(m, Abort(u));
      assert next.sessions.Keys - keep == m.sessions.Keys - keep - {u};
      var rest := OthersDie(next, keep);
      steps := [Abort(u)] + rest;
      RunOne(m, Abort(u));
      RunAppend(m, [Abort(u)], rest);
    } else {
      forall k | k in m.sessions.Keys ensures k in keep {
        assert k !in m.sessions.Keys - keep;
      }
      assert m.sessions.Keys == keep;
    }
  }

  lemma SameFloorsFurther(a: Db, b: Db, c: Db)
    requires SameFloors(a, b) && SameFloors(b, c)
    ensures SameFloors(a, c)
  {
    forall k | 0 <= k < |a.cards| ensures a.cards[k].(spentDay := None) == c.cards[k].(spentDay := None) {
      assert a.cards[k].(spentDay := None) == b.cards[k].(spentDay := None);
    }
  }

  lemma ChargedFurther(a: Db, b: Db, c: Db, card: nat, amount: real)
    requires SameFloors(a, b) && ChargedFloors(b, c, card, amount)
    ensures ChargedFloors(a, c, card, amount)
  {
    forall k | 0 <= k < |a.cards| ensures a.cards[k].(spentDay := None) == c.cards[k].(spentDay := None) {
      assert a.cards[k].(spentDay := None) == b.cards[k].(spentDay := None);
    }
  }

  /** Nobody holds a lock. */
  predicate Unlocked(m: Machine) {
    forall s :: s in m.sessions ==> m.sessions[s].Unseen?
  }

  predicate ActiveHold(db: Db, c: nat, h: nat) {
    h < |db.holds| && db.holds[h].cardId == c && db.holds[h].status == Active
  }

  /** Reversing one hold is two steps when nobody is in the way. */
  lemma ReverseOne(start: seq<Card>, m: Machine, h: nat, u: nat)
    requires Reachable(start, m) && Unlocked(m) && h < |m.db.holds| && m.db.holds[h].status == Active &&
      u !in m.sessions
    ensures m.db.holds[h].transId < |m.db.txns|
    ensures Run(m, [BeginReverse(u, m.db.holds[h].transId), Commit(u)]) ==
      m.(db := RecordReverse(m.db, m.db.holds[h].transId, h))
  {
    OwnHold(start, m, h);
    ReverseSteps(m, m.db.holds[h].transId, h, u);
    RunTwo(m, BeginReverse(u, m.db.holds[h].transId), Commit(u));
  }

  lemma ReverseSteps(m: Machine, t: nat, h: nat, u: nat)
    requires Unlocked(m) && FindHold(m.db.holds, t) == Some(h) && m.db.holds[h].status == Active
    requires t < |m.db.txns| && u !in m.sessions
    ensures Next(Next(m, BeginReverse(u, t)), Commit(u)) == m.(db := RecordReverse(m.db, t, h))
  {
    var m1 := m.(sessions := m.sessions[u := Reversing(t, h)]);
    assert Next(m, BeginReverse(u, t)) == m1;
    assert m1.sessions - {u} == m.sessions;
  }

  /** A hold is found by its own transaction. */
  lemma OwnHold(start: seq<Card>, m: Machine, h: nat)
    requires Reachable(start, m) && h < |m.db.holds|
    ensures m.db.holds[h].transId < |m.db.txns| && FindHold(m.db.holds, m.db.holds[h].transId) == Some(h)
  {
    ReachableBooks(start, m);
    assert Matches(m.db, m.db.holds[h]);
  }

  /** A hold that reversals may use to lower the card. */
  predicate Lowers(db: Db, c: nat, h: nat) {
    ActiveHold(db, c, h) && c < |db.cards| && OrZero(db.cards[c].spentDay) >= 0.0
  }

  lemma ReverseLowers(start: seq<Card>, m: Machine, c: nat, h: nat)
    requires Reachable(start, m) && Lowers(m.db, c, h)
    ensures m.db.holds[h].transId < |m.db.txns|
    ensures var after := RecordReverse(m.db, m.db.holds[h].transId, h);
      SameFloors(m.db, after) && CountHolds(after.holds, Active) < CountHolds(m.db.holds, Active)
  {
    OwnHold(start, m, h);
    ReachableBooks(start, m);
    FloorsAfterReverse(m.db, m.db.holds[h].transId, h);
    CountHoldsSettle(m.db.holds, h, Reversed, Active);
  }

  lemma AtFloor(start: seq<Card>, m: Machine, c: nat)
    requires Reachable(start, m) && c < |m.db.cards| && forall h: nat :: !Lowers(m.db, c, h)
    ensures OrZero(m.db.cards[c].spentDay) == Floor(m.db, c)
  {
    ReachableBooks(start, m);
    if OrZero(m.db.cards[c].spentDay) >= 0.0 {
      forall i | 0 <= i < |m.db.holds| && m.db.holds[i].cardId == c ensures m.db.holds[i].status != Active {
        assert !Lowers(m.db, c, i);
      }
    }
    ActiveBoundsIn(m.db, c);
  }

  /** Reversals bring a card to its floor. */
  lemma {:induction false} LowerToFloor(start: seq<Card>, m: Machine, c: nat, u: nat) returns (steps: seq<Step>)
    requires Reachable(start, m) && Unlocked(m) && c < |m.db.cards| && u !in m.sessions
    ensures NoneAdmitted(steps)
    ensures var n := Run(m, steps);
      n.sessions == m.sessions && SameFloors(m.db, n.db) && OrZero(n.db.cards[c].spentDay) == Floor(m.db, c)
    decreases CountHolds(m.db.holds, Active)
  {
    if h: nat :| Lowers(m.db, c, h) {
      var first := [BeginReverse(u, m.db.holds[h].transId), Commit(u)];
      ReverseOne(start, m, h, u);
      ReverseLowers(start, m, c, h);
      ReachableRun(start, m, first);
      var next := Run(m, first);
      var rest := LowerToFloor(start, next, c, u);
      steps := first + rest;
      RunAppend(m, first, rest);
      SameFloorsFurther(m.db, next.db, Run(next, rest).db);
    } else {
      steps := [];
      AtFloor(start, m, c);
    }
  }

  /** An authorization its card accepts gets the card when nobody holds a lock. */
  lemma LockNow(n: Machine, t: nat)
    requires Unlocked(n) && t in n.sessions && Accepts(n.db, n.sessions[t].req)
    ensures Next(n, LockCard(t)) ==
      n.(sessions := n.sessions[t :=
        Holding(n.sessions[t].req, n.sessions[t].key, FindCard(n.db.cards, n.sessions[t].req.token).value)])
  {
    assert CardFree(n, FindCard(n.db.cards, n.sessions[t].req.token).value);
  }

  /** With its card at the floor the authorization gets it. */
  lemma LockAtFloor(db: Db, n: Machine, t: nat)
    requires Unlocked(n) && t in n.sessions && SameFloors(db, n.db) && CouldAccept(db, n.sessions[t].req)
    requires var c := FindCard(db.cards, n.sessions[t].req.token).value;
      c < |n.db.cards| && OrZero(n.db.cards[c].spentDay) == Floor(db, c)
    ensures Next(n, LockCard(t)) ==
      n.(sessions := n.sessions[t :=
        Holding(n.sessions[t].req, n.sessions[t].key, FindCard(db.cards, n.sessions[t].req.token).value)])
  {
    SameCardFound(db, n.db, n.sessions[t].req);
    LockNow(n, t);
  }

  lemma CommitCharges(start: seq<Card>, m: Machine, t: nat)
    requires Reachable(start, m) && t in m.sessions && m.sessions[t].Holding?
    ensures var n := CommitSession(m, t);
      n.sessions == m.sessions - {t} && ChargedFloors(m.db, n.db, m.sessions[t].cardId, m.sessions[t].req.amount) &&
      |n.db.txns| == |m.db.txns| + 1 && n.db.txns[|m.db.txns|].key == Some(m.sessions[t].key)
  {
    ReachableBooks(start, m);
    ReachableSession(start, m, t);
    FloorsAfterAuthorization(m.db, m.sessions[t].req, m.sessions[t].key, m.sessions[t].cardId);
  }

  /** An authorization that could commit is driven to its commit. */
  lemma DriveToCommit(start: seq<Card>, m: Machine, t: nat, u: nat) returns (steps: seq<Step>)
    requires Reachable(start, m) && CouldCommit(m, t) && u !in m.sessions
    requires forall s :: s in m.sessions && s != t ==> m.sessions[s].Unseen?
    ensures NoneAdmitted(steps)
    ensures var n := Run(m, steps);
      n.sessions == m.sessions - {t} && ChargedFloors(m.db, n.db, CardOf(m, t), m.sessions[t].req.amount) &&
      |n.db.txns| > |m.db.txns| && n.db.txns[|n.db.txns| - 1].key == Some(m.sessions[t].key)
  {
    if m.sessions[t].Holding? {
      steps := [Commit(t)];
      RunOne(m, Commit(t));
      CommitCharges(start, m, t);
    } else {
      var down := LowerToFloor(start, m, CardOf(m, t), u);
      var n := Run(m, down);
      ReachableRun(start, m, down);
      ReachableNext(start, n, LockCard(t));
      LockAtFloor(m.db, n, t);
      var held := Next(n, LockCard(t));
      CommitCharges(start, held, t);
      assert held.sessions - {t} == m.sessions - {t};
      RunTwo(n, LockCard(t), Commit(t));
      steps := down + [LockCard(t), Commit(t)];
      RunAppend(m, down, [LockCard(t), Commit(t)]);
      ChargedFurther(m.db, n.db, Run(m, steps).db, CardOf(m, t), m.sessions[t].req.amount);
    }
  }

  /** Two authorizations with one key of which one could commit after the other do both
      commit in some continuation. */
  lemma BothCommit(start: seq<Card>, m: Machine, t: nat, s: nat) returns (steps: seq<Step>)
    requires Reachable(start, m) && t != s && OneThenOther(m, t, s) && m.sessions[s].key == m.sessions[t].key
    ensures NoneAdmitted(steps) && !KeysUnique(Run(m, steps).db.txns)
  {
    var quiet := OthersDie(m, {s, t});
    ReachableRun(start, m, quiet);
    var n := Run(m, quiet);
    var first := CommitFirst(start, n, t, s);
    var second := CommitAgain(start, Run(n, first), s, s + t + 1);
    RunAppend(m, quiet, first);
    RunAppend(m, quiet + first, second);
    steps := quiet + first + second;
  }

  lemma CommitFirst(start: seq<Card>, m: Machine, t: nat, s: nat) returns (steps: seq<Step>)
    requires Reachable(start, m) && t != s && OneThenOther(m, t, s)
    requires m.sessions[s].key == m.sessions[t].key && m.sessions.Keys == {s, t}
    ensures NoneAdmitted(steps)
    ensures var n := Run(m, steps);
      Reachable(start, n) && n.sessions.Keys == {s} && CouldCommit(n, s) &&
      n.db.txns != [] && n.db.txns[|n.db.txns| - 1].key == Some(n.sessions[s].key)
  {
    steps := DriveToCommit(start, m, t, s + t + 1);
    ReachableRun(start, m, steps);
    StillCould(m, Run(m, steps), t, s);
  }

  lemma StillCould(m: Machine, n: Machine, t: nat, s: nat)
    requires s != t && OneThenOther(m, t, s) && m.sessions.Keys == {s, t} && n.sessions == m.sessions - {t}
    requires ChargedFloors(m.db, n.db, CardOf(m, t), m.sessions[t].req.amount)
    ensures n.sessions.Keys == {s} && n.sessions[s] == m.sessions[s] && CouldCommit(n, s)
  {
    AcceptCharged(m.db, n.db, CardOf(m, t), m.sessions[t].req.amount, m.sessions[s].req);
  }

  lemma CommitAgain(start: seq<Card>, m: Machine, s: nat, u: nat) returns (steps: seq<Step>)
    requires Reachable(start, m) && CouldCommit(m, s) && u != s && m.sessions.Keys == {s}
    requires m.db.txns != [] && m.db.txns[|m.db.txns| - 1].key == Some(m.sessions[s].key)
    ensures NoneAdmitted(steps) && !KeysUnique(Run(m, steps).db.txns)
  {
    steps := DriveToCommit(start, m, s, u);
    KeyTwice(m.db.txns, Run(m, steps).db.txns, m.sessions[s].key);
  }

  lemma KeyTwice(a: seq<Txn>, b: seq<Txn>, key: string)
    requires a != [] && a <= b && |a| < |b| && a[|a| - 1].key == Some(key) && b[|b| - 1].key == Some(key)
    ensures !KeysUnique(b)
  {
    assert b[|a| - 1] == a[|a| - 1];
  }

  // ----- the exact condition -----

  /** Keys stay unique in every continuation in which no further authorizations with one key overlap. */
  ghost predicate StaysUnique(m: Machine) {
    forall steps :: NoOverlap(m, steps) ==> KeysUnique(Run(m, steps).db.txns)
  }

  /** With its key free, one more authorization is harmless, on any cards. */
  lemma FreeKeyIsSafe(start: seq<Card>, before: seq<Step>, s: nat, req: AuthorizeRequest, key: string)
    requires NoOverlap(Fresh(start), before) && KeyFree(Run(Fresh(start), before), key)
    ensures StaysUnique(Next(Run(Fresh(start), before), BeginAuthorize(s, req, key)))
  {
    var m := Run(Fresh(start), before);
    var n := Next(m, BeginAuthorize(s, req, key));
    KeysApartRun(Fresh(start), before);
    KeysApartStep(m, BeginAuthorize(s, req, key));
    forall steps | NoOverlap(n, steps) ensures KeysUnique(Run(n, steps).db.txns) {
      KeysApartRun(n, steps);
    }
  }

  /** The open authorization `t` and the request could both commit, in one order or the
      other. This can be read off the cards, the holds and the locks. */
  predicate CouldBothCommit(m: Machine, t: nat, req: AuthorizeRequest)
    requires t in m.sessions && Authorizing(m.sessions[t])
  {
    var x := m.sessions[t];
    (CouldCommit(m, t) && CouldAcceptAfter(m.db, CardOf(m, t), x.req.amount, req)) ||
    (x.Unseen? && CouldAccept(m.db, req) &&
     CouldAcceptAfter(m.db, FindCard(m.db.cards, req.token).value, req.amount, x.req))
  }

  /** In a state reached without overlaps, one more authorization keeps keys unique in
      every continuation if and only if it could not commit along with an open
      authorization that carries its key. */
  lemma UniqueIff(start: seq<Card>, before: seq<Step>, s: nat, req: AuthorizeRequest, key: string)
    requires NoOverlap(Fresh(start), before)
    requires Opens(Run(Fresh(start), before), BeginAuthorize(s, req, key))
    ensures var m := Run(Fresh(start), before);
      StaysUnique(Next(m, BeginAuthorize(s, req, key))) <==>
      forall t :: Carries(m, t, key) ==> !CouldBothCommit(m, t, req)
  {
    var m := Run(Fresh(start), before);
    var n := Next(m, BeginAuthorize(s, req, key));
    assert Reachable(start, m);
    ReachableNext(start, m, BeginAuthorize(s, req, key));
    if t :| Carries(m, t, key) && CouldBothCommit(m, t, req) {
      CouldBothOpened(m, s, req, key, t);
      var steps: seq<Step>;
      if OneThenOther(n, t, s) {
        steps := BothCommit(start, n, t, s);
      } else {
        steps := BothCommit(start, n, s, t);
      }
      NoneAdmittedNoOverlap(n, steps);
    } else {
      KeysApartRun(Fresh(start), before);
      LiveAfterOpening(m, s, req, key);
      forall steps | NoOverlap(n, steps) ensures KeysUnique(Run(n, steps).db.txns) {
        LiveRun(start, n, steps);
      }
    }
  }

  lemma CouldBothOpened(m: Machine, s: nat, req: AuthorizeRequest, key: string, t: nat)
    requires Opens(m, BeginAuthorize(s, req, key)) && t in m.sessions && Authorizing(m.sessions[t])
    ensures var n := Next(m, BeginAuthorize(s, req, key));
      t != s && n.sessions[t] == m.sessions[t] && n.sessions[s] == Unseen(req, key) &&
      (CouldBothCommit(m, t, req) <==> OneThenOther(n, t, s) || OneThenOther(n, s, t))
  {
  }

  lemma LiveAfterOpening(m: Machine, s: nat, req: AuthorizeRequest, key: string)
    requires KeysApart(m) && Opens(m, BeginAuthorize(s, req, key))
    requires forall t :: Carries(m, t, key) ==> !CouldBothCommit(m, t, req)
    ensures LiveApart(Next(m, BeginAuthorize(s, req, key)))
  {
    var n := Next(m, BeginAuthorize(s, req, key));
    forall t, u | BothCould(n, t, u) && t != u ensures n.sessions[t].key != n.sessions[u].key {
      if t == s {
        CouldBothOpened(m, s, req, key, u);
        assert !Carries(m, u, key);
      } else if u == s {
        CouldBothOpened(m, s, req, key, t);
        assert !Carries(m, t, key);
      }
    }
  }

  // ----- two special cases -----

  ghost predicate NoneNegative(cards: seq<Card>) {
    forall c :: 0 <= c < |cards| ==> OrZero(cards[c].spentDay) >= 0.0
  }

  /** On cards that do not show negative spending the order does not matter: each of the
      two has to be acceptable for itself. */
  lemma OrderIrrelevant(m: Machine, t: nat, req: AuthorizeRequest)
    requires NoneNegative(m.db.cards) && t in m.sessions && Authorizing(m.sessions[t])
    ensures CouldBothCommit(m, t, req) <==> CouldCommit(m, t) && CouldAccept(m.db, req)
  {
  }

  /** The open authorization is accepted as things stand, and after its commit so is the request. */
  predicate AcceptedTogether(m: Machine, t: nat, req: AuthorizeRequest)
    requires t in m.sessions && Authorizing(m.sessions[t])
  {
    var x := m.sessions[t];
    (x.Unseen? ==> Accepts(m.db, x.req)) &&
    var c := if x.Holding? then x.cardId else FindCard(m.db.cards, x.req.token).value;
    c < |m.db.cards| && Accepts(RecordAuthorization(m.db, x.req, x.key, c), req)
  }

  /** For requests that are accepted as things stand: one more authorization keeps keys
      unique in every continuation exactly when its key is free. */
  lemma UniqueIffAccepted(start: seq<Card>, before: seq<Step>, s: nat, req: AuthorizeRequest, key: string)
    requires NoOverlap(Fresh(start), before)
    requires Opens(Run(Fresh(start), before), BeginAuthorize(s, req, key))
    requires forall t :: Carries(Run(Fresh(start), before), t, key) ==>
      AcceptedTogether(Run(Fresh(start), before), t, req)
    ensures var m := Run(Fresh(start), before);
      StaysUnique(Next(m, BeginAuthorize(s, req, key))) <==> KeyFree(m, key)
  {
    var m := Run(Fresh(start), before);
    assert Reachable(start, m);
    UniqueIff(start, before, s, req, key);
    forall t | Carries(m, t, key) ensures CouldBothCommit(m, t, req) {
      TogetherCould(start, m, t, req);
    }
  }

  lemma TogetherCould(start: seq<Card>, m: Machine, t: nat, req: AuthorizeRequest)
    requires Reachable(start, m) && t in m.sessions && Authorizing(m.sessions[t]) && AcceptedTogether(m, t, req)
    ensures CouldBothCommit(m, t, req)
  {
    var x := m.sessions[t];
    ReachableBooks(start, m);
    if x.Unseen? {
      AcceptedCould(m.db, x.req);
    }
    var c := CardOf(m, t);
    var after := RecordAuthorization(m.db, x.req, x.key, c);
    BooksAfterAuthorization(m.db, x.req, x.key, c);
    AcceptedCould(after, req);
    FloorsAfterAuthorization(m.db, x.req, x.key, c);
    AcceptCharged(m.db, after, c, x.req.amount, req);
  }

  /** Served concurrently, two requests with one key may both be approved and
      charged: the check for the key locks nothing. */
  lemma DuplicateUnderConcurrency() returns (start: seq<Card>, steps: seq<Step>)
    ensures var db := Run(Fresh(start), steps).db;
      !KeysUnique(db.txns) && |db.holds| == 2 && |db.cards| == 1 && db.cards[0].spentDay == Some(2.0)
  {
    start := [Card("tok", 7, true, None, Some(0.0))];
    var req := AuthorizeRequest("tok", 1.0, "RUB");
    var db0 := Db(start, [], []);
    var db1 := RecordAuthorization(db0, req, "k", 0);
    var db2 := RecordAuthorization(db1, req, "k", 0);
    var u, x := Unseen(req, "k"), Holding(req, "k", 0);
    assert FindCard(db0.cards, "tok") == Some(0) && FindCard(db1.cards, "tok") == Some(0);
    steps := [BeginAuthorize(0, req, "k"), BeginAuthorize(1, req, "k"), LockCard(0), Commit(0), LockCard(1), Commit(1)];
    var ms := [
      Machine(db0, map[]),
      Machine(db0, map[0 := u]),
      Machine(db0, map[0 := u, 1 := u]),
      Machine(db0, map[0 := x, 1 := u]),
      Machine(db1, map[1 := u]),
      Machine(db1, map[1 := x]),
      Machine(db2, map[])];
    DuplicateTrace(req, db0, steps, ms);
    TraceIsRun(Fresh(start), steps, ms);
    assert db2.txns[0].key == Some("k") && db2.txns[1].key == Some("k");
  }

  lemma DuplicateTrace(req: AuthorizeRequest, db0: Db, steps: seq<Step>, ms: seq<Machine>)
    requires db0.txns == [] && FindCard(db0.cards, req.token) == Some(0) && db0.cards[0].active
    requires OrZero(db0.cards[0].limitDay) == 0.0
    requires steps ==
      [BeginAuthorize(0, req, "k"), BeginAuthorize(1, req, "k"), LockCard(0), Commit(0), LockCard(1), Commit(1)]
    requires var db1 := RecordAuthorization(db0, req, "k", 0);
      var u, x := Unseen(req, "k"), Holding(req, "k", 0);
      FindCard(db1.cards, req.token) == Some(0) &&
      ms == [Machine(db0, map[]), Machine(db0, map[0 := u]), Machine(db0, map[0 := u, 1 := u]),
             Machine(db0, map[0 := x, 1 := u]), Machine(db1, map[1 := u]), Machine(db1, map[1 := x]),
             Machine(RecordAuthorization(db1, req, "k", 0), map[])]
    ensures Trace(ms[0], steps, ms)
  {
    assert Next(ms[0], steps[0]) == ms[1];
    assert Next(ms[1], steps[1]) == ms[2];
    assert Next(ms[2], steps[2]) == ms[3];
    assert Next(ms[3], steps[3]) == ms[4];
    assert Next(ms[4], steps[4]) == ms[5];
    assert Next(ms[5], steps[5]) == ms[6];
  }
}
