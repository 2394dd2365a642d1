/** What the idempotency key of an authorization guarantees, over every interleaving. */
module CardKeys {
  import opened Wrappers
  import opened Sequences
  import opened CardLedger
  import opened CardSessions
  import opened CardGuarantees

  predicate KeysUnique(txns: seq<Txn>) {
    forall i, j :: 0 <= i < j < |txns| && txns[i].key.Some? ==> txns[i].key != txns[j].key
  }

  predicate Authorizing(x: Session) {
    x.Unseen? || x.Holding?
  }

  /** An authorization with this key is under way. */
  predicate Carries(m: Machine, s: nat, key: string) {
    s in m.sessions && Authorizing(m.sessions[s]) && m.sessions[s].key == key
  }

  predicate KeyFree(m: Machine, key: string) {
    forall s :: s in m.sessions ==> !Carries(m, s, key)
  }

  /** The step admits an authorization past the look-up of its key. */
  predicate Opens(m: Machine, step: Step) {
    step.BeginAuthorize? && step.s !in m.sessions && FindKey(m.db.txns, step.key).None?
  }

  /** From `m` on no authorization is admitted while another one carries its key.
      Everything else may overlap in any way. */
  ghost predicate NoOverlap(m: Machine, steps: seq<Step>)
    decreases |steps|
  {
    steps == [] ||
    (var n := |steps| - 1;
     NoOverlap(m, steps[..n]) && (Opens(Run(m, steps[..n]), steps[n]) ==> KeyFree(Run(m, steps[..n]), steps[n].key)))
  }

  // ----- at most one transaction for a key -----

  /** No key is on two transactions, on a transaction and in an open authorization, or in two of those. */
  ghost predicate KeysApart(m: Machine) {
    KeysUnique(m.db.txns) &&
    (forall s :: s in m.sessions && Authorizing(m.sessions[s]) ==> FindKey(m.db.txns, m.sessions[s].key).None?) &&
    (forall s, t ::
      s in m.sessions && t in m.sessions && s != t && Authorizing(m.sessions[s]) && Authorizing(m.sessions[t]) ==>
      m.sessions[s].key != m.sessions[t].key)
  }

  lemma KeysApartCommit(m: Machine, s: nat)
    requires KeysApart(m)
    ensures KeysApart(CommitSession(m, s))
  {
  }

  lemma KeysApartStep(m: Machine, step: Step)
    requires KeysApart(m) && (Opens(m, step) ==> KeyFree(m, step.key))
    ensures KeysApart(Next(m, step))
  {
    if step.Commit? {
      KeysApartCommit(m, step.s);
    } else if Opens(m, step) {
      forall s | s in m.sessions && Authorizing(m.sessions[s]) ensures m.sessions[s].key != step.key {
        assert !Carries(m, s, step.key);
      }
    }
  }

  lemma {:induction false} KeysApartRun(m: Machine, steps: seq<Step>)
    requires KeysApart(m) && NoOverlap(m, steps)
    ensures KeysApart(Run(m, steps))
    decreases |steps|
  {
    if steps != [] {
      var n := |steps| - 1;
      KeysApartRun(m, steps[..n]);
      KeysApartStep(Run(m, steps[..n]), steps[n]);
    }
  }

  /** In every interleaving in which no two authorizations with one key overlap, no key is
      ever on two transactions. */
  lemma KeysStayUnique(start: seq<Card>, steps: seq<Step>)
    requires NoOverlap(Fresh(start), steps)
    ensures KeysUnique(Run(Fresh(start), steps).db.txns)
  {
    KeysApartRun(Fresh(start), steps);
  }

  // ----- replay -----

  lemma {:induction false} KeyedIsAuthorize(start: seq<Card>, steps: seq<Step>, t: nat)
    requires t < |Run(Fresh(start), steps).db.txns| && Run(Fresh(start), steps).db.txns[t].key.Some?
    ensures Run(Fresh(start), steps).db.txns[t].kind == Authorize
    decreases |steps|
  {
    if steps != [] {
      var n := |steps| - 1;
      if t < |Run(Fresh(start), steps[..n]).db.txns| {
        InvRun(start, steps[..n]);
        LaterStep(start, Run(Fresh(start), steps[..n]), steps[n]);
        KeyedIsAuthorize(start, steps[..n], t);
      }
    }
  }

  lemma LookupsStable(a: Db, b: Db, key: string)
    requires Later(a, b) && FindKey(a.txns, key).Some? && FindHold(a.holds, FindKey(a.txns, key).value).Some?
    ensures FindKey(b.txns, key) == FindKey(a.txns, key)
    ensures var t := FindKey(a.txns, key).value;
      FindHold(b.holds, t) == FindHold(a.holds, t) && b.txns[t] == a.txns[t]
  {
    assert forall i :: 0 <= i < |a.txns| ==> b.txns[i] == a.txns[i];
    forall i | 0 <= i < |a.holds| ensures b.holds[i].transId == a.holds[i].transId {
      assert b.holds[i].(status := Active) == a.holds[i].(status := Active);
    }
  }

  /** Once a key is on a transaction, every later request with it, whatever its body and
      whatever any sessions did in between, changes nothing and is approved with one
      and the same transaction and hold. */
  lemma ReplayAgrees(start: seq<Card>, before: seq<Step>, after: seq<Step>, key: string, again: AuthorizeRequest)
    requires FindKey(Run(Fresh(start), before).db.txns, key).Some?
    ensures var db, now := Run(Fresh(start), before).db, Run(Fresh(start), before + after).db;
      var t := FindKey(db.txns, key).value;
      FindHold(db.holds, t).Some? &&
      DoAuthorize(now, again, key) == (now, AuthorizeResponse(true, Some(t), FindHold(db.holds, t), None))
  {
    var db := Run(Fresh(start), before).db;
    InvRun(start, before);
    KeyedIsAuthorize(start, before, FindKey(db.txns, key).value);
    SettledForever(start, before, after);
    LookupsStable(db, Run(Fresh(start), before + after).db, key);
  }

  /** The answer of an authorization when it commits is the answer of every later request
      with its key, if no other with that key overlapped with it. */
  lemma ApprovalReplayed(start: seq<Card>, before: seq<Step>, s: nat, after: seq<Step>, again: AuthorizeRequest)
    requires NoOverlap(Fresh(start), before)
    requires var m := Run(Fresh(start), before); s in m.sessions && m.sessions[s].Holding?
    ensures var m, now := Run(Fresh(start), before), Run(Fresh(start), before + [Commit(s)] + after).db;
      DoAuthorize(now, again, m.sessions[s].key) ==
        (now, AuthorizeResponse(true, Some(|m.db.txns|), Some(|m.db.holds|), None))
  {
    CommitLookups(start, before, s);
    Extended(before, Commit(s));
    ReplayAgrees(start, before + [Commit(s)], after, Run(Fresh(start), before).sessions[s].key, again);
  }

  /** Right after its commit, the key and the transaction lead to the rows just written. */
  lemma CommitLookups(start: seq<Card>, before: seq<Step>, s: nat)
    requires NoOverlap(Fresh(start), before)
    requires var m := Run(Fresh(start), before); s in m.sessions && m.sessions[s].Holding?
    ensures var m := Run(Fresh(start), before);
      var now := CommitSession(m, s).db;
      FindKey(now.txns, m.sessions[s].key) == Some(|m.db.txns|) &&
      FindHold(now.holds, |m.db.txns|) == Some(|m.db.holds|)
  {
    InvRun(start, before);
    KeysApartRun(Fresh(start), before);
    CommittedLookups(Run(Fresh(start), before), s);
  }

  lemma CommittedLookups(m: Machine, s: nat)
    requires Books(m.db) && Locks(m) && s in m.sessions && m.sessions[s].Holding?
    requires FindKey(m.db.txns, m.sessions[s].key).None?
    ensures var now := CommitSession(m, s).db;
      FindKey(now.txns, m.sessions[s].key) == Some(|m.db.txns|) &&
      FindHold(now.holds, |m.db.txns|) == Some(|m.db.holds|)
  {
    assert Sound(m.db, m.sessions[s]);
    forall i | 0 <= i < |m.db.holds| ensures m.db.holds[i].transId < |m.db.txns| {
      assert Matches(m.db, m.db.holds[i]);
    }
  }

  /** The card the request's token leads to is active and its limit admits the amount. */
  predicate Accepts(db: Db, req: AuthorizeRequest) {
    var c := FindCard(db.cards, req.token);
    c.Some? && db.cards[c.value].active && EnsureCardCanSpend(db.cards[c.value], req.amount).None?
  }

  /** A request is approved exactly if its key is on a transaction already or its card
      accepts it; a decline leaves no trace, so the same key may be tried again. */
  lemma DeclineLeavesNoState(start: seq<Card>, steps: seq<Step>, req: AuthorizeRequest, key: string)
    ensures var db := Run(Fresh(start), steps).db;
      var (now, resp) := DoAuthorize(db, req, key);
      (resp.approved <==> FindKey(db.txns, key).Some? || Accepts(db, req)) &&
      (resp.approved <==> FindKey(now.txns, key).Some?) &&
      (resp.approved <==> resp.transId.Some? && resp.holdId.Some?) &&
      (!resp.approved ==> now == db)
  {
    var db := Run(Fresh(start), steps).db;
    if FindKey(db.txns, key).Some? {
      ReplayAgrees(start, steps, [], key, req);
      assert steps + [] == steps;
    } else {
      NewKeyDecided(db, req, key);
    }
  }

  lemma NewKeyDecided(db: Db, req: AuthorizeRequest, key: string)
    requires FindKey(db.txns, key).None?
    ensures var (now, resp) := DoAuthorize(db, req, key);
      (resp.approved <==> Accepts(db, req)) && (resp.approved <==> FindKey(now.txns, key).Some?) &&
      (resp.approved <==> resp.transId.Some? && resp.holdId.Some?) && (!resp.approved ==> now == db)
  {
    if Accepts(db, req) {
      var now := DoAuthorize(db, req, key).0;
      assert now.txns[|db.txns|].key == Some(key);
    }
  }

  // ----- requests served one at a time -----

  lemma {:induction false} SerialKeys(db: Db, ops: seq<Op>)
    requires KeysUnique(db.txns)
    ensures KeysUnique(Serve(db, ops).txns)
    decreases |ops|
  {
    if ops != [] {
      SerialKeys(db, ops[..|ops| - 1]);
    }
  }

  /** Served one at a time, no key is ever on two transactions, and after an approval every
      later request with its key gets the approval's transaction and hold. */
  lemma ServedOneAtATime(start: seq<Card>, before: seq<Op>, req: AuthorizeRequest, key: string,
      after: seq<Op>, again: AuthorizeRequest)
    requires DoAuthorize(Serve(Db(start, [], []), before), req, key).1.approved
    ensures
      var resp := DoAuthorize(Serve(Db(start, [], []), before), req, key).1;
      var now := Serve(Serve(Db(start, [], []), before + [OpAuthorize(req, key)]), after);
      KeysUnique(now.txns) && resp.transId.Some? && resp.holdId.Some? &&
      DoAuthorize(now, again, key) == (now, AuthorizeResponse(true, resp.transId, resp.holdId, None))
  {
    var db0 := Db(start, [], []);
    var op := OpAuthorize(req, key);
    SerialKeys(db0, before + [op]);
    SerialKeys(Serve(db0, before + [op]), after);
    var first := ServeIsRun(db0, before);
    DeclineLeavesNoState(start, first, req, key);
    InvRun(start, first);
    ApprovedLookups(Serve(db0, before), req, key);
    Extended(before, op);
    var steps := ServeIsRun(db0, before + [op]);
    var rest := ServeIsRun(Serve(db0, before + [op]), after);
    RunAppend(Fresh(start), steps, rest);
    ReplayAgrees(start, steps, rest, key, again);
  }

  /** Right after an approval, the key and the transaction lead to what was answered. */
  lemma ApprovedLookups(db: Db, req: AuthorizeRequest, key: string)
    requires Books(db)
    ensures var (now, resp) := DoAuthorize(db, req, key);
      resp.approved ==>
        resp.transId.Some? && FindKey(now.txns, key) == resp.transId &&
        FindHold(now.holds, resp.transId.value) == resp.holdId
  {
    forall i | 0 <= i < |db.holds| ensures db.holds[i].transId < |db.txns| {
      assert Matches(db, db.holds[i]);
    }
  }
}
