/** What the three endpoints answer and write, row by row, in every state of the tables. */
module CardEndpoints {
  import opened Wrappers
  import opened CardLedger

  /** The first of the transactions with the key. */
  predicate FirstWithKey(db: Db, key: string, t: nat) {
    t < |db.txns| && db.txns[t].key == Some(key) && forall i :: 0 <= i < t ==> db.txns[i].key != Some(key)
  }

  predicate NoneWithKey(db: Db, key: string) {
    forall i :: 0 <= i < |db.txns| ==> db.txns[i].key != Some(key)
  }

  /** The first of the cards with the token. */
  predicate FirstWithToken(db: Db, token: string, c: nat) {
    c < |db.cards| && db.cards[c].token == token && forall i :: 0 <= i < c ==> db.cards[i].token != token
  }

  /** The first of the holds of the transaction. */
  predicate FirstHoldOf(db: Db, t: nat, h: nat) {
    h < |db.holds| && db.holds[h].transId == t && forall i :: 0 <= i < h ==> db.holds[i].transId != t
  }

  predicate NoHoldOf(db: Db, t: nat) {
    forall i :: 0 <= i < |db.holds| ==> db.holds[i].transId != t
  }

  /** A positive limit that the day's spending, NULL counting as nothing, would exceed. */
  predicate OverLimit(card: Card, amount: real) {
    card.limitDay.Some? && card.limitDay.value > 0.0 &&
    (if card.spentDay.Some? then card.spentDay.value + amount else amount) > card.limitDay.value
  }

  /** `after` is `before` with another `spent_day` on card `c`. */
  predicate OnlySpent(before: seq<Card>, after: seq<Card>, c: nat, spent: Option<real>) {
    |after| == |before| &&
    forall i :: 0 <= i < |before| ==> after[i] == if i == c then before[i].(spentDay := spent) else before[i]
  }

  /** `after` is `before` with another status on hold `h`. */
  predicate OnlyStatus(before: seq<Hold>, after: seq<Hold>, h: nat, s: HoldStatus) {
    |after| == |before| &&
    forall i :: 0 <= i < |before| ==> after[i] == if i == h then before[i].(status := s) else before[i]
  }

  predicate OneMore(before: seq<Txn>, after: seq<Txn>, t: Txn) {
    |after| == |before| + 1 && after[..|before|] == before && after[|before|] == t
  }

  // ----- authorize -----

  /** A known key is answered from its transaction, and nothing is written. */
  lemma KnownKey(db: Db, req: AuthorizeRequest, key: string, t: nat)
    requires FirstWithKey(db, key, t)
    ensures var (now, resp) := DoAuthorize(db, req, key);
      now == db && resp.transId == Some(t) &&
      resp.approved == (db.txns[t].kind == Authorize) &&
      resp.reason == (if db.txns[t].kind == Authorize then None else Some("duplicate")) &&
      (resp.holdId.None? <==> NoHoldOf(db, t)) && (resp.holdId.Some? ==> FirstHoldOf(db, t, resp.holdId.value))
  {
  }

  /** A new key is declined without an active first card, or over its limit, with the reason
      and without a write. */
  lemma NewKeyDeclined(db: Db, req: AuthorizeRequest, key: string)
    requires NoneWithKey(db, key)
    ensures (forall c: nat :: !FirstWithToken(db, req.token, c)) ==>
      DoAuthorize(db, req, key) == (db, AuthorizeResponse(false, None, None, Some("card_not_active")))
    ensures forall c: nat :: FirstWithToken(db, req.token, c) && !db.cards[c].active ==>
      DoAuthorize(db, req, key) == (db, AuthorizeResponse(false, None, None, Some("card_not_active")))
    ensures forall c: nat ::
      FirstWithToken(db, req.token, c) && db.cards[c].active && OverLimit(db.cards[c], req.amount) ==>
      DoAuthorize(db, req, key) == (db, AuthorizeResponse(false, None, None, Some("day_limit_exceeded")))
  {
    if FindCard(db.cards, req.token).Some? {
      assert FirstWithToken(db, req.token, FindCard(db.cards, req.token).value);
    }
  }

  /** Otherwise one authorize row and one active hold are added, and the card's `spent_day`
      grows by the amount, or stays NULL. */
  lemma NewKeyApproved(db: Db, req: AuthorizeRequest, key: string, c: nat)
    requires NoneWithKey(db, key) && FirstWithToken(db, req.token, c) && db.cards[c].active
    requires !OverLimit(db.cards[c], req.amount)
    ensures var (now, resp) := DoAuthorize(db, req, key);
      var card := db.cards[c];
      resp == AuthorizeResponse(true, Some(|db.txns|), Some(|db.holds|), None) &&
      OneMore(db.txns, now.txns, Txn(Authorize, Some(key), card.client, c, req.amount, req.currency)) &&
      now.txns[|db.txns|].Status() == "approved" &&
      |now.holds| == |db.holds| + 1 && now.holds[..|db.holds|] == db.holds &&
      now.holds[|db.holds|] == Hold(|db.txns|, c, req.amount, Active) &&
      OnlySpent(db.cards, now.cards, c, match card.spentDay case None => None case Some(s) => Some(s + req.amount))
  {
  }

  // ----- capture and reverse -----

  /** Both answer 404 without a transaction that has a hold, and 409 for one whose hold is
      settled, without a write. */
  lemma NothingToSettle(db: Db, t: nat, requested: Option<real>)
    ensures t >= |db.txns| || NoHoldOf(db, t) ==>
      DoCapture(db, t, requested) == DoReverse(db, t) == (db, Failure(HttpError(404, "transaction_not_found")))
    ensures forall h: nat :: t < |db.txns| && FirstHoldOf(db, t, h) && db.holds[h].status != Active ==>
      DoCapture(db, t, requested) == (db, Failure(HttpError(409, "hold_not_active"))) &&
      DoReverse(db, t) == (db, Failure(HttpError(409, "transaction_cannot_reverse")))
  {
  }

  /** A capture adds one row without a key, with the client and card of the transaction and
      currency "RUB": for the requested amount if one is given and not zero, otherwise for
      the amount of the hold. That hold is captured, and no card changes. */
  lemma CaptureRow(db: Db, t: nat, requested: Option<real>, h: nat)
    requires t < |db.txns| && FirstHoldOf(db, t, h) && db.holds[h].status == Active
    ensures var (now, r) := DoCapture(db, t, requested);
      var asked := requested.Some? && requested.value != 0.0;
      var amount := if asked then requested.value else db.holds[h].amount;
      r == Success(|db.txns|) &&
      OneMore(db.txns, now.txns, Txn(Capture, None, db.txns[t].client, db.txns[t].cardId, amount, "RUB")) &&
      now.txns[|db.txns|].Status() == "captured" &&
      OnlyStatus(db.holds, now.holds, h, Captured) && now.cards == db.cards
  {
  }

  /** A reversal adds one row without a key, with client, card, amount and currency of the
      transaction. That hold is reversed, and its amount goes back to the card, down to 0 at
      the least; a NULL `spent_day` becomes 0. */
  lemma ReverseRow(db: Db, t: nat, h: nat)
    requires t < |db.txns| && FirstHoldOf(db, t, h) && db.holds[h].status == Active
    ensures var (now, r) := DoReverse(db, t);
      var row := db.txns[t];
      r == Success(|db.txns|) &&
      OneMore(db.txns, now.txns, Txn(Reverse, None, row.client, row.cardId, row.amount, row.currency)) &&
      now.txns[|db.txns|].Status() == "reversed" && OnlyStatus(db.holds, now.holds, h, Reversed) &&
      (row.cardId >= |db.cards| ==> now.cards == db.cards) &&
      (row.cardId < |db.cards| ==>
        OnlySpent(db.cards, now.cards, row.cardId,
          match db.cards[row.cardId].spentDay
          case None => Some(0.0)
          case Some(s) => Some(if s < db.holds[h].amount then 0.0 else s - db.holds[h].amount)))
  {
  }
}
