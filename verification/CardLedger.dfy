/** Card authorizations, captures and reversals over three tables: cards,
    transactions and holds. Row ids are positions in insertion order. */
module CardLedger {
  import opened Wrappers

  /** `spentDay` and `limitDay` may be NULL. */
  datatype Card = Card(token: string, client: int, active: bool, limitDay: Option<real>, spentDay: Option<real>)

  datatype HoldStatus = Active | Captured | Reversed

  datatype Hold = Hold(transId: nat, cardId: nat, amount: real, status: HoldStatus)

  datatype Kind = Authorize | Capture | Reverse

  datatype Txn = Txn(kind: Kind, key: Option<string>, client: int, cardId: nat, amount: real, currency: string)
  {
    function Status(): string {
      match kind
      case Authorize => "approved"
      case Capture => "captured"
      case Reverse => "reversed"
    }
  }

  datatype Db = Db(cards: seq<Card>, txns: seq<Txn>, holds: seq<Hold>)

  /** The request schema admits positive amounts only. */
  type Amount = a: real | a > 0.0 witness 1.0

  datatype AuthorizeRequest = AuthorizeRequest(token: string, amount: Amount, currency: string)

  datatype AuthorizeResponse =
    AuthorizeResponse(approved: bool, transId: Option<nat>, holdId: Option<nat>, reason: Option<string>)

  /** An HTTP error: status code and detail. */
  datatype HttpError = HttpError(code: int, detail: string)

  // ----- lookups -----

  function FindCard(cards: seq<Card>, token: string): (r: Option<nat>)
    ensures r.Some? ==> r.value < |cards| && cards[r.value].token == token
    ensures r.Some? ==> forall i :: 0 <= i < r.value ==> cards[i].token != token
    ensures r.None? ==> forall i :: 0 <= i < |cards| ==> cards[i].token != token
  {
    if cards == [] then None
    else
      var n := |cards| - 1;
      var earlier := FindCard(cards[..n], token);
      if earlier.Some? then earlier else if cards[n].token == token then Some(n) else None
  }

  function FindKey(txns: seq<Txn>, key: string): (r: Option<nat>)
    ensures r.Some? ==> r.value < |txns| && txns[r.value].key == Some(key)
    ensures r.Some? ==> forall i :: 0 <= i < r.value ==> txns[i].key != Some(key)
    ensures r.None? ==> forall i :: 0 <= i < |txns| ==> txns[i].key != Some(key)
  {
    if txns == [] then None
    else
      var n := |txns| - 1;
      var earlier := FindKey(txns[..n], key);
      if earlier.Some? then earlier else if txns[n].key == Some(key) then Some(n) else None
  }

  function FindHold(holds: seq<Hold>, transId: nat): (r: Option<nat>)
    ensures r.Some? ==> r.value < |holds| && holds[r.value].transId == transId
    ensures r.Some? ==> forall i :: 0 <= i < r.value ==> holds[i].transId != transId
    ensures r.None? ==> forall i :: 0 <= i < |holds| ==> holds[i].transId != transId
  {
    if holds == [] then None
    else
      var n := |holds| - 1;
      var earlier := FindHold(holds[..n], transId);
      if earlier.Some? then earlier else if holds[n].transId == transId then Some(n) else None
  }

  // ----- the limit check -----

  function OrZero(x: Option<real>): real {
    if x.Some? then x.value else 0.0
  }

  /** The spending shown by the card is within its limit, if it has a positive one. */
  predicate WithinLimit(card: Card) {
    OrZero(card.limitDay) > 0.0 ==> OrZero(card.spentDay) <= OrZero(card.limitDay)
  }

  /** `ensure_card_can_spend` */
  function EnsureCardCanSpend(card: Card, amount: real): (r: Option<string>)
    ensures r.None? <==> WithinLimit(card.(spentDay := Some(OrZero(card.spentDay) + amount)))
  {
    if OrZero(card.limitDay) > 0.0 && OrZero(card.spentDay) + amount > OrZero(card.limitDay)
    then Some("day_limit_exceeded") else None
  }

  // ----- writes -----

  /** `spent_day + amount`, NULL when `spent_day` is. */
  function SpendMore(spent: Option<real>, amount: real): Option<real> {
    if spent.None? then None else Some(spent.value + amount)
  }

  /** `GREATEST(spent_day - amount, 0)`, which skips a NULL. */
  function SpendLess(spent: Option<real>, amount: real): Option<real> {
    if spent.None? || spent.value - amount < 0.0 then Some(0.0) else Some(spent.value - amount)
  }

  /** The card after charging the amounts one after another. */
  function Charged(card: Card, amounts: seq<Amount>): Card
    decreases |amounts|
  {
    if amounts == [] then card
    else
      var before := Charged(card, amounts[..|amounts| - 1]);
      before.(spentDay := SpendMore(before.spentDay, amounts[|amounts| - 1]))
  }

  predicate AllAccepted(card: Card, amounts: seq<Amount>)
    decreases |amounts|
  {
    amounts == [] ||
    (var n := |amounts| - 1;
     AllAccepted(card, amounts[..n]) && EnsureCardCanSpend(Charged(card, amounts[..n]), amounts[n]).None?)
  }

  function Total(amounts: seq<Amount>): real {
    if amounts == [] then 0.0 else Total(amounts[..|amounts| - 1]) + amounts[|amounts| - 1]
  }

  /** Charges made one after another are all accepted exactly when their total would be.
      On a NULL `spent_day` each is judged as if it were the first. */
  lemma {:induction false} AcceptedInTotal(card: Card, amounts: seq<Amount>)
    requires amounts != []
    ensures card.spentDay.Some? ==>
      Charged(card, amounts) == card.(spentDay := Some(card.spentDay.value + Total(amounts)))
    ensures card.spentDay.Some? ==> (AllAccepted(card, amounts) <==> EnsureCardCanSpend(card, Total(amounts)).None?)
    ensures card.spentDay.None? ==> Charged(card, amounts) == card
    ensures card.spentDay.None? ==>
      (AllAccepted(card, amounts) <==> forall i :: 0 <= i < |amounts| ==> EnsureCardCanSpend(card, amounts[i]).None?)
    decreases |amounts|
  {
    var n := |amounts| - 1;
    if n > 0 {
      AcceptedInTotal(card, amounts[..n]);
    }
  }

  function SetSpent(cards: seq<Card>, c: nat, spent: Option<real>): seq<Card> {
    if c < |cards| then cards[c := cards[c].(spentDay := spent)] else cards
  }

  /** The three writes of an approved authorization. */
  function RecordAuthorization(db: Db, req: AuthorizeRequest, key: string, c: nat): Db
    requires c < |db.cards|
  {
    var card := db.cards[c];
    Db(SetSpent(db.cards, c, SpendMore(card.spentDay, req.amount)),
       db.txns + [Txn(Authorize, Some(key), card.client, c, req.amount, req.currency)],
       db.holds + [Hold(|db.txns|, c, req.amount, Active)])
  }

  function SetStatus(holds: seq<Hold>, h: nat, s: HoldStatus): seq<Hold>
    requires h < |holds|
  {
    holds[h := holds[h].(status := s)]
  }

  /** `req.amount or row["amount"]`: an absent or zero amount means the whole hold. */
  function CaptureAmount(requested: Option<real>, held: real): real {
    if requested.Some? && requested.value != 0.0 then requested.value else held
  }

  function RecordCapture(db: Db, transId: nat, h: nat, requested: Option<real>): Db
    requires transId < |db.txns| && h < |db.holds|
  {
    var t := db.txns[transId];
    Db(db.cards,
       db.txns + [Txn(Capture, None, t.client, t.cardId, CaptureAmount(requested, db.holds[h].amount), "RUB")],
       SetStatus(db.holds, h, Captured))
  }

  function RecordReverse(db: Db, transId: nat, h: nat): Db
    requires transId < |db.txns| && h < |db.holds|
  {
    var t := db.txns[transId];
    var spent := if t.cardId < |db.cards| then SpendLess(db.cards[t.cardId].spentDay, db.holds[h].amount) else None;
    Db(SetSpent(db.cards, t.cardId, spent),
       db.txns + [Txn(Reverse, None, t.client, t.cardId, t.amount, t.currency)],
       SetStatus(db.holds, h, Reversed))
  }

  // ----- the three endpoints, one request at a time -----

  function Declined(reason: string): AuthorizeResponse {
    AuthorizeResponse(false, None, None, Some(reason))
  }

  /** The answer to a request whose key is already on transaction `t`. */
  function Replay(db: Db, t: nat): AuthorizeResponse
    requires t < |db.txns|
  {
    var approved := db.txns[t].Status() == "approved";
    AuthorizeResponse(approved, Some(t), FindHold(db.holds, t), if approved then None else Some("duplicate"))
  }

  function DoAuthorize(db: Db, req: AuthorizeRequest, key: string): (Db, AuthorizeResponse) {
    var seen := FindKey(db.txns, key);
    if seen.Some? then (db, Replay(db, seen.value))
    else
      var c := FindCard(db.cards, req.token);
      if c.None? || !db.cards[c.value].active then (db, Declined("card_not_active"))
      else
        var refused := EnsureCardCanSpend(db.cards[c.value], req.amount);
        if refused.Some? then (db, Declined(refused.value))
        else
          (RecordAuthorization(db, req, key, c.value),
           AuthorizeResponse(true, Some(|db.txns|), Some(|db.holds|), None))
  }

  /** The hold a capture or reversal of `transId` finds, or the error it answers with. */
  function FindActiveHold(db: Db, transId: nat, refusal: string): Result<nat, HttpError> {
    var h := FindHold(db.holds, transId);
    if transId >= |db.txns| || h.None? then Failure(HttpError(404, "transaction_not_found"))
    else if db.holds[h.value].status != Active then Failure(HttpError(409, refusal))
    else Success(h.value)
  }

  function DoCapture(db: Db, transId: nat, requested: Option<real>): (Db, Result<nat, HttpError>) {
    var h := FindActiveHold(db, transId, "hold_not_active");
    if h.Failure? then (db, h) else (RecordCapture(db, transId, h.value, requested), Success(|db.txns|))
  }

  function DoReverse(db: Db, transId: nat): (Db, Result<nat, HttpError>) {
    var h := FindActiveHold(db, transId, "transaction_cannot_reverse");
    if h.Failure? then (db, h) else (RecordReverse(db, transId, h.value), Success(|db.txns|))
  }

  class Ledger {
    var cards: seq<Card>
    var txns: seq<Txn>
    var holds: seq<Hold>

    function State(): Db
      reads this
    {
      Db(cards, txns, holds)
    }

    constructor (cards: seq<Card>)
      ensures State() == Db(cards, [], [])
    {
      this.cards := cards;
      txns := [];
      holds := [];
    }

    method Authorize(req: AuthorizeRequest, key: string) returns (resp: AuthorizeResponse)
      modifies this
      ensures (State(), resp) == DoAuthorize(old(State()), req, key)
    {
      var seen := FindKey(txns, key);
      if seen.Some? {
        return Replay(State(), seen.value);
      }
      var found := FindCard(cards, req.token);
      if found.None? || !cards[found.value].active {
        return Declined("card_not_active");
      }
      var c := found.value;
      var card := cards[c];
      var refused := EnsureCardCanSpend(card, req.amount);
      if refused.Some? {
        return Declined(refused.value);
      }
      var transId := |txns|;
      txns := txns + [Txn(Kind.Authorize, Some(key), card.client, c, req.amount, req.currency)];
      var holdId := |holds|;
      holds := holds + [Hold(transId, c, req.amount, Active)];
      cards := SetSpent(cards, c, SpendMore(cards[c].spentDay, req.amount));
      return AuthorizeResponse(true, Some(transId), Some(holdId), None);
    }

    method Capture(transId: nat, requested: Option<real>) returns (r: Result<nat, HttpError>)
      modifies this
      ensures (State(), r) == DoCapture(old(State()), transId, requested)
    {
      var found := FindActiveHold(State(), transId, "hold_not_active");
      if found.Failure? {
        return found;
      }
      var h := found.value;
      var amount := CaptureAmount(requested, holds[h].amount);
      holds := SetStatus(holds, h, Captured);
      var id := |txns|;
      txns := txns + [Txn(Kind.Capture, None, txns[transId].client, txns[transId].cardId, amount, "RUB")];
      return Success(id);
    }

    method Reverse(transId: nat) returns (r: Result<nat, HttpError>)
      modifies this
      ensures (State(), r) == DoReverse(old(State()), transId)
    {
      var found := FindActiveHold(State(), transId, "transaction_cannot_reverse");
      if found.Failure? {
        return found;
      }
      var h, t := found.value, txns[transId];
      holds := SetStatus(holds, h, Reversed);
      if t.cardId < |cards| {
        cards := SetSpent(cards, t.cardId, SpendLess(cards[t.cardId].spentDay, holds[h].amount));
      }
      var id := |txns|;
      txns := txns + [Txn(Kind.Reverse, None, t.client, t.cardId, t.amount, t.currency)];
      return Success(id);
    }
  }
}
