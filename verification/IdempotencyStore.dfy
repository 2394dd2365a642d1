/** The keyed write endpoints of the logistics service, one request at a time:
    the store of idempotency records and the handler the endpoints share. */
module IdempotencyStore {
  import opened Wrappers

  datatype Scope = FleetUpsert | TripCreate | FuelConsumption

  /** A JSON object: property name to the text of its value. */
  type Body = map<string, string>

  datatype RecordStatus = Processing | Succeeded | Errored

  datatype Record = Record(requestHash: string, status: RecordStatus, code: Option<int>, body: Option<Body>)

  datatype StoreKey = StoreKey(scope: Scope, key: string)

  type Records = map<StoreKey, Record>

  /** A keyed or unkeyed request; an empty key counts as none. */
  datatype Request = Request(scope: Scope, key: Option<string>, requestHash: string)
  {
    predicate Keyed() {
      key.Some? && key.value != ""
    }

    function At(): StoreKey
      requires Keyed()
    {
      StoreKey(scope, key.value)
    }
  }

  /** What the transport provider does when called. */
  datatype Outcome =
    | Returned(body: Body)
    | Unavailable(code: string, provider: string, mode: string)
    | Raised

  datatype Fault = Fault(code: int, detail: Body)

  datatype Answer =
    | Ok(body: Body)
    | Failed(fault: Fault)
    | InProgress        // 409 "idempotency_processing"

  /** `_run_transport_call`: an unavailable provider is a 503, any other exception a 502. */
  function TransportResult(providerName: string, outcome: Outcome): Result<Body, Fault> {
    match outcome
    case Returned(body) => Success(body)
    case Unavailable(code, provider, mode) =>
      Failure(Fault(503, map["category" := "provider_unavailable", "error" := code, "provider" := provider,
                             "mode" := mode, "retryable" := "false"]))
    case Raised =>
      Failure(Fault(502, map["category" := "provider_error", "error" := "provider_error",
                             "provider" := providerName, "retryable" := "true"]))
  }

  /** The body with the key it was asked for under and how it was obtained. */
  function Stamped(body: Body, key: string, status: string): Body {
    body["idempotency_key" := key]["idempotency_status" := status]
  }

  /** `existing.response_code or 503` */
  function CodeOr503(code: Option<int>): int {
    if code.Some? && code.value != 0 then code.value else 503
  }

  /** How an existing record answers; none when the endpoint goes on to `start_processing`. */
  function AnswerFrom(rec: Record, key: string): Option<Answer> {
    if rec.status.Processing? then Some(InProgress)
    else if rec.body.None? then None
    else if rec.status.Errored? then Some(Failed(Fault(CodeOr503(rec.code), rec.body.value)))
    else Some(Ok(Stamped(rec.body.value, key, "replayed")))
  }

  function Finalized(rec: Record, status: RecordStatus, code: int, body: Body): Record {
    rec.(status := status, code := Some(code), body := Some(body))
  }

  /** `UPDATE ... WHERE scope=? AND key=?`: nothing happens without a row. */
  function FinalizeAt(records: Records, k: StoreKey, status: RecordStatus, code: int, body: Body): Records {
    if k in records then records[k := Finalized(records[k], status, code, body)] else records
  }

  /** What the owner of a key writes and answers once the provider is done. */
  function Conclude(records: Records, k: StoreKey, result: Result<Body, Fault>): (Records, Answer) {
    match result
    case Success(body) =>
      (FinalizeAt(records, k, Succeeded, 200, body), Ok(Stamped(body, k.key, "new")))
    case Failure(fault) =>
      (FinalizeAt(records, k, Errored, fault.code, fault.detail), Failed(fault))
  }

  /** A whole keyed request served alone: new records, answer, and whether the provider was called. */
  function ServeKeyed(records: Records, k: StoreKey, hash: string, result: Result<Body, Fault>)
      : (Records, Answer, bool) {
    var early := if k in records then AnswerFrom(records[k], k.key) else None;
    if early.Some? then (records, early.value, false)
    else if k in records then (records, InProgress, false)
    else
      var (after, answer) := Conclude(records[k := Record(hash, Processing, None, None)], k, result);
      (after, answer, true)
  }

  class Store {
    var records: Records

    constructor ()
      ensures records == map[]
    {
      records := map[];
    }

    method Get(k: StoreKey) returns (r: Option<Record>)
      ensures r == if k in records then Some(records[k]) else None
    {
      r := if k in records then Some(records[k]) else None;
    }

    /** Inserts unless the scope and key are taken. */
    method StartProcessing(k: StoreKey, hash: string) returns (inserted: bool)
      modifies this
      ensures inserted == (k !in old(records))
      ensures records == if inserted then old(records)[k := Record(hash, Processing, None, None)] else old(records)
    {
      if k in records {
        return false;
      }
      records := records[k := Record(hash, Processing, None, None)];
      return true;
    }

    method Finalize(k: StoreKey, status: RecordStatus, code: int, body: Body)
      modifies this
      ensures records == FinalizeAt(old(records), k, status, code, body)
    {
      if k in records {
        records := records[k := Finalized(records[k], status, code, body)];
      }
    }
  }

  /** The body the three endpoints share. `outcome` is what the provider does if it is called. */
  method HandleKeyed(store: Store, providerName: string, k: StoreKey, hash: string, outcome: Outcome)
      returns (answer: Answer, called: bool)
    modifies store
    ensures (store.records, answer, called) ==
      ServeKeyed(old(store.records), k, hash, TransportResult(providerName, outcome))
  {
    var existing := store.Get(k);
    if existing.Some? {
      var early := AnswerFrom(existing.value, k.key);
      if early.Some? {
        return early.value, false;
      }
    }
    var inserted := store.StartProcessing(k, hash);
    if !inserted {
      return InProgress, false;
    }
    var result := TransportResult(providerName, outcome);
    if result.Failure? {
      store.Finalize(k, Errored, result.error.code, result.error.detail);
      return Failed(result.error), true;
    }
    store.Finalize(k, Succeeded, 200, result.value);
    return Ok(Stamped(result.value, k.key, "new")), true;
  }
}
