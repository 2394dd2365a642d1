# NEFT core protocols, verified

Dafny models of the parts of the NEFT platform whose correctness is not visible
in any single function, with proofs about every input, every run or every
interleaving. Verify everything with `dafny verify dfyconfig.toml`.

| files | what they model |
|---|---|
| `Utf16`, `Json`, `Values`, `ObjectGraph`, `GraphText`, `GraphPaths` | the canonical serializer of the admin UI: JSON text over UTF-16 code units (sections 4 to 7 of RFC 8259, key order of section 3.2.3 of RFC 8785), on finite values and on heaps with sharing and cycles |
| `AuditPayload`, `AuditEvents`, `HashChain`, `AuditChain` | the audit hash chain over case events: payloads and what of an event they hold, links, verification |
| `CardLedger`, `CardEndpoints`, `CardSessions`, `CardGuarantees`, `CardKeys`, `CardFloors`, `CardDuplicates` | card authorizations, captures and reversals over three tables; the endpoints as a class, and the same writes under concurrent database transactions with row locks; money, settlements and idempotency keys in every interleaving |
| `IdempotencyStore`, `IdempotentWrites`, `IdempotencyGuarantees` | the idempotent write endpoints of the logistics service: store and handler as imperative code, and the steps of any number of requests interleaved |
| `EventOutbox`, `OutboxWorkers`, `OutboxGuarantees`, `OutboxDuplicates` | the transactional outbox worker: one `run_once` as imperative code, and any number of workers whose sessions commit or roll back while the stream keeps what it was given |
| `SignedKeys`, `SignCache` | the two-object cache of the signing endpoint, with crashes between the puts |
| `OtpReplay` | the replay cache of the one-time-password endpoint under a clock |
| `Percentile`, `JoinUrl` | the latency percentile, and the overlap merge of URL segments |
| `Wrappers`, `Sequences` | optional values and results; facts about sequences |

Imperative code is modelled as methods proved equal to a specification function;
the theorems are about those functions and about the machines built from them.
Refinement lemmas (`CardGuarantees.OpIsRun`, `IdempotencyGuarantees.HandlerIsRun`,
`OutboxGuarantees.RunOnceIsRun`) connect the endpoint code to the machines.

Nothing is assumed about SHA-256 beyond the shape of its output (64 hexadecimal
digits). Results about the chain say "equal, or here are two texts that
collide"; both texts are shown to be free of lone surrogates, the only inputs on
which the UTF-8 step before hashing loses information.

A JavaScript number is represented by the text `Number::toString` gives for it, a
date by its ISO text. Amounts are reals. Provider answers, publish outcomes,
crashes, rollbacks and the order of all steps are arbitrary.

## Where the code does less than one might expect

Each of these is proved, with the exact condition or a run that shows it.

- The books of a card add up in every run exactly when the card starts with a
  `spent_day` that is neither NULL nor negative, or no authorization can reach it
  (`CardGuarantees.AccountsIff`): SQL leaves `NULL + x` NULL, `GREATEST` turns
  NULL into 0, and the clamp at 0 swallows a negative start.
- A day limit bounds what is really outstanding in every run exactly when the card
  starts within it and its `spent_day` is not NULL, or no authorization can reach it
  (`CardGuarantees.LimitIff`); a NULL card can be charged its limit any number of
  times (`CardGuarantees.ChargedTimes`).
- The check for an idempotency key locks nothing, so two overlapping authorizations
  with one key can both be charged (`CardDuplicates.DuplicateUnderConcurrency`).
  Keys stay unique in every run without such overlaps (`CardKeys.KeysStayUnique`), and
  `CardDuplicates.UniqueIff` says exactly when admitting one more request is harmless.
- A request that dies while it owns an idempotency key of the logistics service
  blocks that key for good; a record in processing can still be finalized exactly
  when its owner is not dead (`IdempotencyGuarantees.FinalizableIff`, `LostByDeath`).
- Replays are answered without comparing request bodies: an answer belongs to the
  request's own body exactly when the stored hash is its own
  (`IdempotencyGuarantees.OwnBodyIff`, `OtherBodyReplayed`).
- The outbox delivers at least once. An event is in the stream exactly once more
  than its lost deliveries (`OutboxGuarantees.ExactDeliveries`,
  `OutboxGuarantees.DeliveredTwice`). It stays there at most once, when nothing more
  goes wrong, exactly if its deliveries so far and one for a pending event are at most
  one (`OutboxDuplicates.SingleIff`).
- Overlapping signing requests for one place can leave a document of one provider call
  beside the signature of another (`SignCache.MixedFromEmpty`). One more request for a
  place is harmless exactly when no other is signing for it (`SignCache.HarmlessIff`).
- A stored signed pair answers every request for its place: inputs that differ only in
  folder or extension share it (`SignedKeys.PlaceForgets`), and so do other contents
  and other providers (`SignCache.OtherAskAnswered`). An answer was made for the request's
  own input and provider exactly when the stored pair was (`SignCache.OwnAskIff`).
- A repeated one-time-password key is answered without looking at the destination. The
  message an accepted call is told of went to its own destination exactly when the last
  unexpired send under its key did, or there is none (`OtpReplay.OwnDestinationIff`,
  `OtpReplay.OtherDestinationReplayed`).
- `verifyChain` answers `verified` when it has no links to compare with
  (`HashChain.IsVerification`). It also discards trusted links whose number differs from
  that of the events, so a history with events dropped or added, and without links of
  its own, is verified (`AuditChain.VerifiedIff`, `AuditChain.ChangedCountVerifies`). And
  events that carry links of their own are compared with those alone: any history with
  its links computed anew is verified, whatever trusted links are supplied
  (`AuditChain.RelinkedVerifies`).

## Model

| member | source | states |
|---|---|---|
| Utf16.BeforeIff | frontends/admin-ui/src/audit_chain/canonical.ts:39-40 | one key comes before another exactly if it has the smaller code unit where they first differ, or is a proper prefix |
| Utf16.SortKeysSorts | frontends/admin-ui/src/audit_chain/canonical.ts:39-40 | sorting distinct keys gives the same keys, strictly increasing in UTF-16 code units |
| Json.WriteTexts | frontends/admin-ui/src/audit_chain/canonical.ts:11-47 | the literal units of null, true and false, and of the brackets, commas and colons of arrays and objects |
| Json.EscapedUnits | frontends/admin-ui/src/audit_chain/canonical.ts:16-17 | what each code unit of a string is written as: quote and backslash escaped, five controls by a letter, other controls and lone surrogates by four lower-case hexadecimal digits of their value, anything else as it is |
| Json.EscapedPair | frontends/admin-ui/src/audit_chain/canonical.ts:16-17 | a surrogate pair is written as it is |
| Json.EscapeConcat | frontends/admin-ui/src/audit_chain/canonical.ts:16-17 | a string is escaped piece by piece as long as no surrogate pair is torn apart |
| Json.ReadStringInvertsEscape | frontends/admin-ui/src/audit_chain/canonical.ts:16-17 | an RFC 8259 string reader recovers every quoted string, lone surrogates and control characters included, whatever follows it |
| Json.ReadInvertsWrite | frontends/admin-ui/src/audit_chain/canonical.ts:16-47 | an independent JSON reader applied to a written value followed by any delimited text returns exactly that value and that remainder |
| Json.WriteInjective | frontends/admin-ui/src/audit_chain/canonical.ts:16-47 | no two JSON values share a text |
| Json.WriteWellFormed | frontends/admin-ui/src/audit_chain/hash.ts:5 | a canonical text has no lone surrogate, so encoding it as UTF-8 loses nothing |
| Values.AtomTexts | frontends/admin-ui/src/audit_chain/canonical.ts:11-18 | the text of undefined, null, booleans, numbers, strings and dates, in literal units |
| Values.TextSaysTree | frontends/admin-ui/src/audit_chain/canonical.ts:10-56 | the text of a printable finite value reads back, with nothing left, as the one JSON value that denotes it: each atom as itself, the defined elements in order, the defined members in key order |
| Values.TextEqualIffSame | frontends/admin-ui/src/audit_chain/canonical.ts:10-56 | two finite values have the same canonical text if and only if they are equal up to undefined members and elements, key order, dates as ISO text and non-finite numbers as null |
| ObjectGraph.Canonicalizer.Canonicalize | frontends/admin-ui/src/audit_chain/canonical.ts:10-51 | on any finite closed heap the recursion with the shared ancestor stack terminates, computes the text or the first fault, and leaves the stack as it found it whenever it returns a text |
| ObjectGraph.CanonicalStringify | frontends/admin-ui/src/audit_chain/canonical.ts:53-56 | a fresh stack and the root path give the text or fault of the value itself |
| GraphText.FailsIffBlocked | frontends/admin-ui/src/audit_chain/canonical.ts:10-47 | it throws if and only if a cycle, or a function, symbol, bigint or invalid date, is reachable through defined members, and the error it throws names a thing that is really reachable |
| GraphPaths.ErrorPath | frontends/admin-ui/src/audit_chain/canonical.ts:3-45 | an error is at the end of some way from the value: an unsupported value, an object already passed, or an invalid date, and the path in the message is "$" and the text of that way |
| GraphPaths.DecimalDigits | frontends/admin-ui/src/audit_chain/canonical.ts:29 | an index in a path is its decimal digits without leading zeros |
| GraphText.TextOfUnfolding | frontends/admin-ui/src/audit_chain/canonical.ts:22-47 | a text is returned exactly for values that unfold to a finite printable tree, and it is that tree's text: shared objects leave no trace |
| GraphText.GraphTextSays | frontends/admin-ui/src/audit_chain/canonical.ts:10-56 | the text of a heap value reads back as the one JSON value that denotes its unfolding |
| GraphText.GraphTextEqualIffSame | frontends/admin-ui/src/audit_chain/canonical.ts:10-56 | two heap values with a text have the same one if and only if their unfoldings are the same value |
| AuditPayload.PayloadTextFixesPayload | frontends/admin-ui/src/audit_chain/chain.ts:49-90 | two payloads have the same canonical text if and only if they agree on id, case, time, type, normalized actor, source, request and trace id, artifact, reason and every redacted change |
| AuditEvents.EventObject | frontends/admin-ui/src/audit_chain/chain.ts:27-90 | the object written for an event has exactly eleven named properties, each with the value the event's own fields give it: the derived source, the actor or null, the redacted changes if there are any, the export reference with a null url for a missing one |
| AuditEvents.AgreeIffSamePayload | frontends/admin-ui/src/audit_chain/chain.ts:49-90 | the payloads of two events are the same if and only if the events agree, field by field, on what is audited |
| AuditChain.EventTextSays | frontends/admin-ui/src/audit_chain/chain.ts:49-95 | an event has a text exactly when its redacted changes can be written, and the text reads back as the JSON value that denotes the event's audit object |
| HashChain.ComputeChain | frontends/admin-ui/src/audit_chain/chain.ts:111-123 | the loop returns one link per event from the running head before it to the head after it, nothing for an empty history, and fails if some payload cannot be serialized |
| HashChain.ChainIsLinked | frontends/admin-ui/src/audit_chain/chain.ts:7-120 | one link per event, under its id: the first continues "GENESIS", each other one the link before, and each hash covers the previous hash, a newline and its own event's text |
| HashChain.VerifyChain | frontends/admin-ui/src/audit_chain/chain.ts:125-159 | the verdict is unknown, verified, or broken at the first link that disagrees with the backend's or the supplied links, with both hashes |
| HashChain.VerdictSays | frontends/admin-ui/src/audit_chain/chain.ts:97-159 | unknown exactly without a case or events; broken at the first event whose recomputed link differs from its own link, if every event carries one, or else from the supplied link, if there are as many, with both hashes; verified otherwise |
| HashChain.HeadPinsTexts | frontends/admin-ui/src/audit_chain/chain.ts:92-120 | equal heads mean equal text sequences, of whatever lengths, or a collision at a named pair of texts |
| HashChain.ComparisonLocates | frontends/admin-ui/src/audit_chain/chain.ts:143-155 | comparing the links of two histories of one length answers verified for equal texts and otherwise finds the first differing one, or the two materials hashed there collide |
| AuditChain.HeadPinsHistory | frontends/admin-ui/src/audit_chain/chain.ts:49-123 | two chains of real events end in one hash when they audit the same history, and only then, unless they exhibit a collision |
| AuditChain.TamperLocated | frontends/admin-ui/src/audit_chain/chain.ts:125-159 | events checked against links computed from an earlier version: as many events without links of their own are verified when nothing audited changed and otherwise reported broken at the first changed event, unless the hashes of that event collide; another number of them is verified; events with links of their own are verified exactly if those are the links of their own history |
| AuditChain.VerifiedIff | frontends/admin-ui/src/audit_chain/chain.ts:135-158 | events without links of their own are verified against trusted links if they differ from the trusted history in number or audit the same content, and only then, unless the hashes of the first changed event collide |
| AuditChain.ChangedCountVerifies | frontends/admin-ui/src/audit_chain/chain.ts:135 | dropping the last event of any history, or adding one, is verified against the trusted links |
| AuditChain.RelinkedVerifies | frontends/admin-ui/src/audit_chain/chain.ts:141-142 | links are not audited: any history whose links are computed anew audits the same content and is verified, whatever trusted links it is checked against |
| AuditChain.OwnHeadsPinHistory | frontends/admin-ui/src/audit_chain/chain.ts:97-155 | two histories verified by their own links carry the same last hash when they audit the same content, and only then, unless they exhibit a collision |
| CardLedger.AcceptedInTotal | platform/auth-host/app/validators.py:3-9 | charges made one after another are all accepted exactly when their total would be, and on a NULL `spent_day` exactly when each would be as the first |
| CardLedger.Ledger.Authorize | platform/auth-host/app/transactions.py:31-83 | the endpoint's reads and writes are those of the specification, with the new state and the answer |
| CardLedger.Ledger.Capture | platform/auth-host/app/transactions.py:85-110 | captures the active hold of a transaction or answers 404 or 409 without a write, as specified |
| CardLedger.Ledger.Reverse | platform/auth-host/app/transactions.py:112-138 | reverses the active hold and gives its amount back to the card, or answers 404 or 409 without a write |
| CardEndpoints.KnownKey | platform/auth-host/app/transactions.py:31-45 | a known key is answered from its first transaction and that transaction's first hold, without a write |
| CardEndpoints.NewKeyDeclined | platform/auth-host/app/transactions.py:47-58 | a new key is declined without an active first card, or over its positive limit, with the reason and without a write |
| CardEndpoints.NewKeyApproved | platform/auth-host/app/transactions.py:60-83 | otherwise the client's authorize row and an active hold are added, the card's `spent_day` grows by the amount or stays NULL, and nothing else changes |
| CardEndpoints.NothingToSettle | platform/auth-host/app/transactions.py:89-124 | captures and reversals answer 404 without a transaction that has a hold and 409 for a settled one, without a write |
| CardEndpoints.CaptureRow | platform/auth-host/app/transactions.py:98-110 | a capture adds one row, for the requested amount if given and not zero and otherwise for the hold's, with client and card of the transaction and currency "RUB"; only that hold's status changes |
| CardEndpoints.ReverseRow | platform/auth-host/app/transactions.py:126-138 | a reversal adds one row with client, card, amount and currency of the transaction, reverses that hold and gives its amount back to the card, down to 0 |
| CardSessions.InvRun | platform/auth-host/app/transactions.py:28-138 | books, row locks and conservation hold after every interleaving of every set of requests, with sessions dying anywhere; what a card shows as spent stays within its limit, and covers what is outstanding unless `spent_day` started NULL |
| CardGuarantees.SpendingExact | platform/auth-host/app/transactions.py:76-80 | for a card started at a nonnegative `spent_day`, `spent_day` is in every run the start plus all holds not reversed, no reversal meets the clamp, and a card within its day limit stays within it |
| CardGuarantees.AccountsIff | platform/auth-host/app/transactions.py:128 | `spent_day` accounts for the card's holds in every run if and only if it starts nonnegative and not NULL or no authorization can reach the card |
| CardGuarantees.LimitIff | platform/auth-host/app/transactions.py:48-81 | a positive day limit bounds start plus outstanding holds in every run if and only if the card starts within it and either `spent_day` is not NULL or no authorization can reach the card |
| CardGuarantees.ChargedTimes | platform/auth-host/app/transactions.py:77-80 | a reachable card with a NULL `spent_day` can be charged its whole limit any number of times |
| CardGuarantees.SettledForever | platform/auth-host/app/transactions.py:94-101 | rows are never deleted, and a hold keeps its amount and leaves the active status at most once |
| CardGuarantees.OneSettlementEach | platform/auth-host/app/transactions.py:89-135 | authorize rows and holds correspond one to one, capture rows number the captured holds and reverse rows the reversed ones, and capture and reverse rows are not found by captures and reversals |
| CardGuarantees.OpIsRun | platform/auth-host/app/transactions.py:29-138 | an endpoint served alone does what its session does on the concurrent machine |
| CardKeys.KeysStayUnique | platform/auth-host/app/transactions.py:31-65 | in every interleaving in which no two authorizations with one key overlap, no idempotency key is ever on two transactions |
| CardKeys.ReplayAgrees | platform/auth-host/app/transactions.py:36-45 | once a key is on a transaction, after any further steps of any sessions a request with it changes nothing and is approved with one and the same transaction and hold |
| CardKeys.ApprovalReplayed | platform/auth-host/app/transactions.py:36-83 | what an authorization is answered when it commits is what every later request with its key is answered, if none with that key overlapped with it |
| CardKeys.DeclineLeavesNoState | platform/auth-host/app/transactions.py:50-58 | in every reachable state a request is approved exactly if its key is on a transaction or its card accepts it, and a decline leaves no trace |
| CardKeys.ServedOneAtATime | platform/auth-host/app/transactions.py:31-65 | served one at a time, keys are on one transaction at most and every request after an approval with its key gets the approval's transaction and hold |
| CardDuplicates.UniqueIff | platform/auth-host/app/transactions.py:31-81 | in a state reached without overlapping keys, admitting one more authorization keeps keys unique in every continuation if and only if it could not commit along with an open authorization that carries its key, as read off the cards, holds and locks |
| CardDuplicates.OrderIrrelevant | platform/auth-host/app/transactions.py:55-128 | on cards that show no negative spending two authorizations could both commit exactly when each could for itself |
| CardDuplicates.UniqueIffAccepted | platform/auth-host/app/transactions.py:31-81 | for requests that are accepted as things stand, keys stay unique in every continuation if and only if no open authorization carries the key |
| CardDuplicates.FreeKeyIsSafe | platform/auth-host/app/transactions.py:31-48 | with its key free, one more authorization keeps keys unique in every continuation, on any cards |
| CardDuplicates.DuplicateUnderConcurrency | platform/auth-host/app/transactions.py:31-48 | a run in which two concurrent requests with one key are both approved and both charged |
| IdempotencyStore.HandleKeyed | platform/logistics-service/neft_logistics_service/main.py:341-364 | the handler's records, answer and provider call are those of the specification, for every earlier record and provider outcome |
| IdempotencyGuarantees.FirstAnswered | platform/logistics-service/neft_logistics_service/main.py:352-364 | under a free key the provider is called; its answer is stored with 200 and given as new, an unavailable provider is stored and given as a 503 and any other exception as a retryable 502, with their details |
| IdempotencyGuarantees.RepeatAnswered | platform/logistics-service/neft_logistics_service/main.py:342-353 | under a taken key nothing is called or stored: 409 in processing or without a body, otherwise the stored fault or the stored response as replayed |
| IdempotencyGuarantees.UnkeyedAnswered | platform/logistics-service/neft_logistics_service/main.py:334-337 | without a key, or with an empty one, the provider is called and nothing is stored |
| IdempotencyStore.Store.StartProcessing | platform/logistics-service/neft_logistics_service/storage/idempotency.py:76-86 | inserts a record in processing exactly if the scope and key are free |
| IdempotencyGuarantees.AtMostOneCall | platform/logistics-service/neft_logistics_service/main.py:352-355 | in no interleaving, deaths included, do two provider calls serve one scope and key |
| IdempotencyGuarantees.RecordsMoveForward | platform/logistics-service/neft_logistics_service/storage/idempotency.py:76-94 | a record once there stays there with its request hash, and once finalized never changes |
| IdempotencyGuarantees.ProcessingIsOwned | platform/logistics-service/neft_logistics_service/main.py:352-361 | without deaths a record is in processing exactly while a request is in flight for it, and only one is |
| IdempotencyGuarantees.ReplayAgreement | platform/logistics-service/neft_logistics_service/main.py:342-364 | every answered keyed request is the owner, was turned away with 409, or got the owner's answer: same fault, or same body except `idempotency_status` |
| IdempotencyGuarantees.FinalizableIff | platform/logistics-service/neft_logistics_service/main.py:343-361 | a record in processing can be finalized by some continuation if and only if its owner is not dead |
| IdempotencyGuarantees.LostForever | platform/logistics-service/neft_logistics_service/main.py:343-344 | once an owner has died before finalizing, its record stays in processing in every continuation |
| IdempotencyGuarantees.LostByDeath | platform/logistics-service/neft_logistics_service/main.py:352-355 | in every state any free scope and key is lost by a run in which a request dies right after taking it |
| IdempotencyGuarantees.LostTurnsAway | platform/logistics-service/neft_logistics_service/main.py:343-344 | under a lost key every answered request is turned away with 409 |
| IdempotencyGuarantees.OwnBodyIff | platform/logistics-service/neft_logistics_service/main.py:340-351 | an answered request that was not turned away got the outcome of a provider call made for its own body if and only if the stored request hash is its own |
| IdempotencyGuarantees.RepeatIgnoresBody | platform/logistics-service/neft_logistics_service/main.py:341-351 | under a finalized record every newcomer, whatever its body, is answered from it without a call |
| IdempotencyGuarantees.OtherBodyReplayed | platform/logistics-service/neft_logistics_service/main.py:340-351 | for any two different bodies under one key a run in which the second request is given the first one's response and its own body never reaches the provider |
| IdempotencyGuarantees.ScopesApart | platform/logistics-service/neft_logistics_service/main.py:339-361 | for the requests of one scope and key a run is indistinguishable from the run in which nobody else takes a step |
| IdempotencyGuarantees.HandlerIsRun | platform/logistics-service/neft_logistics_service/main.py:331-364 | the handler is the run of one request nobody interferes with |
| EventOutbox.DeliveredRow | platform/processing-core/app/event_worker.py:63-66 | a delivered event is published at the time of the attempt without an error and is otherwise unchanged |
| EventOutbox.FailedRow | platform/processing-core/app/event_worker.py:67-74 | a failed attempt counts one retry and leaves its error; past the budget the event is failed, before it is due again after 1, 5, 30, 120 or, from the fifth retry on, 300 seconds |
| EventOutbox.FetchesOldest | platform/processing-core/app/event_worker.py:49-58 | the query returns due, unlocked, pending rows, oldest first, and leaves one out only for a full batch of rows that are not newer |
| EventOutbox.GivingUpTakes | platform/processing-core/app/services/event_outbox.py:42-45 | an event that is never delivered fails exactly at attempt budget plus one, no earlier after its first attempt than the whole backoff schedule adds up to |
| EventOutbox.DefaultSpan | platform/processing-core/app/event_worker.py:22 | with the default of 5 retries an event is given up after 6 attempts and at least 456 seconds |
| EventOutbox.Worker.ProcessEvent | platform/processing-core/app/event_worker.py:61-74 | one attempt appends to the stream at once and changes only the session's row |
| EventOutbox.Worker.RunOnce | platform/processing-core/app/event_worker.py:49-92 | given the due, unlocked, oldest rows its query returns, every row of the batch has its own attempt and no other row changes if the commit succeeds, the table is unchanged if not, and the deliveries stay in the stream in any case |
| EventOutbox.RunOnceSavesWork | platform/processing-core/app/event_worker.py:68-74 | every nonempty committed batch strictly lowers the attempts the table may still cost |
| OutboxGuarantees.ExactDeliveries | platform/processing-core/app/event_worker.py:61-92 | in every run of any number of workers a row committed as published is in the stream, and a row in nobody's hands is there exactly as often as it lost deliveries, plus once if published |
| OutboxGuarantees.AtMostOnce | platform/processing-core/app/event_worker.py:49-66 | without rollbacks and without publishes that append and then raise, no event is in the stream twice |
| OutboxGuarantees.DeliveredTwice | platform/processing-core/app/event_worker.py:82-92 | a run in which an event is delivered again after its session was rolled back |
| OutboxDuplicates.SingleIff | platform/processing-core/app/event_worker.py:49-92 | in every reachable state an event is in the stream at most once in every clean continuation if and only if its deliveries so far, and one more if it is pending, are at most one |
| OutboxGuarantees.PublishedAndFailedAreFinal | platform/processing-core/app/event_worker.py:49-57 | a committed row that is published or failed never changes again |
| OutboxGuarantees.BoundedAttempts | platform/processing-core/app/event_worker.py:68-74 | failed holds if and only if retries is one over the budget, pending rows have retries left, and without rollbacks an event is attempted once per failure plus once for its delivery, at most budget plus one times |
| OutboxGuarantees.CommitSavesWork | platform/processing-core/app/event_worker.py:82-92 | in every run a commit of a session that holds a row strictly lowers the work left |
| OutboxGuarantees.RunOnceIsRun | platform/processing-core/app/event_worker.py:82-92 | a committed `run_once` is one session's fetch, attempts and commit on the concurrent machine |
| SignedKeys.KeysApart | platform/document-service/app/main.py:615-621 | two places share an object key if and only if they have the same bucket, trimmed prefix and base name, and no document key is a signature key |
| SignedKeys.BuiltKeys | platform/document-service/app/main.py:615-621 | the keys of an input, with or without folder and extension, are the prefix without its trailing slashes, a slash, the base name and ".signed.pdf" or ".sig.p7s" |
| SignedKeys.PlaceForgets | platform/document-service/app/main.py:615-618 | inputs that differ only in folder and extension share both keys |
| SignCache.Service.SignDocument | platform/document-service/app/main.py:441-486 | one request, cut off anywhere: a complete pair is reported unchanged, otherwise the provider's document goes under the document key and then its signature under the signature key, and both are reported |
| SignCache.PartsInPlace | platform/document-service/app/main.py:474-486 | in every run, overlaps and crashes included, what is stored under a document key is the document some provider call returned, under a signature key the signature, and so in every response |
| SignCache.PairsConsistent | platform/document-service/app/main.py:444-486 | in every run in which no two requests for one place overlap, with crashes anywhere, two stored objects of a place come from one provider call and every response ever given reports the pair stored now |
| SignCache.CompleteForever | platform/document-service/app/main.py:444-467 | once both objects of a place exist neither is ever overwritten |
| SignCache.HarmlessIff | platform/document-service/app/main.py:444-486 | in a state reached without overlaps and with the pair incomplete, one more request for the place keeps it consistent in every continuation if and only if no request is signing for it |
| SignCache.MixedPair | platform/document-service/app/main.py:471-486 | two requests signing for one place, however far the first has come, can store a document and a signature of different provider calls |
| SignCache.OwnAskIff | platform/document-service/app/main.py:444-467 | an answered request got the outcome of a provider call for its own input, provider and metadata if and only if the stored pair was made for them |
| SignCache.SignedForItself | platform/document-service/app/main.py:469-486 | a request that is signed rather than answered from the store gets document and signature of one provider call made for it |
| SignCache.StoredAnswersAll | platform/document-service/app/main.py:444-467 | with both objects stored every request for the place is answered with them, whatever it asks, without a provider call |
| SignCache.OtherAskAnswered | platform/document-service/app/main.py:444-467 | for any two different requests for one place a run in which the second is answered with the first one's pair |
| OtpReplay.OtpSender.Cleanup | platform/integration-hub/neft_integration_hub/main.py:634-638 | keeps exactly the entries whose age is at most the time to live, unchanged |
| OtpReplay.OtpSender.SendOtp | platform/integration-hub/neft_integration_hub/main.py:650-677 | cache and reply are those of the specification on every path |
| OtpReplay.ReplyDecided | platform/integration-hub/neft_integration_hub/main.py:650-708 | every reply in every run: unauthorized exactly for an invalid token, and then the cache is untouched; invalid destination; accepted exactly if the last send under the key is at most 1800 seconds old or the mode is mock or sandbox; degraded otherwise |
| OtpReplay.SendsIffExpired | platform/integration-hub/neft_integration_hub/main.py:653-666 | an accepted call sends anew if and only if the last send under its key is more than 1800 seconds old or there was none, and is otherwise given that send's message id |
| OtpReplay.SendsFarApart | platform/integration-hub/neft_integration_hub/main.py:634-666 | any two sends under one key are more than 1800 seconds apart |
| OtpReplay.ReplayedInBetween | platform/integration-hub/neft_integration_hub/main.py:658-666 | between two sends every accepted call under the key gets the first one's message id |
| OtpReplay.OwnDestinationIff | platform/integration-hub/neft_integration_hub/main.py:658-666 | the message an accepted call is told of went to its own destination if and only if the last send under its key did, or is more than 1800 seconds old, or there was none |
| OtpReplay.OtherDestinationReplayed | platform/integration-hub/neft_integration_hub/main.py:658-660 | for any two destinations a run in which the second call under a key is told its message was sent and nothing is sent to it |
| Percentile.OrderIrrelevant | platform/processing-core/app/main.py:855-866 | permuting the samples does not change the percentile |
| Percentile.Interpolates | platform/processing-core/app/main.py:858-866 | the percentile is the value `pct` percent of the way through the sorted samples, in proportion between two of them |
| Percentile.MidwayIsMean | platform/processing-core/app/main.py:864-866 | a rank midway between two sorted samples gives their mean |
| Percentile.NoSamples | platform/processing-core/app/main.py:856-857 | there is no percentile of no samples |
| Percentile.PercentileShape | platform/processing-core/app/main.py:858-866 | the percentile is the least sample at 0, the greatest at 100, and never falls as the percentage grows |
| Percentile.RaisingSamples | platform/processing-core/app/main.py:855-866 | raising samples never lowers a percentile |
| JoinUrl.JoinSegments | frontends/admin-ui/src/api/base.ts:74-87 | the loop returns the one shortest sequence of segments that starts with the base and ends with the path |
| JoinUrl.JoinTwice | frontends/admin-ui/src/api/base.ts:74-87 | joining the same path to the result again changes nothing |

## Left out

- SHA-256 and its WebCrypto binding: any function to 64 hexadecimal digits; the UTF-8 step is not modelled, only that it is applied to texts on which it is injective.
- Number formatting: numbers are their ECMAScript texts, so nothing is said about how such a text is found.
- Getters, proxies, symbol keys, sparse-array holes (read as undefined) and class instances with their own enumerable properties (read as plain objects).
- HashChain.ComputeChain: takes the serializer of an event as a parameter; `AuditChain.AuditSerializer` is the one of the source. Payloads are finite trees there, so cycles in redacted values are covered by the serializer's own theorems only.
- Redaction rules (`redaction/apply.ts`): any function of field and value.
- Caching of computed links in the browser's local storage.
- Which of several errors of a faulty value comes first, beyond following the traversal order of the source.
- CardLedger: hold expiry (stored, never read by these endpoints), external ids, product codes and the text of `meta`; row ids are insertion positions; a token found on several cards means the first.
- CardKeys: when a key is on several transactions, the look-up of a key finds the first one; the query has no order and may return any.
- CardSessions: deadlocks between waiting transactions, and any uniqueness constraint on the key column, which the schema files do not show. A reversal's two updates and its commit are one step, since the rows it writes stay locked until then.
- IdempotencyStore: JSON encoding of stored bodies; property values are texts. The three endpoints differ in scope, provider operation and response class only, and are one handler here.
- IdempotentWrites: a response lost on the way after finalizing counts as answered.
- EventOutbox: the query is its result, any batch it may return; the serialization of an event's payload, and the polling loop with its sleeps.
- SignCache: the checks of the input document before the keys are built, checksums and sizes in responses, and metrics.
- OtpReplay: the rules for destinations (an input of the call; its channel is in lower case) and the differences between the 503 answers of unconfigured transports. Calls are served one at a time.
- Percentile: percentages outside 0 to 100, for which the source may read past the samples; floating-point rounding.
- JoinUrl: normalization of URLs by regular expressions and the origin of an absolute base; segments are given.
- User interface, settings, roles, health reports, seeds, migrations, routing and the other services: no protocol in them that is not already in one of these.
