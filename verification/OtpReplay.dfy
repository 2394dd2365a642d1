/** The one-time-password sender's replay cache: a repeated idempotency key is
    answered from the cache until the entry is older than its time to live. */
module OtpReplay {
  import opened Wrappers

  const TTL: real := 1800.0

  datatype Entry = Entry(stored: real, messageId: string)

  type Entries = map<string, Entry>

  datatype Destination = Destination(channel: string, address: string)

  /** `now` is the clock when the call cleans up, `later` when it stores a result. */
  datatype Call = Call(
    key: string, to: Destination,
    tokenValid: bool, destinationValid: bool,
    now: real, later: real, messageId: string)

  datatype Reply =
    | Unauthorized                               // 401, before anything else
    | InvalidDestination                         // 422
    | Degraded                                   // 503
    | Accepted(messageId: string, sent: bool)    // sent anew, or replayed; both answer "sent"

  predicate Sends(mode: string) {
    mode == "mock" || mode == "sandbox"
  }

  predicate Expired(e: Entry, now: real) {
    now - e.stored > TTL
  }

  /** The entries a cleanup at `now` keeps: exactly those not older than the time to live. */
  function Kept(entries: Entries, now: real): (r: Entries)
    ensures forall k :: k in r <==> k in entries && now - entries[k].stored <= TTL
    ensures forall k :: k in r ==> r[k] == entries[k]
  {
    map k | k in entries && !Expired(entries[k], now) :: entries[k]
  }

  /** `send_otp`: the new cache and the reply. */
  function Serve(mode: string, entries: Entries, c: Call): (Entries, Reply) {
    if !c.tokenValid then (entries, Unauthorized)
    else
      var kept := Kept(entries, c.now);
      if !c.destinationValid then (kept, InvalidDestination)
      else if c.key in kept then (kept, Accepted(kept[c.key].messageId, false))
      else if Sends(mode) then (kept[c.key := Entry(c.later, c.messageId)], Accepted(c.messageId, true))
      else (kept, Degraded)
  }

  class OtpSender {
    const mode: string
    var entries: Entries

    constructor (mode: string)
      ensures this.mode == mode && entries == map[]
    {
      this.mode := mode;
      entries := map[];
    }

    method Cleanup(now: real)
      modifies this
      ensures entries == Kept(old(entries), now)
    {
      var todo := entries.Keys;
      while todo != {}
        invariant todo <= old(entries).Keys
        invariant forall k :: k in entries <==> k in old(entries) && (k in todo || !Expired(old(entries)[k], now))
        invariant forall k :: k in entries ==> entries[k] == old(entries)[k]
        decreases todo
      {
        var k :| k in todo;
        if Expired(entries[k], now) {
          entries := entries - {k};
        }
        todo := todo - {k};
      }
    }

    method SendOtp(c: Call) returns (r: Reply)
      modifies this
      ensures (entries, r) == Serve(mode, old(entries), c)
    {
      if !c.tokenValid {
        return Unauthorized;
      }
      Cleanup(c.now);
      if !c.destinationValid {
        return InvalidDestination;
      }
      if c.key in entries {
        return Accepted(entries[c.key].messageId, false);
      }
      if Sends(mode) {
        entries := entries[c.key := Entry(c.later, c.messageId)];
        return Accepted(c.messageId, true);
      }
      return Degraded;
    }
  }

  // ----- runs -----

  function CacheAfter(mode: string, calls: seq<Call>): Entries
    decreases |calls|
  {
    if calls == [] then map[]
    else Serve(mode, CacheAfter(mode, calls[..|calls| - 1]), calls[|calls| - 1]).0
  }

  /** The reply to call `i`. */
  function ReplyTo(mode: string, calls: seq<Call>, i: nat): Reply
    requires i < |calls|
  {
    Serve(mode, CacheAfter(mode, calls[..i]), calls[i]).1
  }

  /** The clock never goes back, between calls or within one. */
  predicate ClockForward(calls: seq<Call>) {
    (forall i :: 0 <= i < |calls| ==> calls[i].now <= calls[i].later) &&
    (forall i, j :: 0 <= i < j < |calls| ==> calls[i].later <= calls[j].now)
  }

  /** Call `i` sent a new password under `key`. */
  predicate SentAt(mode: string, calls: seq<Call>, key: string, i: nat)
    requires i < |calls|
  {
    calls[i].key == key && ReplyTo(mode, calls, i).Accepted? && ReplyTo(mode, calls, i).sent
  }

  /** The last call below `n` that sent a new password under `key`. */
  function LastSent(mode: string, calls: seq<Call>, key: string, n: nat): (r: Option<nat>)
    requires n <= |calls|
    ensures r.Some? ==> r.value < n && SentAt(mode, calls, key, r.value)
    ensures forall i :: (if r.Some? then r.value + 1 else 0) <= i < n ==> !SentAt(mode, calls, key, i)
  {
    if n == 0 then None
    else if SentAt(mode, calls, key, n - 1) then Some(n - 1)
    else LastSent(mode, calls, key, n - 1)
  }

  /** The cache holds the last send of every key until it expires, and then nothing. */
  predicate CacheTells(mode: string, calls: seq<Call>, key: string, n: nat)
    requires n <= |calls|
  {
    var cache, last := CacheAfter(mode, calls[..n]), LastSent(mode, calls, key, n);
    if key in cache then last.Some? && cache[key] == Entry(calls[last.value].later, calls[last.value].messageId)
    else last.Some? ==> n > 0 && calls[n - 1].later - calls[last.value].later > TTL
  }

  lemma CacheGrows(mode: string, calls: seq<Call>, n: nat)
    requires n < |calls|
    ensures CacheAfter(mode, calls[..n + 1]) == Serve(mode, CacheAfter(mode, calls[..n]), calls[n]).0
  {
    assert calls[..n + 1][..n] == calls[..n];
  }

  lemma CacheTellsNext(mode: string, calls: seq<Call>, key: string, n: nat)
    requires ClockForward(calls) && n < |calls| && CacheTells(mode, calls, key, n)
    ensures CacheTells(mode, calls, key, n + 1)
  {
    CacheGrows(mode, calls, n);
    var cache := CacheAfter(mode, calls[..n]);
    assert ReplyTo(mode, calls, n) == Serve(mode, cache, calls[n]).1;
    if n > 0 { assert calls[n - 1].later <= calls[n].now; }
    if !SentAt(mode, calls, key, n) {
      assert LastSent(mode, calls, key, n + 1) == LastSent(mode, calls, key, n);
    }
  }

  lemma {:induction false} CacheAlwaysTells(mode: string, calls: seq<Call>, key: string, n: nat)
    requires ClockForward(calls) && n <= |calls|
    ensures CacheTells(mode, calls, key, n)
    decreases n
  {
    if n > 0 {
      CacheAlwaysTells(mode, calls, key, n - 1);
      CacheTellsNext(mode, calls, key, n - 1);
    }
  }

  /** An accepted call sends anew exactly when the last send under its key is more
      than the time to live ago, or there was none; otherwise it is given that
      send's message id. */
  lemma SendsIffExpired(mode: string, calls: seq<Call>, j: nat)
    requires ClockForward(calls) && j < |calls| && ReplyTo(mode, calls, j).Accepted?
    ensures var last := LastSent(mode, calls, calls[j].key, j);
      var reply := ReplyTo(mode, calls, j);
      (reply.sent <==> last.None? || calls[j].now - calls[last.value].later > TTL) &&
      (!reply.sent ==> reply.messageId == calls[last.value].messageId) &&
      (reply.sent ==> reply.messageId == calls[j].messageId)
  {
    CacheAlwaysTells(mode, calls, calls[j].key, j);
    if j > 0 { assert calls[j - 1].later <= calls[j].now; }
  }

  /** The last send under the key is at most 1800 seconds old. */
  predicate LastSendLive(mode: string, calls: seq<Call>, j: nat)
    requires j < |calls|
  {
    var last := LastSent(mode, calls, calls[j].key, j);
    last.Some? && calls[j].now - calls[last.value].later <= 1800.0
  }

  /** The reply to every call, by its token, its destination, the last send under its key and
      the mode. A call without a valid token does not touch the cache. */
  lemma ReplyDecided(mode: string, calls: seq<Call>, j: nat)
    requires ClockForward(calls) && j < |calls|
    ensures var c, reply, live := calls[j], ReplyTo(mode, calls, j), LastSendLive(mode, calls, j);
      (reply == Unauthorized <==> !c.tokenValid) &&
      (!c.tokenValid ==> CacheAfter(mode, calls[..j + 1]) == CacheAfter(mode, calls[..j])) &&
      (reply == InvalidDestination <==> c.tokenValid && !c.destinationValid) &&
      (reply.Accepted? <==> c.tokenValid && c.destinationValid && (live || mode == "mock" || mode == "sandbox")) &&
      (reply == Degraded <==> c.tokenValid && c.destinationValid && !live && mode != "mock" && mode != "sandbox") &&
      (reply.Accepted? ==>
        reply == if live
          then Accepted(calls[LastSent(mode, calls, c.key, j).value].messageId, false)
          else Accepted(c.messageId, true))
  {
    CacheAlwaysTells(mode, calls, calls[j].key, j);
    CacheGrows(mode, calls, j);
    if j > 0 { assert calls[j - 1].later <= calls[j].now; }
  }

  /** Two sends under one key are more than 1800 seconds apart. */
  lemma {:induction false} SendsFarApart(mode: string, calls: seq<Call>, key: string, i: nat, j: nat)
    requires ClockForward(calls) && i < j < |calls| && SentAt(mode, calls, key, i) && SentAt(mode, calls, key, j)
    ensures calls[j].now - calls[i].later > 1800.0
    decreases j
  {
    SendsIffExpired(mode, calls, j);
    var last := LastSent(mode, calls, key, j);
    if i < last.value {
      SendsFarApart(mode, calls, key, i, last.value);
      assert calls[last.value].now <= calls[last.value].later <= calls[j].now;
    }
  }

  /** Between a send and the next, every accepted call under the key gets the send's message id. */
  lemma ReplayedInBetween(mode: string, calls: seq<Call>, i: nat, j: nat)
    requires ClockForward(calls) && i < j < |calls| && calls[i].key == calls[j].key
    requires SentAt(mode, calls, calls[i].key, i) && ReplyTo(mode, calls, j).Accepted?
    requires forall m :: i < m <= j ==> !SentAt(mode, calls, calls[i].key, m)
    ensures ReplyTo(mode, calls, j) == Accepted(calls[i].messageId, false)
  {
    SendsIffExpired(mode, calls, j);
    var last := LastSent(mode, calls, calls[i].key, j);
    assert last == Some(i);
    assert !SentAt(mode, calls, calls[i].key, j);
  }

  // ----- where the message went -----

  /** Every send has its own message id. */
  predicate DistinctIds(calls: seq<Call>) {
    forall i, j :: 0 <= i < j < |calls| ==> calls[i].messageId != calls[j].messageId
  }

  /** The message named in the reply to call `j` was sent, by call `i`, to the destination of call `j`. */
  predicate ReachedOwn(mode: string, calls: seq<Call>, j: nat, i: nat)
    requires j < |calls|
  {
    i < |calls| && SentAt(mode, calls, calls[i].key, i) && calls[i].to == calls[j].to &&
    ReplyTo(mode, calls, j).Accepted? && ReplyTo(mode, calls, j).messageId == calls[i].messageId
  }

  /** The message an accepted call is told of went to its own destination if and only if
      the last send under its key was to that destination, or is older than the time to
      live, or there was none. The cache is asked for the key alone. */
  lemma OwnDestinationIff(mode: string, calls: seq<Call>, j: nat)
    requires ClockForward(calls) && DistinctIds(calls) && j < |calls| && ReplyTo(mode, calls, j).Accepted?
    ensures var last := LastSent(mode, calls, calls[j].key, j);
      (exists i :: ReachedOwn(mode, calls, j, i)) <==>
      last.None? || calls[j].now - calls[last.value].later > TTL || calls[last.value].to == calls[j].to
  {
    SendsIffExpired(mode, calls, j);
    var last := LastSent(mode, calls, calls[j].key, j);
    if ReplyTo(mode, calls, j).sent {
      assert ReachedOwn(mode, calls, j, j);
    } else {
      assert calls[last.value].to == calls[j].to ==> ReachedOwn(mode, calls, j, last.value);
      forall i | ReachedOwn(mode, calls, j, i) ensures i == last.value {
      }
    }
  }

  /** A second request under one key for another destination is told its password was sent;
      nothing is sent there. */
  lemma OtherDestinationReplayed(mode: string, key: string, to: Destination, other: Destination, id: string,
      id': string)
      returns (calls: seq<Call>)
    requires Sends(mode) && to != other && id != id'
    ensures |calls| == 2 && calls[0].to == to && calls[1].to == other && ClockForward(calls) && DistinctIds(calls)
    ensures ReplyTo(mode, calls, 1) == Accepted(id, false)
    ensures forall i :: !ReachedOwn(mode, calls, 1, i)
  {
    calls := [Call(key, to, true, true, 0.0, 0.0, id), Call(key, other, true, true, 1.0, 1.0, id')];
    assert calls[..0] == [] && calls[..1] == [calls[0]] && calls[..1][..0] == [];
    assert CacheAfter(mode, calls[..1]) == map[key := Entry(0.0, id)];
    assert SentAt(mode, calls, key, 0);
    assert LastSent(mode, calls, key, 1) == Some(0);
    OwnDestinationIff(mode, calls, 1);
  }
}
