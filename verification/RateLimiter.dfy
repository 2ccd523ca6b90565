/** The fixed-window limiter: one counter per key, reset by the first request after the window. */
module RateLimiter {
  import opened Wrappers

  datatype Record = Record(count: int, windowStart: int)

  datatype Decision =
    | Skipped
    | Accepted(remaining: int)
    | Rejected(retryAfterSeconds: int)

  datatype Bucket = Bucket(windowMs: int, max: int)

  /** Math.ceil of a quotient by 1000. */
  function CeilSeconds(ms: int): int { -((-ms) / 1000) }

  /** One key's counter, by itself: the decision, */
  function Decide(bucket: Bucket, record: Option<Record>, now: int): Decision {
    if record.None? || now - record.value.windowStart > bucket.windowMs then Accepted(bucket.max - 1)
    else if record.value.count >= bucket.max then
      Rejected(CeilSeconds(bucket.windowMs - (now - record.value.windowStart)))
    else Accepted(bucket.max - (record.value.count + 1))
  }

  /** and the counter afterwards. */
  function Advance(bucket: Bucket, record: Option<Record>, now: int): Record {
    if record.None? || now - record.value.windowStart > bucket.windowMs then Record(1, now)
    else if record.value.count >= bucket.max then record.value
    else record.value.(count := record.value.count + 1)
  }

  function Lookup(store: map<string, Record>, key: string): Option<Record> {
    if key in store then Some(store[key]) else None
  }

  /** No key, or an empty one: there is nothing to limit against. */
  predicate Keyless(key: Option<string>) { key == None || key == Some("") }

  class Limiter {
    const bucket: Bucket
    var store: map<string, Record>

    constructor (bucket: Bucket)
      ensures this.bucket == bucket && store == map[]
    {
      this.bucket := bucket;
      store := map[];
    }

    /** A request with key `key` at `now`; no key, or an empty one, is let through uncounted. */
    method Handle(key: Option<string>, now: int) returns (decision: Decision)
      modifies this
      ensures key == None || key == Some("") ==> decision == Skipped && store == old(store)
      ensures key.Some? && key.value != "" ==>
                if key.value !in old(store) || now - old(store)[key.value].windowStart > bucket.windowMs
                then decision == Accepted(bucket.max - 1) && store == old(store)[key.value := Record(1, now)]
                else
                  var Record(count, start) := old(store)[key.value];
                  if count >= bucket.max
                  then && store == old(store) && decision.Rejected?
                       && 1000 * (decision.retryAfterSeconds - 1) < start + bucket.windowMs - now
                       && start + bucket.windowMs - now <= 1000 * decision.retryAfterSeconds
                  else && decision == Accepted(bucket.max - count - 1)
                       && store == old(store)[key.value := Record(count + 1, start)]
      ensures !Keyless(key) ==>
                && decision == Decide(bucket, Lookup(old(store), key.value), now)
                && store == old(store)[key.value := Advance(bucket, Lookup(old(store), key.value), now)]
    {
      if key == None || key.value == "" {
        return Skipped;
      }
      if key.value !in store || now - store[key.value].windowStart > bucket.windowMs {
        store := store[key.value := Record(1, now)];
        return Accepted(bucket.max - 1);
      }
      var existing := store[key.value];
      if existing.count >= bucket.max {
        var retryAfterSeconds := CeilSeconds(bucket.windowMs - (now - existing.windowStart));
        return Rejected(retryAfterSeconds);
      }
      existing := existing.(count := existing.count + 1);
      store := store[key.value := existing];
      decision := Accepted(bucket.max - existing.count);
    }
  }

  // ---- traces ---------------------------------------------------------------

  datatype Request = Request(key: Option<string>, time: int)

  /** The shared store after a trace. */
  function StoreAfter(bucket: Bucket, trace: seq<Request>): map<string, Record> {
    if trace == [] then map[]
    else
      var store, last := StoreAfter(bucket, trace[..|trace| - 1]), trace[|trace| - 1];
      if Keyless(last.key) then store
      else store[last.key.value := Advance(bucket, Lookup(store, last.key.value), last.time)]
  }

  /** The times of one key's requests. */
  function TimesOf(trace: seq<Request>, key: string): seq<int> {
    if trace == [] then []
    else
      var last := trace[|trace| - 1];
      TimesOf(trace[..|trace| - 1], key) + if last.key == Some(key) then [last.time] else []
  }

  /** A limiter with a single counter. */
  function RecordAfter(bucket: Bucket, times: seq<int>): Option<Record> {
    if times == [] then None
    else Some(Advance(bucket, RecordAfter(bucket, times[..|times| - 1]), times[|times| - 1]))
  }

  function SingleDecisions(bucket: Bucket, times: seq<int>): seq<Decision> {
    if times == [] then []
    else SingleDecisions(bucket, times[..|times| - 1])
         + [Decide(bucket, RecordAfter(bucket, times[..|times| - 1]), times[|times| - 1])]
  }

  /** The decisions of a trace that concern one key. */
  function DecisionsOf(bucket: Bucket, trace: seq<Request>, key: string): seq<Decision> {
    if trace == [] then []
    else
      var store, last := StoreAfter(bucket, trace[..|trace| - 1]), trace[|trace| - 1];
      DecisionsOf(bucket, trace[..|trace| - 1], key)
      + if last.key == Some(key) then [Decide(bucket, Lookup(store, key), last.time)] else []
  }

  /** Keys do not affect each other: a key sees a limiter of its own, on its own requests. */
  lemma {:induction false} KeysAreIndependent(bucket: Bucket, trace: seq<Request>, key: string)
    requires key != ""
    ensures DecisionsOf(bucket, trace, key) == SingleDecisions(bucket, TimesOf(trace, key))
    ensures Lookup(StoreAfter(bucket, trace), key) == RecordAfter(bucket, TimesOf(trace, key))
  {
    if trace != [] {
      var before, last := trace[..|trace| - 1], trace[|trace| - 1];
      KeysAreIndependent(bucket, before, key);
      if last.key == Some(key) {
        var times := TimesOf(trace, key);
        assert times[..|times| - 1] == TimesOf(before, key);
      } else {
        assert TimesOf(trace, key) == TimesOf(before, key);
        assert DecisionsOf(bucket, trace, key) == DecisionsOf(bucket, before, key);
      }
    }
  }
}
