/** What the limiter guarantees over whole traces of one key, and how tight that is. */
module LimiterBounds {
  import opened Wrappers
  import opened RateLimiter

  /** The clock does not run backwards. */
  predicate Ordered(times: seq<int>) {
    forall i, j :: 0 <= i < j < |times| ==> times[i] <= times[j]
  }

  predicate Sane(bucket: Bucket) { bucket.max >= 1 && bucket.windowMs >= 0 }

  /** How many requests with times in [lo, hi] are accepted. */
  function AcceptedWithin(bucket: Bucket, times: seq<int>, lo: int, hi: int): nat {
    if times == [] then 0
    else
      var before, t := times[..|times| - 1], times[|times| - 1];
      AcceptedWithin(bucket, before, lo, hi)
      + if lo <= t <= hi && Decide(bucket, RecordAfter(bucket, before), t).Accepted? then 1 else 0
  }

  /** The most that complete windows can have let through by `d` ms into an interval. */
  function EarlierWindows(bucket: Bucket, d: int): int
    requires Sane(bucket)
  {
    var period := bucket.windowMs + 1;
    bucket.max * (d / period) + if d % period == 0 then 0 else bucket.max - 1
  }

  /** The most requests of one key accepted in any interval of `length` ms. */
  function MaxAccepted(bucket: Bucket, length: int): int
    requires Sane(bucket)
  {
    EarlierWindows(bucket, length) + bucket.max
  }

  lemma MulOrder(p: nat, a: int, b: int)
    requires a <= b
    ensures p * a <= p * b
  {
  }

  lemma DivisionFacts(d: int, period: int)
    requires period >= 1
    ensures d == period * (d / period) + d % period && 0 <= d % period < period
  {
  }

  /** Quotients keep the order, and a whole period adds at least one. */
  lemma QuotientOrder(d: int, e: int, period: int)
    requires period >= 1 && d <= e
    ensures d / period <= e / period
    ensures d / period == e / period ==> d % period <= e % period
    ensures d + period <= e ==> d / period + 1 <= e / period
    ensures d + period <= e && d / period + 1 == e / period ==> d % period <= e % period
  {
    DivisionFacts(d, period);
    DivisionFacts(e, period);
    var q, r, q', r' := d / period, d % period, e / period, e % period;
    QuotientCompare(q, r, q', r', period);
    QuotientCompare(q + 1, r, q', r', period);
    assert period * (q + 1) == period * q + period;
  }

  lemma QuotientCompare(q: int, r: int, q': int, r': int, period: int)
    requires period >= 1 && 0 <= r < period && 0 <= r' < period
    ensures period * q + r <= period * q' + r' <==> q < q' || (q == q' && r <= r')
  {
    if q < q' {
      MulOrder(period, q + 1, q');
    } else if q' < q {
      MulOrder(period, q' + 1, q);
    }
  }

  /** Comparing `m * q`, plus `m - 1` when there is a remainder. */
  lemma WindowsCompare(m: int, q: int, r: int, q': int, r': int)
    requires m >= 1 && 0 <= r && 0 <= r'
    ensures var lower, upper := m * q + (if r == 0 then 0 else m - 1), m * q' + (if r' == 0 then 0 else m - 1);
            && (q < q' || (q == q' && r <= r') ==> lower <= upper)
            && (q + 1 < q' || (q + 1 == q' && r <= r') ==> lower + m <= upper)
  {
    if q + 1 < q' {
      MulOrder(m, q + 2, q');
      assert m * (q + 2) == m * q + 2 * m;
    } else if q < q' {
      assert m * (q + 1) == m * q + m;
    }
  }

  lemma WindowsAddUp(bucket: Bucket, d: int, e: int)
    requires Sane(bucket) && 0 <= d <= e
    ensures 0 <= EarlierWindows(bucket, d) <= EarlierWindows(bucket, e)
    ensures d + bucket.windowMs + 1 <= e ==> EarlierWindows(bucket, d) + bucket.max <= EarlierWindows(bucket, e)
    ensures d >= 1 ==> bucket.max - 1 <= EarlierWindows(bucket, d)
  {
    var period := bucket.windowMs + 1;
    var q, r, q', r' := d / period, d % period, e / period, e % period;
    QuotientOrder(d, e, period);
    QuotientOrder(0, d, period);
    DivisionFacts(d, period);
    MulOrder(bucket.max, 0, q);
    WindowsCompare(bucket.max, q, r, q', r');
    if d >= 1 && r == 0 {
      MulOrder(bucket.max, 1, q);
    }
  }

  /** The count never exceeds the budget, and a window starts at one of the requests. */
  lemma {:induction false} RecordIsSane(bucket: Bucket, times: seq<int>)
    requires Sane(bucket) && Ordered(times) && times != []
    ensures var r := RecordAfter(bucket, times).value;
            1 <= r.count <= bucket.max && r.windowStart <= times[|times| - 1]
  {
    var before := times[..|times| - 1];
    if before != [] {
      RecordIsSane(bucket, before);
    }
  }

  /** What has been accepted in [lo, hi] by the time of the last request, in terms of the counter. */
  predicate Accounted(bucket: Bucket, record: Record, accepted: nat, lo: int)
    requires Sane(bucket)
  {
    if record.windowStart >= lo then accepted <= record.count + EarlierWindows(bucket, record.windowStart - lo)
    else accepted <= record.count - 1 && (accepted > 0 ==> record.windowStart + bucket.windowMs >= lo)
  }

  lemma OpeningAWindow(bucket: Bucket, record: Record, accepted: nat, lo: int, t: int)
    requires Sane(bucket) && 1 <= record.count <= bucket.max
    requires Accounted(bucket, record, accepted, lo)
    requires t - record.windowStart > bucket.windowMs && t >= lo
    ensures accepted <= EarlierWindows(bucket, t - lo)
  {
    hide EarlierWindows;
    if record.windowStart >= lo {
      WindowsAddUp(bucket, record.windowStart - lo, t - lo);
    } else {
      WindowsAddUp(bucket, 0, t - lo);
      WindowsAddUp(bucket, t - lo, t - lo);
    }
  }

  lemma {:induction false} AcceptedIsAccounted(bucket: Bucket, times: seq<int>, lo: int, hi: int)
    requires Sane(bucket) && Ordered(times) && times != [] && times[|times| - 1] <= hi
    ensures Accounted(bucket, RecordAfter(bucket, times).value, AcceptedWithin(bucket, times, lo, hi), lo)
  {
    hide EarlierWindows;
    var before, t := times[..|times| - 1], times[|times| - 1];
    if before == [] {
      assert AcceptedWithin(bucket, before, lo, hi) == 0;
      if t >= lo {
        WindowsAddUp(bucket, 0, t - lo);
      }
    } else {
      AcceptedIsAccounted(bucket, before, lo, hi);
      RecordIsSane(bucket, before);
      var record := RecordAfter(bucket, before).value;
      if t - record.windowStart > bucket.windowMs {
        if t >= lo {
          OpeningAWindow(bucket, record, AcceptedWithin(bucket, before, lo, hi), lo, t);
        } else {
          NothingAcceptedBefore(bucket, before, lo, hi);
        }
      } else if t < lo {
        NothingAcceptedBefore(bucket, before, lo, hi);
      }
    }
  }

  lemma {:induction false} NothingAcceptedBefore(bucket: Bucket, times: seq<int>, lo: int, hi: int)
    requires Ordered(times) && (times != [] ==> times[|times| - 1] < lo)
    ensures AcceptedWithin(bucket, times, lo, hi) == 0
  {
    if times != [] {
      NothingAcceptedBefore(bucket, times[..|times| - 1], lo, hi);
    }
  }

  /** However requests are timed, an interval of `length` ms never sees more than MaxAccepted get through, */
  lemma {:induction false} BurstIsBounded(bucket: Bucket, times: seq<int>, lo: int, length: nat)
    requires Sane(bucket) && Ordered(times)
    ensures AcceptedWithin(bucket, times, lo, lo + length) <= MaxAccepted(bucket, length)
  {
    hide EarlierWindows;
    WindowsAddUp(bucket, 0, length);
    if times != [] {
      var last := times[|times| - 1];
      if last <= lo + length {
        AcceptedIsAccounted(bucket, times, lo, lo + length);
        RecordIsSane(bucket, times);
        var record := RecordAfter(bucket, times).value;
        if record.windowStart >= lo {
          WindowsAddUp(bucket, record.windowStart - lo, length);
        }
      } else {
        BurstIsBounded(bucket, times[..|times| - 1], lo, length);
      }
    }
  }

  /** How many requests of `key` in an interleaved trace, with times in [lo, hi], the shared store accepts. */
  function AcceptedOf(bucket: Bucket, trace: seq<Request>, key: string, lo: int, hi: int): nat {
    if trace == [] then 0
    else
      var before, last := trace[..|trace| - 1], trace[|trace| - 1];
      AcceptedOf(bucket, before, key, lo, hi)
      + if last.key == Some(key) && lo <= last.time <= hi
           && Decide(bucket, Lookup(StoreAfter(bucket, before), key), last.time).Accepted? then 1 else 0
  }

  predicate OrderedTrace(trace: seq<Request>) {
    forall i, j :: 0 <= i < j < |trace| ==> trace[i].time <= trace[j].time
  }

  lemma {:induction false} TimesOfOrdered(trace: seq<Request>, key: string)
    requires OrderedTrace(trace)
    ensures Ordered(TimesOf(trace, key))
    ensures trace != [] ==>
              forall i :: 0 <= i < |TimesOf(trace, key)| ==> TimesOf(trace, key)[i] <= trace[|trace| - 1].time
  {
    if trace != [] {
      TimesOfOrdered(trace[..|trace| - 1], key);
    }
  }

  lemma {:induction false} AcceptedOfOneKey(bucket: Bucket, trace: seq<Request>, key: string, lo: int, hi: int)
    requires key != ""
    ensures AcceptedOf(bucket, trace, key, lo, hi) == AcceptedWithin(bucket, TimesOf(trace, key), lo, hi)
  {
    hide Decide, RecordAfter, StoreAfter;
    if trace != [] {
      var before, last := trace[..|trace| - 1], trace[|trace| - 1];
      AcceptedOfOneKey(bucket, before, key, lo, hi);
      KeysAreIndependent(bucket, before, key);
      if last.key == Some(key) {
        OneMoreRequest(bucket, TimesOf(before, key), last.time, lo, hi);
      } else {
        assert TimesOf(trace, key) == TimesOf(before, key);
      }
    }
  }

  /** The bound holds for each key of an interleaved trace, whatever the other keys and the keyless requests do. */
  lemma EveryKeyIsBounded(bucket: Bucket, trace: seq<Request>, key: string, lo: int, length: nat)
    requires Sane(bucket) && OrderedTrace(trace) && key != ""
    ensures AcceptedOf(bucket, trace, key, lo, lo + length) <= MaxAccepted(bucket, length)
  {
    AcceptedOfOneKey(bucket, trace, key, lo, lo + length);
    TimesOfOrdered(trace, key);
    BurstIsBounded(bucket, TimesOf(trace, key), lo, length);
  }

  /** Within one window's length that is twice the budget less one. */
  lemma OneWindowLength(bucket: Bucket)
    requires Sane(bucket) && bucket.windowMs >= 1
    ensures MaxAccepted(bucket, bucket.windowMs) == 2 * bucket.max - 1
  {
  }

  // ---- and the bound is attained --------------------------------------------

  function Burst(t: int, n: nat): seq<int> { seq(n, _ => t) }

  /** The counter has run out of its window, or never started. */
  predicate Fresh(bucket: Bucket, record: Option<Record>, t: int) {
    record.None? || t - record.value.windowStart > bucket.windowMs
  }

  lemma OneMoreRequest(bucket: Bucket, times: seq<int>, t: int, lo: int, hi: int)
    ensures RecordAfter(bucket, times + [t]) == Some(Advance(bucket, RecordAfter(bucket, times), t))
    ensures AcceptedWithin(bucket, times + [t], lo, hi)
            == AcceptedWithin(bucket, times, lo, hi)
               + if lo <= t <= hi && Decide(bucket, RecordAfter(bucket, times), t).Accepted? then 1 else 0
  {
  }

  lemma {:induction false} BurstIsAccepted(bucket: Bucket, times: seq<int>, t: int, n: nat, lo: int, hi: int)
    requires Sane(bucket) && lo <= t <= hi
    requires var record := RecordAfter(bucket, times);
             n <= if Fresh(bucket, record, t) then bucket.max else bucket.max - record.value.count
    ensures AcceptedWithin(bucket, times + Burst(t, n), lo, hi) == AcceptedWithin(bucket, times, lo, hi) + n
    ensures var record := RecordAfter(bucket, times);
            RecordAfter(bucket, times + Burst(t, n))
            == if n == 0 then record
               else if Fresh(bucket, record, t) then Some(Record(n, t))
               else Some(Record(record.value.count + n, record.value.windowStart))
    decreases n
  {
    hide AcceptedWithin, RecordAfter;
    if n == 0 {
      assert times + Burst(t, n) == times;
    } else {
      BurstIsAccepted(bucket, times, t, n - 1, lo, hi);
      OneMoreRequest(bucket, times + Burst(t, n - 1), t, lo, hi);
      assert times + Burst(t, n) == times + Burst(t, n - 1) + [t];
    }
  }

  /** Full bursts at the first instant of k + 1 windows in a row, the first at `t`. */
  function FullWindows(bucket: Bucket, t: int, k: nat): seq<int>
    requires Sane(bucket)
  {
    if k == 0 then Burst(t, bucket.max)
    else FullWindows(bucket, t, k - 1) + Burst(t + k * (bucket.windowMs + 1), bucket.max)
  }

  lemma {:induction false} FullWindowsAreAccepted(bucket: Bucket, times: seq<int>, t: int, k: nat, lo: int, hi: int)
    requires Sane(bucket) && Fresh(bucket, RecordAfter(bucket, times), t)
    requires lo <= t && t + k * (bucket.windowMs + 1) <= hi
    ensures AcceptedWithin(bucket, times + FullWindows(bucket, t, k), lo, hi)
            == AcceptedWithin(bucket, times, lo, hi) + bucket.max * (k + 1)
    ensures RecordAfter(bucket, times + FullWindows(bucket, t, k))
            == Some(Record(bucket.max, t + k * (bucket.windowMs + 1)))
    decreases k
  {
    hide AcceptedWithin, RecordAfter, Burst;
    var period := bucket.windowMs + 1;
    MulOrder(period, 0, k);
    if k == 0 {
      BurstIsAccepted(bucket, times, t, bucket.max, lo, hi);
    } else {
      assert k * period == (k - 1) * period + period;
      FullWindowsAreAccepted(bucket, times, t, k - 1, lo, hi);
      var before := times + FullWindows(bucket, t, k - 1);
      BurstIsAccepted(bucket, before, t + k * period, bucket.max, lo, hi);
      assert times + FullWindows(bucket, t, k) == before + Burst(t + k * period, bucket.max);
      assert bucket.max * (k + 1) == bucket.max * k + bucket.max;
    }
  }

  lemma {:induction false} FullWindowsInOrder(bucket: Bucket, t: int, k: nat)
    requires Sane(bucket)
    ensures Ordered(FullWindows(bucket, t, k))
    ensures forall i :: 0 <= i < |FullWindows(bucket, t, k)| ==>
              t <= FullWindows(bucket, t, k)[i] <= t + k * (bucket.windowMs + 1)
    decreases k
  {
    var last := t + k * (bucket.windowMs + 1);
    MulOrder(bucket.windowMs + 1, 0, k);
    if k > 0 {
      FullWindowsInOrder(bucket, t, k - 1);
      OneWindowLater(bucket.windowMs + 1, k);
      hide Sane;
      assert forall i :: 0 <= i < bucket.max ==> Burst(last, bucket.max)[i] == last;
    }
  }

  lemma OneWindowLater(period: int, k: int)
    ensures k * period == (k - 1) * period + period
  {
  }

  lemma NothingYet(bucket: Bucket, lo: int, hi: int)
    ensures RecordAfter(bucket, []) == None && AcceptedWithin(bucket, [], lo, hi) == 0
  {
  }

  /** A window opened just in time to spend all but one of its requests inside the interval. */
  lemma LateOpening(bucket: Bucket, length: nat, q: nat) returns (times: seq<int>)
    requires Sane(bucket) && bucket.windowMs + 1 + q * (bucket.windowMs + 1) <= bucket.windowMs + length
    requires bucket.windowMs >= 1
    ensures Ordered(times)
    ensures AcceptedWithin(bucket, times, bucket.windowMs, bucket.windowMs + length)
            == bucket.max - 1 + bucket.max * (q + 1)
  {
    hide AcceptedWithin, RecordAfter, FullWindows, Decide, Advance;
    var lo, hi := bucket.windowMs, bucket.windowMs + length;
    MulOrder(bucket.windowMs + 1, 0, q);
    var opening := [0];
    NothingYet(bucket, lo, hi);
    OneMoreRequest(bucket, [], 0, lo, hi);
    assert [] + opening == opening;
    FirstRequest(bucket, 0);
    BurstIsAccepted(bucket, opening, lo, bucket.max - 1, lo, hi);
    var early := opening + Burst(lo, bucket.max - 1);
    FullWindowsAreAccepted(bucket, early, lo + 1, q, lo, hi);
    FullWindowsInOrder(bucket, lo + 1, q);
    times := early + FullWindows(bucket, lo + 1, q);
  }

  lemma FirstRequest(bucket: Bucket, t: int)
    ensures Advance(bucket, None, t) == Record(1, t) && Decide(bucket, None, t).Accepted?
  {
  }

  /** and for every budget, window and interval length some trace reaches that number. */
  lemma BurstBoundIsAttained(bucket: Bucket, length: nat) returns (times: seq<int>, lo: int)
    requires Sane(bucket)
    ensures Ordered(times)
    ensures AcceptedWithin(bucket, times, lo, lo + length) == MaxAccepted(bucket, length)
  {
    hide AcceptedWithin, RecordAfter, FullWindows, Decide, Advance;
    var period := bucket.windowMs + 1;
    var q := length / period;
    DivisionFacts(length, period);
    MulOrder(period, 0, q + 1);
    assert q * period == period * q && bucket.max * (q + 1) == bucket.max * q + bucket.max;
    assert q >= 0 by { QuotientOrder(0, length, period); }
    if length % period == 0 {
      lo := 0;
      NothingYet(bucket, 0, length);
      FullWindowsAreAccepted(bucket, [], 0, q, 0, length);
      FullWindowsInOrder(bucket, 0, q);
      times := FullWindows(bucket, 0, q);
      assert [] + times == times;
    } else {
      // one request opens a window early; its last max - 1 come just before it ends
      lo := bucket.windowMs;
      times := LateOpening(bucket, length, q);
    }
  }

  /** Every budget of one or less works as a budget of one: each window still lets its first request through. */
  lemma {:induction false} LowBudgetsActAsOne(windowMs: int, max: int, times: seq<int>, now: int, lo: int, hi: int)
    requires max <= 1
    ensures RecordAfter(Bucket(windowMs, max), times) == RecordAfter(Bucket(windowMs, 1), times)
    ensures RecordAfter(Bucket(windowMs, 1), times).Some? ==> RecordAfter(Bucket(windowMs, 1), times).value.count == 1
    ensures Decide(Bucket(windowMs, max), RecordAfter(Bucket(windowMs, max), times), now).Accepted?
            <==> Decide(Bucket(windowMs, 1), RecordAfter(Bucket(windowMs, 1), times), now).Accepted?
    ensures AcceptedWithin(Bucket(windowMs, max), times, lo, hi) == AcceptedWithin(Bucket(windowMs, 1), times, lo, hi)
  {
    if times != [] {
      LowBudgetsActAsOne(windowMs, max, times[..|times| - 1], times[|times| - 1], lo, hi);
    }
  }

  /** What holds of a list in order holds of its start. */
  lemma OrderedStart(times: seq<int>, last: int)
    requires Ordered(times + [last])
    ensures Ordered(times)
    ensures forall i :: 0 <= i < |times| ==> times[i] <= last
  {
    assert forall i :: 0 <= i < |times| ==> (times + [last])[i] == times[i];
    assert (times + [last])[|times|] == last;
  }

  /** A negative window limits nothing. */
  lemma {:induction false} NegativeWindowAcceptsAll(bucket: Bucket, times: seq<int>, now: int)
    requires bucket.windowMs < 0 && Ordered(times + [now])
    ensures Decide(bucket, RecordAfter(bucket, times), now).Accepted?
    ensures RecordAfter(bucket, times).Some? ==> RecordAfter(bucket, times).value.windowStart <= now
  {
    hide Ordered;
    OrderedStart(times, now);
    if times != [] {
      var before, t := times[..|times| - 1], times[|times| - 1];
      assert before + [t] == times;
      NegativeWindowAcceptsAll(bucket, before, t);
    }
  }

  // ---- the counter ----------------------------------------------------------

  /** The counter is the number of requests accepted since its window opened. */
  lemma {:induction false} CounterIsExact(bucket: Bucket, times: seq<int>, hi: int)
    requires Sane(bucket) && Ordered(times) && times != [] && times[|times| - 1] <= hi
    ensures var record := RecordAfter(bucket, times).value;
            && record.windowStart <= times[|times| - 1] <= record.windowStart + bucket.windowMs
            && AcceptedWithin(bucket, times, record.windowStart, hi) == record.count
  {
    var before, t := times[..|times| - 1], times[|times| - 1];
    if before != [] {
      CounterIsExact(bucket, before, hi);
      if t - RecordAfter(bucket, before).value.windowStart > bucket.windowMs {
        NothingAcceptedBefore(bucket, before, t, hi);
      }
    }
  }

  /** The remaining budget reported with an accepted request is what the open window still allows. */
  lemma RemainingIsExact(bucket: Bucket, times: seq<int>, now: int)
    requires Sane(bucket) && Ordered(times + [now])
    requires Decide(bucket, RecordAfter(bucket, times), now).Accepted?
    ensures var since := RecordAfter(bucket, times + [now]).value.windowStart;
            Decide(bucket, RecordAfter(bucket, times), now).remaining
            == bucket.max - AcceptedWithin(bucket, times + [now], since, now) >= 0
  {
    hide AcceptedWithin;
    OneMoreRequest(bucket, times, now, 0, 0);
    CounterIsExact(bucket, times + [now], now);
    RecordIsSane(bucket, times + [now]);
  }

  // ---- rejections -----------------------------------------------------------

  /** The counter stands for that many accepted requests since the window opened. */
  lemma {:induction false} CounterCountsAccepted(bucket: Bucket, times: seq<int>, lo: int, hi: int)
    requires Ordered(times) && times != [] && times[|times| - 1] <= hi
    requires lo <= RecordAfter(bucket, times).value.windowStart
    ensures RecordAfter(bucket, times).value.windowStart <= times[|times| - 1]
    ensures RecordAfter(bucket, times).value.count <= AcceptedWithin(bucket, times, lo, hi)
  {
    var before, t := times[..|times| - 1], times[|times| - 1];
    if before != [] && t - RecordAfter(bucket, before).value.windowStart <= bucket.windowMs {
      CounterCountsAccepted(bucket, before, lo, hi);
    }
  }

  /** A rejection is justified: the whole budget was accepted within the last window's length. */
  lemma RejectionIsJustified(bucket: Bucket, times: seq<int>, now: int)
    requires Ordered(times + [now])
    requires Decide(bucket, RecordAfter(bucket, times), now).Rejected?
    ensures AcceptedWithin(bucket, times, now - bucket.windowMs, now) >= bucket.max
  {
    hide AcceptedWithin;
    assert times != [];
    OrderedStart(times, now);
    CounterCountsAccepted(bucket, times, now - bucket.windowMs, now);
  }

  /** Until the window ends, a full counter rejects everything and does not move. */
  lemma {:induction false} FullWindowRejects(bucket: Bucket, times: seq<int>, more: seq<int>)
    requires RecordAfter(bucket, times).Some? && RecordAfter(bucket, times).value.count >= bucket.max
    requires forall i :: 0 <= i < |more| ==> more[i] <= RecordAfter(bucket, times).value.windowStart + bucket.windowMs
    ensures RecordAfter(bucket, times + more) == RecordAfter(bucket, times)
    decreases |more|
  {
    hide RecordAfter;
    if more == [] {
      assert times + more == times;
    } else {
      var before := more[..|more| - 1];
      FullWindowRejects(bucket, times, before);
      OneMoreRequest(bucket, times + before, more[|more| - 1], 0, 0);
      assert times + more == times + before + [more[|more| - 1]];
    }
  }

  lemma RetryMoment(bucket: Bucket, record: Option<Record>, now: int, t: int)
    requires Decide(bucket, record, now).Rejected?
    ensures record.Some? && record.value.count >= bucket.max && Advance(bucket, record, now) == record.value
    ensures var retryAt := now + 1000 * Decide(bucket, record, now).retryAfterSeconds;
            var windowEnd := record.value.windowStart + bucket.windowMs;
            && retryAt - 1000 < windowEnd <= retryAt && now <= windowEnd
            && (retryAt == windowEnd <==> (windowEnd - now) % 1000 == 0)
            && (Decide(bucket, record, t).Accepted? <==> t > windowEnd)
            && (Decide(bucket, record, t).Rejected? <==> t <= windowEnd)
  {
  }

  /** The moment a rejection at `now` announces, */
  function RetryAt(bucket: Bucket, times: seq<int>, now: int): int
    requires Decide(bucket, RecordAfter(bucket, times), now).Rejected?
  {
    now + 1000 * Decide(bucket, RecordAfter(bucket, times), now).retryAfterSeconds
  }

  /** and the last one of the window it was rejected in. */
  function WindowEnd(bucket: Bucket, times: seq<int>): int
    requires RecordAfter(bucket, times).Some?
  {
    RecordAfter(bucket, times).value.windowStart + bucket.windowMs
  }

  /** Requests the key makes after the one at `now` and up to `until`. */
  predicate FollowUps(more: seq<int>, now: int, until: int) {
    Ordered(more) && forall i :: 0 <= i < |more| ==> now <= more[i] <= until
  }

  /** Those of them that come later than `t`. */
  function LaterThan(more: seq<int>, t: int): (late: seq<int>)
    ensures forall i :: 0 <= i < |late| ==> late[i] > t && late[i] in more
  {
    if more == [] then []
    else LaterThan(more[..|more| - 1], t) + if more[|more| - 1] > t then [more[|more| - 1]] else []
  }

  /** Once its window has ended, a counter is as good as new: what came before no longer counts. */
  lemma {:induction false} EndedWindowIsForgotten(bucket: Bucket, times: seq<int>, late: seq<int>)
    requires late != [] && Fresh(bucket, RecordAfter(bucket, times), late[0])
    ensures RecordAfter(bucket, times + late) == RecordAfter(bucket, late)
    decreases |late|
  {
    hide RecordAfter;
    var before, t := late[..|late| - 1], late[|late| - 1];
    assert times + late == times + before + [t] && late == before + [t];
    OneMoreRequest(bucket, times + before, t, 0, 0);
    OneMoreRequest(bucket, before, t, 0, 0);
    if before == [] {
      NothingYet(bucket, 0, 0);
      assert times + before == times;
    } else {
      EndedWindowIsForgotten(bucket, times, before);
    }
  }

  lemma {:induction false} NothingLater(more: seq<int>, t: int)
    requires forall i :: 0 <= i < |more| ==> more[i] <= t
    ensures LaterThan(more, t) == []
  {
    if more != [] {
      NothingLater(more[..|more| - 1], t);
    }
  }

  lemma {:induction false} OrderedFollowUpsSplit(more: seq<int>, t: int) returns (early: seq<int>)
    requires Ordered(more)
    ensures more == early + LaterThan(more, t)
    ensures forall i :: 0 <= i < |early| ==> early[i] <= t
  {
    hide Ordered;
    if more == [] {
      early := [];
    } else {
      var before, last := more[..|more| - 1], more[|more| - 1];
      assert more == before + [last];
      OrderedStart(before, last);
      if last <= t {
        early := more;
        NothingLater(more, t);
      } else {
        early := OrderedFollowUpsSplit(before, t);
      }
    }
  }

  /** After a rejection the counter is the old one until the window ends, then one that has only seen later requests. */
  lemma RecordAfterFollowUps(bucket: Bucket, times: seq<int>, now: int, more: seq<int>)
    requires Decide(bucket, RecordAfter(bucket, times), now).Rejected? && Ordered(more)
    ensures RecordAfter(bucket, times).Some?
    ensures var late := LaterThan(more, WindowEnd(bucket, times));
            RecordAfter(bucket, times + [now] + more)
            == if late == [] then RecordAfter(bucket, times) else RecordAfter(bucket, late)
  {
    hide RecordAfter, CeilSeconds, LaterThan;
    RetryMoment(bucket, RecordAfter(bucket, times), now, now);
    OneMoreRequest(bucket, times, now, 0, 0);
    var late := LaterThan(more, WindowEnd(bucket, times));
    var early := OrderedFollowUpsSplit(more, WindowEnd(bucket, times));
    FullWindowRejects(bucket, times + [now], early);
    if late == [] {
      assert more == early;
    } else {
      assert times + [now] + more == times + [now] + early + late;
      EndedWindowIsForgotten(bucket, times + [now] + early, late);
    }
  }

  /**
   * What a rejection at `now` means for the key's later requests, however many follow.  All
   * that come up to the end of the window are rejected as well.  A request after it is
   * decided as by a limiter that has only seen the ones after it.
   */
  lemma RejectedUntilTheWindowEnds(bucket: Bucket, times: seq<int>, now: int, more: seq<int>, t: int)
    requires Decide(bucket, RecordAfter(bucket, times), now).Rejected? && Ordered(more + [t])
    ensures RecordAfter(bucket, times).Some?
    ensures var decision := Decide(bucket, RecordAfter(bucket, times + [now] + more), t);
            if t <= WindowEnd(bucket, times) then decision.Rejected?
            else decision == Decide(bucket, RecordAfter(bucket, LaterThan(more, WindowEnd(bucket, times))), t)
  {
    hide RecordAfter, CeilSeconds, LaterThan;
    OrderedStart(more, t);
    RecordAfterFollowUps(bucket, times, now, more);
    RetryMoment(bucket, RecordAfter(bucket, times), now, t);
    NothingYet(bucket, 0, 0);
    var late := LaterThan(more, WindowEnd(bucket, times));
    if late != [] {
      assert late[0] in more;
    }
  }

  /** Requests closer together than a window's length share the window the first one opens. */
  lemma {:induction false} OneWindowCounts(bucket: Bucket, late: seq<int>)
    requires late != [] && bucket.windowMs >= 0
    requires forall i :: 0 <= i < |late| ==> late[i] - late[0] <= bucket.windowMs
    ensures RecordAfter(bucket, late)
            == Some(Record(if |late| <= bucket.max then |late| else if bucket.max >= 1 then bucket.max else 1, late[0]))
  {
    if |late| > 1 {
      OneWindowCounts(bucket, late[..|late| - 1]);
    }
  }

  /**
   * Retry-After, rounded up to seconds.  With a window of a second or more, a request later
   * than the announced moment is accepted exactly when fewer than a full budget of requests
   * came between the end of the window and that moment, or the window those opened is over too.
   */
  lemma RetryAfterIsRight(bucket: Bucket, times: seq<int>, now: int, more: seq<int>, t: int)
    requires Decide(bucket, RecordAfter(bucket, times), now).Rejected? && bucket.windowMs >= 999
    requires FollowUps(more, now, RetryAt(bucket, times, now)) && t > RetryAt(bucket, times, now)
    ensures RecordAfter(bucket, times).Some?
    ensures var late := LaterThan(more, WindowEnd(bucket, times));
            Decide(bucket, RecordAfter(bucket, times + [now] + more), t).Accepted?
            <==> late == [] || |late| < bucket.max || t > late[0] + bucket.windowMs
  {
    hide RecordAfter, CeilSeconds, LaterThan;
    RetryMoment(bucket, RecordAfter(bucket, times), now, t);
    RejectedUntilTheWindowEnds(bucket, times, now, more, t);
    NothingYet(bucket, 0, 0);
    var late := LaterThan(more, WindowEnd(bucket, times));
    if late != [] {
      forall i | 0 <= i < |late| ensures late[i] - late[0] <= bucket.windowMs {
        assert late[i] in more && late[0] > WindowEnd(bucket, times);
      }
      OneWindowCounts(bucket, late);
    }
  }

  lemma WindowOpenedEarlier(bucket: Bucket, times: seq<int>, now: int)
    requires Ordered(times + [now]) && RecordAfter(bucket, times).Some?
    ensures RecordAfter(bucket, times).value.windowStart <= now
  {
    OrderedStart(times, now);
    CounterCountsAccepted(bucket, times, RecordAfter(bucket, times).value.windowStart, now);
  }

  /** The next request after the follow-ups is let through at any moment later than the announced one. */
  ghost predicate PromiseKept(bucket: Bucket, times: seq<int>, now: int, more: seq<int>)
    requires Decide(bucket, RecordAfter(bucket, times), now).Rejected?
  {
    forall t :: t > RetryAt(bucket, times, now) ==> Decide(bucket, RecordAfter(bucket, times + [now] + more), t).Accepted?
  }

  /** A full budget of follow-ups at the announced moment itself uses up the new window. */
  lemma FullBudgetBreaksThePromise(bucket: Bucket, times: seq<int>, now: int) returns (more: seq<int>)
    requires Decide(bucket, RecordAfter(bucket, times), now).Rejected? && Ordered(times + [now])
    requires RecordAfter(bucket, times).Some? && (WindowEnd(bucket, times) - now) % 1000 != 0
    ensures FollowUps(more, now, RetryAt(bucket, times, now))
    ensures Decide(bucket, RecordAfter(bucket, times + [now] + more), RetryAt(bucket, times, now) + 1).Rejected?
  {
    hide RecordAfter, CeilSeconds, Ordered, Decide, Advance, AcceptedWithin;
    var retryAt := RetryAt(bucket, times, now);
    WindowOpenedEarlier(bucket, times, now);
    more := Burst(retryAt, if bucket.max >= 1 then bucket.max else 1);
    RetryMoment(bucket, RecordAfter(bucket, times), now, retryAt);
    BurstsAreFollowUps(retryAt, |more|, now);
    OneMoreRequest(bucket, times, now, 0, 0);
    EndedWindowIsForgotten(bucket, times + [now], more);
    OneWindowCounts(bucket, more);
    UsedUp(bucket, retryAt);
  }

  lemma UsedUp(bucket: Bucket, t: int)
    requires bucket.windowMs >= 1
    ensures Decide(bucket, Some(Record(if bucket.max >= 1 then bucket.max else 1, t)), t + 1).Rejected?
  {
  }

  lemma BurstsAreFollowUps(t: int, n: nat, now: int)
    requires now <= t
    ensures FollowUps(Burst(t, n), now, t)
  {
  }

  /**
   * Whatever follow-ups come by then, a request later than the announced moment is accepted:
   * exactly when what was left of the window at the rejection was a whole number of seconds.
   */
  lemma RetryPromiseHoldsExactlyWhen(bucket: Bucket, times: seq<int>, now: int)
    requires Decide(bucket, RecordAfter(bucket, times), now).Rejected? && Ordered(times + [now])
    ensures RecordAfter(bucket, times).Some?
    ensures (forall more :: FollowUps(more, now, RetryAt(bucket, times, now)) ==> PromiseKept(bucket, times, now, more))
            <==> (WindowEnd(bucket, times) - now) % 1000 == 0
  {
    hide RecordAfter, CeilSeconds, LaterThan;
    var retryAt := RetryAt(bucket, times, now);
    RetryMoment(bucket, RecordAfter(bucket, times), now, now);
    if (WindowEnd(bucket, times) - now) % 1000 == 0 {
      forall more, t | FollowUps(more, now, retryAt) && t > retryAt
        ensures Decide(bucket, RecordAfter(bucket, times + [now] + more), t).Accepted?
      {
        RetryMoment(bucket, RecordAfter(bucket, times), now, t);
        RejectedUntilTheWindowEnds(bucket, times, now, more, t);
        NothingLater(more, WindowEnd(bucket, times));
        NothingYet(bucket, 0, 0);
      }
    } else {
      var more := FullBudgetBreaksThePromise(bucket, times, now);
      assert !PromiseKept(bucket, times, now, more);
    }
  }

  /**
   * It fails with a budget of one and a window of 1.5 s: rejected at 1 ms with two seconds to
   * wait, the key is let in at 1501 ms, and rejected at 2002 ms.
   */
  lemma RetryPromiseCanFail()
    ensures var bucket := Bucket(1500, 1);
            && Decide(bucket, RecordAfter(bucket, [0]), 1) == Rejected(2)
            && RetryAt(bucket, [0], 1) == 2001
            && Decide(bucket, RecordAfter(bucket, [0, 1]), 1501).Accepted?
            && Decide(bucket, RecordAfter(bucket, [0, 1, 1501]), 2002).Rejected?
  {
    var bucket := Bucket(1500, 1);
    assert [0, 1, 1501][..2] == [0, 1] && [0, 1][..1] == [0] && [0][..0] == [];
    assert RecordAfter(bucket, [0]) == Some(Record(1, 0));
    assert RecordAfter(bucket, [0, 1]) == Some(Record(1, 0));
    assert RecordAfter(bucket, [0, 1, 1501]) == Some(Record(1, 1501));
  }

  /** At exactly the announced moment, with no request since the window ended: accepted unless whole seconds were left. */
  lemma AtTheAnnouncedMoment(bucket: Bucket, times: seq<int>, now: int, more: seq<int>)
    requires Decide(bucket, RecordAfter(bucket, times), now).Rejected?
    requires RecordAfter(bucket, times).Some? && FollowUps(more, now, WindowEnd(bucket, times))
    ensures Decide(bucket, RecordAfter(bucket, times + [now] + more), RetryAt(bucket, times, now)).Accepted?
            <==> (WindowEnd(bucket, times) - now) % 1000 != 0
  {
    hide RecordAfter, CeilSeconds, LaterThan;
    var retryAt := RetryAt(bucket, times, now);
    RetryMoment(bucket, RecordAfter(bucket, times), now, retryAt);
    RejectedUntilTheWindowEnds(bucket, times, now, more, retryAt);
    NothingYet(bucket, 0, 0);
    NothingLater(more, WindowEnd(bucket, times));
  }
}
