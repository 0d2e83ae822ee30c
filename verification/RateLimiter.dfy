/** The in-memory token bucket (RateLimiter.h). Time is a clock reading in nanoseconds, tokens are
    real numbers; rounding is not modelled. */
module RateLimiting {

  datatype Bucket = Bucket(tokens: real, last: int)

  datatype Limits = Limits(rate: real, burst: real)

  const NANOS := 1_000_000_000.0

  function Seconds(ticks: int): real {
    ticks as real / NANOS
  }

  /** The tokens that flow in over a span of the clock. */
  function Flow(ticks: int, z: Limits): real {
    Seconds(ticks) * z.rate
  }

  function Min(a: real, b: real): real {
    if b < a then b else a
  }

  /** A bucket that `m_[key]` has just created. */
  const NEW_BUCKET := Bucket(0.0, 0)

  /** The bucket brought up to `now`, before the call is decided: a bucket whose clock reads zero
      counts as new and starts full. */
  function Refilled(b: Bucket, now: int, z: Limits): Bucket {
    var b' := if b.last == 0 then Bucket(z.burst, now) else b;
    Bucket(Min(z.burst, b'.tokens + Flow(now - b'.last, z)), now)
  }

  /** One call: whether it is admitted, and the bucket it leaves. */
  function Decide(b: Bucket, now: int, z: Limits): (bool, Bucket) {
    var r := Refilled(b, now, z);
    if r.tokens >= 1.0 then (true, r.(tokens := r.tokens - 1.0)) else (false, r)
  }

  class RateLimiter {
    const limits: Limits
    var buckets: map<string, Bucket>

    constructor (rate: real, burst: real)
      ensures limits == Limits(rate, burst) && buckets == map[]
    {
      limits := Limits(rate, burst);
      buckets := map[];
    }

    method Allow(key: string, now: int) returns (allowed: bool)
      modifies this
      ensures (allowed, buckets) == Call(old(buckets), key, now, limits)
    {
      hide Flow, Seconds;
      var b := if key in buckets then buckets[key] else NEW_BUCKET;
      if b.last == 0 {
        b := Bucket(limits.burst, now);
      }
      b := Bucket(Min(limits.burst, b.tokens + Flow(now - b.last, limits)), now);
      allowed := b.tokens >= 1.0;
      if allowed {
        b := b.(tokens := b.tokens - 1.0);
      }
      buckets := buckets[key := b];
    }
  }

  /** One call on the whole table. */
  function Call(m: map<string, Bucket>, key: string, now: int, z: Limits): (bool, map<string, Bucket>) {
    var (ok, b) := Decide(if key in m then m[key] else NEW_BUCKET, now, z);
    (ok, m[key := b])
  }

  // ----- the calls of one key, at times ts[0], ts[1], ... in lock order

  function BucketAfter(ts: seq<int>, n: nat, z: Limits): Bucket
    requires n <= |ts|
  {
    if n == 0 then NEW_BUCKET else Decide(BucketAfter(ts, n - 1, z), ts[n - 1], z).1
  }

  function Tokens(ts: seq<int>, i: nat, z: Limits): real
    requires i < |ts|
  {
    Refilled(BucketAfter(ts, i, z), ts[i], z).tokens
  }

  predicate Admitted(ts: seq<int>, i: nat, z: Limits)
    requires i < |ts|
  {
    Decide(BucketAfter(ts, i, z), ts[i], z).0
  }

  /** How many of the calls j, ..., i - 1 are admitted. */
  function Count(ts: seq<int>, j: nat, i: nat, z: Limits): nat
    requires j <= i <= |ts|
  {
    if i == j then 0 else Count(ts, j, i - 1, z) + if Admitted(ts, i - 1, z) then 1 else 0
  }

  /** What the window from call j up to call i would leave: a full bucket, plus what flowed in
      since, minus what was taken. */
  function Window(ts: seq<int>, j: nat, i: nat, z: Limits): real
    requires j <= i < |ts|
  {
    z.burst + Flow(ts[i] - ts[j], z) - Count(ts, j, i, z) as real
  }

  /** The first call after the last zero reading before call i. A bucket whose clock reads zero
      counts as new, so the calls before it no longer weigh on call i; with a clock that never
      reads zero it is call 0. */
  function Since(ts: seq<int>, i: nat): (j: nat)
    requires i <= |ts|
    ensures j <= i && (j > 0 ==> ts[j - 1] == 0)
    ensures forall k :: j <= k < i ==> ts[k] != 0
  {
    if i == 0 || ts[i - 1] == 0 then i else Since(ts, i - 1)
  }

  lemma {:induction false} FlowSplits(a: int, b: int, c: int, z: Limits)
    ensures Flow(c - a, z) == Flow(b - a, z) + Flow(c - b, z)
    ensures Flow(0, z) == 0.0
  {
    assert Seconds(c - a) == Seconds(b - a) + Seconds(c - b);
  }

  /** What flows in, outright: the rate per second, over a span in billionths of one. */
  lemma {:induction false} FlowIs(ticks: int, z: Limits)
    ensures Flow(ticks, z) * 1_000_000_000.0 == z.rate * ticks as real
  {
    var s := Seconds(ticks);
    assert s * 1_000_000_000.0 == ticks as real;
    assert s * z.rate * 1_000_000_000.0 == s * 1_000_000_000.0 * z.rate;
  }

  /** A window grows by one call like the running bucket does. */
  lemma {:induction false} WindowStep(ts: seq<int>, j: nat, i: nat, z: Limits)
    requires j < i < |ts|
    ensures Window(ts, j, i, z) ==
            Window(ts, j, i - 1, z) + Flow(ts[i] - ts[i - 1], z) - (if Admitted(ts, i - 1, z) then 1.0 else 0.0)
    ensures Window(ts, i, i, z) == z.burst
  {
    hide Flow, Admitted;
    FlowSplits(ts[j], ts[i - 1], ts[i], z);
  }

  /** A call that finds a new bucket, or one left by a zero reading, finds it full. */
  lemma {:induction false} FullTokens(ts: seq<int>, i: nat, z: Limits)
    requires i < |ts| && Since(ts, i) == i
    ensures Tokens(ts, i, z) == Window(ts, i, i, z) == z.burst
  {
    hide Flow;
    FlowSplits(0, 0, 0, z);
    assert BucketAfter(ts, i, z).last == 0;
  }

  lemma {:induction false} TokensStep(ts: seq<int>, i: nat, z: Limits)
    requires 0 < i < |ts| && ts[i - 1] != 0
    ensures Tokens(ts, i, z) ==
            Min(z.burst, Tokens(ts, i - 1, z) + Flow(ts[i] - ts[i - 1], z)
                         - (if Admitted(ts, i - 1, z) then 1.0 else 0.0))
  {
    hide Flow;
    var b := BucketAfter(ts, i, z);
    assert b.last == ts[i - 1] != 0;
    assert b.tokens == Tokens(ts, i - 1, z) - if Admitted(ts, i - 1, z) then 1.0 else 0.0;
  }

  lemma {:induction false} TightestWindow(ts: seq<int>, i: nat, z: Limits) returns (tight: nat)
    requires i < |ts|
    ensures forall j :: Since(ts, i) <= j <= i ==> Tokens(ts, i, z) <= Window(ts, j, i, z)
    ensures Since(ts, i) <= tight <= i && Tokens(ts, i, z) == Window(ts, tight, i, z)
    decreases i
  {
    hide Flow, Admitted, Window, Tokens;
    if Since(ts, i) == i {
      tight := i;
      FullTokens(ts, i, z);
    } else {
      var tight' := TightestWindow(ts, i - 1, z);
      TokensStep(ts, i, z);
      forall j | Since(ts, i) <= j < i
        ensures Tokens(ts, i, z) <= Window(ts, j, i, z)
      {
        WindowStep(ts, j, i, z);
      }
      WindowStep(ts, tight', i, z);
      tight := if Tokens(ts, i, z) == z.burst then i else tight';
    }
  }

  /** Closed form, in billionths of a token: the tokens before call i are the minimum, over all windows
      that end at i and begin after the last zero reading, of burst plus rate * elapsed minus what
      was admitted. */
  lemma {:induction false} TokensAreTheTightestWindow(ts: seq<int>, i: nat, z: Limits) returns (tight: nat)
    requires i < |ts|
    ensures forall j :: Since(ts, i) <= j <= i ==>
              (Tokens(ts, i, z) + Count(ts, j, i, z) as real - z.burst) * 1_000_000_000.0 <=
              z.rate * (ts[i] - ts[j]) as real
    ensures Since(ts, i) <= tight <= i
    ensures (Tokens(ts, i, z) + Count(ts, tight, i, z) as real - z.burst) * 1_000_000_000.0 ==
            z.rate * (ts[i] - ts[tight]) as real
  {
    hide Flow, Tokens, Count, Since;
    tight := TightestWindow(ts, i, z);
    forall j | Since(ts, i) <= j <= i
      ensures (Tokens(ts, i, z) + Count(ts, j, i, z) as real - z.burst) * 1_000_000_000.0 <=
              z.rate * (ts[i] - ts[j]) as real
    {
      assert Tokens(ts, i, z) <= Window(ts, j, i, z);
      FlowIs(ts[i] - ts[j], z);
    }
    FlowIs(ts[i] - ts[tight], z);
  }

  /** So many calls in a span of so many billionths of a second stay within burst + rate * elapsed. */
  predicate Within(calls: nat, elapsed: int, z: Limits) {
    (calls as real - z.burst) * 1_000_000_000.0 <= z.rate * elapsed as real
  }

  /** Admitting call i would keep the window from j within its budget. */
  predicate WithinBudget(ts: seq<int>, j: nat, i: nat, z: Limits)
    requires j <= i < |ts|
  {
    Within(Count(ts, j, i, z) + 1, ts[i] - ts[j], z)
  }

  /** Never too much, never without cause: a call is admitted if and only if admitting it keeps
      every window that ends with it, back to the last zero reading, within burst + rate * elapsed. */
  lemma {:induction false} AdmittedIff(ts: seq<int>, i: nat, z: Limits)
    requires i < |ts|
    ensures Admitted(ts, i, z) <==> forall j :: Since(ts, i) <= j <= i ==> WithinBudget(ts, j, i, z)
  {
    hide Flow, Count, Since;
    var tight := TokensAreTheTightestWindow(ts, i, z);
    assert Admitted(ts, i, z) <==> Tokens(ts, i, z) >= 1.0;
    hide Tokens, Admitted;
    if Tokens(ts, i, z) >= 1.0 {
      forall j | Since(ts, i) <= j <= i
        ensures WithinBudget(ts, j, i, z)
      {
      }
    } else {
      assert !WithinBudget(ts, tight, i, z);
    }
  }

  /** The latest reading among the calls j, ..., i. The clock is read before the lock is taken, so
      it need not be the last one. */
  function Latest(ts: seq<int>, j: nat, i: nat): (t: int)
    requires j <= i < |ts|
    ensures forall k :: j <= k <= i ==> ts[k] <= t
    ensures exists k :: j <= k <= i && ts[k] == t
  {
    if i == j then ts[j]
    else
      var t := Latest(ts, j, i - 1);
      if ts[i] > t then ts[i] else t
  }

  lemma {:induction false} AdmittedWindow(ts: seq<int>, j: nat, i: nat, z: Limits)
    requires j <= i < |ts| && Since(ts, i) <= j && Admitted(ts, i, z)
    ensures Within(Count(ts, j, i + 1, z), ts[i] - ts[j], z)
  {
    hide Admitted, Since, Within;
    AdmittedIff(ts, i, z);
    assert WithinBudget(ts, j, i, z);
  }

  /** Every window of calls without a zero reading before its last, however it ends and in
      whatever order the clock was read, admits at most burst + rate * elapsed. */
  lemma {:induction false} EveryWindowIsBounded(ts: seq<int>, j: nat, i: nat, z: Limits)
    requires j <= i < |ts| && Since(ts, i) <= j
    requires z.rate >= 0.0 && z.burst >= 0.0
    ensures Within(Count(ts, j, i + 1, z), Latest(ts, j, i) - ts[j], z)
    decreases i
  {
    hide Admitted, Within;
    var latest := Latest(ts, j, i);
    if Admitted(ts, i, z) {
      AdmittedWindow(ts, j, i, z);
      MoreTime(Count(ts, j, i + 1, z), ts[i] - ts[j], latest - ts[j], z);
    } else if i == j {
      NoCalls(z);
    } else {
      EveryWindowIsBounded(ts, j, i - 1, z);
      MoreTime(Count(ts, j, i, z), Latest(ts, j, i - 1) - ts[j], latest - ts[j], z);
    }
  }

  lemma {:induction false} MoreTime(calls: nat, a: int, b: int, z: Limits)
    requires a <= b && z.rate >= 0.0 && Within(calls, a, z)
    ensures Within(calls, b, z)
  {
    var more := (b - a) as real;
    assert z.rate * more >= 0.0;
    assert b as real == a as real + more;
    assert z.rate * (a as real + more) == z.rate * a as real + z.rate * more;
  }

  lemma {:induction false} NoCalls(z: Limits)
    requires z.burst >= 0.0
    ensures Within(0, 0, z)
  {
    assert z.rate * 0.0 == 0.0;
  }

  /** Call k comes at least a token's time after the one before, whose clock does not read zero. */
  predicate Steady(ts: seq<int>, k: nat, z: Limits)
    requires 0 < k < |ts|
  {
    ts[k - 1] != 0 && z.rate * (ts[k] - ts[k - 1]) as real >= 1_000_000_000.0
  }

  /** A client that keeps to the rate is never refused. */
  lemma {:induction false} SteadyClientIsAdmitted(ts: seq<int>, i: nat, z: Limits)
    requires i < |ts| && z.burst >= 1.0 && forall k :: 0 < k <= i ==> Steady(ts, k, z)
    ensures Admitted(ts, i, z)
    decreases i
  {
    hide Flow, Steady;
    if i == 0 {
      FullTokens(ts, 0, z);
    } else {
      SteadyClientIsAdmitted(ts, i - 1, z);
      assert Tokens(ts, i - 1, z) >= 1.0;
      SteadyFlow(ts, i, z);
      TokensStep(ts, i, z);
    }
  }

  lemma {:induction false} SteadyFlow(ts: seq<int>, k: nat, z: Limits)
    requires 0 < k < |ts| && Steady(ts, k, z)
    ensures ts[k - 1] != 0 && Flow(ts[k] - ts[k - 1], z) >= 1.0
  {
    hide Flow;
    FlowIs(ts[k] - ts[k - 1], z);
  }

  // ----- many keys

  datatype Arrival = Arrival(key: string, time: int)

  function TableAfter(calls: seq<Arrival>, n: nat, z: Limits): map<string, Bucket>
    requires n <= |calls|
  {
    if n == 0 then map[] else Call(TableAfter(calls, n - 1, z), calls[n - 1].key, calls[n - 1].time, z).1
  }

  predicate Allowed(calls: seq<Arrival>, i: nat, z: Limits)
    requires i < |calls|
  {
    Call(TableAfter(calls, i, z), calls[i].key, calls[i].time, z).0
  }

  /** The times of the first n calls that are made for `key`. */
  function TimesOf(calls: seq<Arrival>, key: string, n: nat): seq<int>
    requires n <= |calls|
  {
    if n == 0 then []
    else TimesOf(calls, key, n - 1) + if calls[n - 1].key == key then [calls[n - 1].time] else []
  }

  lemma {:induction false} BucketAfterPrefix(ts: seq<int>, us: seq<int>, n: nat, z: Limits)
    requires n <= |ts| && ts <= us
    ensures BucketAfter(ts, n, z) == BucketAfter(us, n, z)
    decreases n
  {
    if n > 0 {
      BucketAfterPrefix(ts, us, n - 1, z);
    }
  }

  lemma {:induction false} KeysAreSeparate(calls: seq<Arrival>, key: string, n: nat, z: Limits)
    requires n <= |calls|
    ensures var m, ts := TableAfter(calls, n, z), TimesOf(calls, key, n);
            (if key in m then m[key] else NEW_BUCKET) == BucketAfter(ts, |ts|, z)
    decreases n
  {
    if n > 0 {
      KeysAreSeparate(calls, key, n - 1, z);
      var before, ts := TimesOf(calls, key, n - 1), TimesOf(calls, key, n);
      BucketAfterPrefix(before, ts, |before|, z);
    }
  }

  /** Clients do not disturb each other: a call in the middle of any traffic is decided as if only
      the calls of its own key had been made. */
  lemma {:induction false} DecidedAsIfAlone(calls: seq<Arrival>, i: nat, z: Limits)
    requires i < |calls|
    ensures var own := TimesOf(calls, calls[i].key, i);
            Allowed(calls, i, z) == Admitted(own + [calls[i].time], |own|, z)
  {
    var own := TimesOf(calls, calls[i].key, i);
    KeysAreSeparate(calls, calls[i].key, i, z);
    BucketAfterPrefix(own, own + [calls[i].time], |own|, z);
  }

  /** Why zero readings matter: calls that each come right after one, or first, are not limited at
      all. All of them are admitted, however many; none is if the burst is below one. */
  lemma {:induction false} ZeroClockNeverRefuses(ts: seq<int>, j: nat, i: nat, z: Limits)
    requires j <= i <= |ts| && forall k :: j <= k < i ==> Since(ts, k) == k
    ensures Count(ts, j, i, z) == if z.burst >= 1.0 then i - j else 0
    decreases i
  {
    if j < i {
      ZeroClockNeverRefuses(ts, j, i - 1, z);
      FullTokens(ts, i - 1, z);
    }
  }
}
