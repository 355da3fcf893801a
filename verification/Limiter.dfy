// The fixed-window rate limiter over an expiring counter store, against a count that never forgets.
// One integer clock, and a check is one atomic step.
module Limiter {

  datatype Counter = Counter(count: nat, expiresAt: int)

  // A stored key: the caller's identity and the bucket.
  type RedisKey = (string, int)

  datatype RateLimitResult = RateLimitResult(allowed: bool, limit: nat, remaining: nat, retryAfter: int, resetAt: int)

  datatype Request = Request(key: string, now: nat, limit: nat)

  function Bucket(now: nat, window: nat): nat
    requires window > 0
  {
    now / window
  }

  // What the store still holds at a time: an expired key is gone for good.
  function Alive(store: map<RedisKey, Counter>, now: int): map<RedisKey, Counter> {
    map k | k in store && now < store[k].expiresAt :: store[k]
  }

  function StoredCount(store: map<RedisKey, Counter>, k: RedisKey, now: int): nat {
    if k in Alive(store, now) then store[k].count else 0
  }

  function ResultFor(count: nat, limit: nat, now: nat, window: nat): RateLimitResult
    requires window > 0
  {
    var resetAt := (Bucket(now, window) + 1) * window;
    RateLimitResult(count <= limit, limit, if limit > count then limit - count else 0,
                    if resetAt - now > 1 then resetAt - now else 1, resetAt)
  }

  function StoreAfter(store: map<RedisKey, Counter>, k: RedisKey, now: int, window: nat): map<RedisKey, Counter> {
    var count := StoredCount(store, k, now) + 1;
    Alive(store, now)[k := Counter(count, if count == 1 then now + window else store[k].expiresAt)]
  }

  function KeyOf(r: Request, window: nat): RedisKey
    requires window > 0
  {
    (r.key, Bucket(r.now, window))
  }

  // The expiring store after a history of requests.
  function StoreOf(history: seq<Request>, window: nat): map<RedisKey, Counter>
    requires window > 0
  {
    if history == [] then map[]
    else
      var r := history[|history| - 1];
      StoreAfter(StoreOf(history[..|history| - 1], window), KeyOf(r, window), r.now, window)
  }

  // The ideal: how many requests of this key fell into this bucket, ever.
  function Seen(history: seq<Request>, key: string, bucket: nat, window: nat): nat
    requires window > 0
  {
    if history == [] then 0
    else
      var r := history[|history| - 1];
      Seen(history[..|history| - 1], key, bucket, window) + (if r.key == key && r.now / window == bucket then 1 else 0)
  }

  ghost predicate Monotone(history: seq<Request>) {
    forall i, j :: 0 <= i < j < |history| ==> history[i].now <= history[j].now
  }

  lemma Scale(a: int, b: int, window: nat)
    requires window > 0
    ensures a <= b <==> a * window <= b * window
  {
    if a <= b {
      assert b * window == a * window + (b - a) * window;
    } else {
      assert a * window == b * window + (a - b) * window;
    }
  }

  // A bucket is a half-open stretch of the clock, and a time lies in exactly one.
  lemma BucketBounds(now: nat, window: nat)
    requires window > 0
    ensures Bucket(now, window) * window <= now < (Bucket(now, window) + 1) * window
  {
  }

  lemma BucketBefore(now: nat, b: int, window: nat)
    requires window > 0
    ensures Bucket(now, window) < b <==> now < b * window
  {
    BucketBounds(now, window);
    Scale(Bucket(now, window) + 1, b, window);
    Scale(b, Bucket(now, window), window);
  }

  // ---------------------------------------------------------------- refinement

  ghost predicate NotOver(history: seq<Request>, b: nat, window: nat) {
    history == [] || history[|history| - 1].now < (b + 1) * window
  }

  // For a bucket that is not over, the store holds exactly the ideal count, and keeps it to the end
  // of the bucket.
  ghost predicate Exact(store: map<RedisKey, Counter>, key: string, b: nat, seen: nat, window: nat) {
    if seen == 0 then (key, b) !in store
    else (key, b) in store && store[(key, b)].count == seen && store[(key, b)].expiresAt >= (b + 1) * window
  }

  lemma ExactStep(store: map<RedisKey, Counter>, k: RedisKey, now: int, key: string, b: nat, seen: nat, window: nat)
    requires Exact(store, key, b, seen, window)
    requires now < (b + 1) * window
    requires k == (key, b) ==> b * window <= now
    ensures Exact(StoreAfter(store, k, now, window), key, b, if k == (key, b) then seen + 1 else seen, window)
  {
    assert b * window + window == (b + 1) * window;
  }

  lemma {:induction false} StoreFaithful(history: seq<Request>, window: nat, key: string, b: nat)
    requires window > 0 && Monotone(history) && NotOver(history, b, window)
    ensures Exact(StoreOf(history, window), key, b, Seen(history, key, b, window), window)
  {
    if history != [] {
      var n := |history| - 1;
      var r := history[n];
      assert n > 0 ==> history[..n][n - 1].now <= r.now;
      StoreFaithful(history[..n], window, key, b);
      BucketBounds(r.now, window);
      var seen := Seen(history[..n], key, b, window);
      ExactStep(StoreOf(history[..n], window), KeyOf(r, window), r.now, key, b, seen, window);
    }
  }

  lemma StoreSnoc(history: seq<Request>, r: Request, window: nat)
    requires window > 0
    ensures StoreOf(history + [r], window) == StoreAfter(StoreOf(history, window), KeyOf(r, window), r.now, window)
  {
    assert (history + [r])[..|history|] == history;
  }

  // The verdict on a request that follows a history, from the store and from the ideal count.
  function Verdict(history: seq<Request>, r: Request, window: nat): RateLimitResult
    requires window > 0
  {
    ResultFor(StoredCount(StoreOf(history, window), KeyOf(r, window), r.now) + 1, r.limit, r.now, window)
  }

  // Expiry is never noticed: every check answers as the count that never forgets would.
  lemma LimiterRefinesIdeal(history: seq<Request>, r: Request, window: nat)
    requires window > 0 && Monotone(history + [r])
    ensures Verdict(history, r, window)
        == ResultFor(Seen(history, r.key, Bucket(r.now, window), window) + 1, r.limit, r.now, window)
  {
    var all := history + [r];
    var n := |history|;
    forall i, j | 0 <= i < j < n ensures history[i].now <= history[j].now { assert all[i].now <= all[j].now; }
    assert n > 0 ==> all[n - 1].now <= all[n].now;
    BucketBounds(r.now, window);
    StoreFaithful(history, window, r.key, Bucket(r.now, window));
  }

  // ---------------------------------------------------------------- how many pass

  predicate Allowed(history: seq<Request>, i: nat, window: nat)
    requires window > 0 && i < |history|
  {
    Verdict(history[..i], history[i], window).allowed
  }

  lemma AllowedIff(history: seq<Request>, i: nat, window: nat)
    requires window > 0 && Monotone(history) && i < |history|
    ensures Allowed(history, i, window)
       <==> Seen(history[..i], history[i].key, Bucket(history[i].now, window), window) < history[i].limit
  {
    assert history[..i] + [history[i]] == history[..i + 1];
    LimiterRefinesIdeal(history[..i], history[i], window);
  }

  // Admitted requests of one key and bucket whose own limit is at most cap. A caller's key carries
  // requests of several limits; a cap at the lowest counts that class, one at the highest counts all.
  function AdmittedIn(history: seq<Request>, key: string, bucket: nat, cap: nat, window: nat): nat
    requires window > 0
  {
    if history == [] then 0
    else
      var n := |history| - 1;
      AdmittedIn(history[..n], key, bucket, cap, window)
      + (if history[n].key == key && history[n].now / window == bucket && history[n].limit <= cap
            && Allowed(history, n, window) then 1 else 0)
  }

  // However the limits are mixed, no more than cap of the requests with a limit up to cap pass.
  lemma {:induction false} CapBound(history: seq<Request>, key: string, bucket: nat, cap: nat, window: nat)
    requires window > 0 && Monotone(history)
    ensures AdmittedIn(history, key, bucket, cap, window) <= Seen(history, key, bucket, window)
    ensures AdmittedIn(history, key, bucket, cap, window) <= cap
  {
    if history != [] {
      var n := |history| - 1;
      CapBound(history[..n], key, bucket, cap, window);
      AllowedIff(history, n, window);
    }
  }

  // The limits that the requests of one key and bucket carry.
  ghost predicate LimitsWithin(history: seq<Request>, key: string, bucket: nat, low: nat, high: nat, window: nat)
    requires window > 0
  {
    forall i :: 0 <= i < |history| && history[i].key == key && history[i].now / window == bucket ==>
      low <= history[i].limit <= high
  }

  // Of n requests at least min(n, low) pass, when no request of the bucket has a limit below low.
  lemma {:induction false} LowBound(history: seq<Request>, key: string, bucket: nat, low: nat, high: nat, window: nat)
    requires window > 0 && Monotone(history) && LimitsWithin(history, key, bucket, low, high, window)
    ensures AdmittedIn(history, key, bucket, high, window) >= Min(Seen(history, key, bucket, window), low)
  {
    if history != [] {
      var n := |history| - 1;
      LowBound(history[..n], key, bucket, low, high, window);
      AllowedIff(history, n, window);
    }
  }

  function Min(a: nat, b: nat): nat {
    if a <= b then a else b
  }

  // Of n requests of one key in one bucket at least min(n, low) and at most min(n, high) pass, when
  // their limits lie between low and high.
  lemma MixedLimitsPass(history: seq<Request>, key: string, bucket: nat, low: nat, high: nat, window: nat)
    requires window > 0 && Monotone(history) && LimitsWithin(history, key, bucket, low, high, window)
    ensures Min(Seen(history, key, bucket, window), low)
         <= AdmittedIn(history, key, bucket, high, window)
         <= Min(Seen(history, key, bucket, window), high)
  {
    LowBound(history, key, bucket, low, high, window);
    CapBound(history, key, bucket, high, window);
  }

  // So with one limit in the bucket exactly min(n, limit) pass.
  lemma ExactlyLimitPass(history: seq<Request>, key: string, bucket: nat, limit: nat, window: nat)
    requires window > 0 && Monotone(history) && LimitsWithin(history, key, bucket, limit, limit, window)
    ensures AdmittedIn(history, key, bucket, limit, window) == Min(Seen(history, key, bucket, window), limit)
  {
    MixedLimitsPass(history, key, bucket, limit, limit, window);
  }

  lemma {:induction false} SeenAppend(a: seq<Request>, b: seq<Request>, key: string, bucket: nat, window: nat)
    requires window > 0
    ensures Seen(a + b, key, bucket, window) == Seen(a, key, bucket, window) + Seen(b, key, bucket, window)
  {
    if b == [] {
      assert a + b == a;
    } else {
      SeenAppend(a, b[..|b| - 1], key, bucket, window);
      assert (a + b)[..|a + b| - 1] == a + b[..|b| - 1];
      assert (a + b)[|a + b| - 1] == b[|b| - 1];
    }
  }

  // The remaining count is a promise: a later request of the same bucket and limit passes exactly when
  // fewer than that many requests of the key came in between.
  lemma RemainingIsExact(history: seq<Request>, i: nat, j: nat, window: nat)
    requires window > 0 && Monotone(history) && i < j < |history|
    requires history[j].key == history[i].key && history[j].limit == history[i].limit
    requires history[j].now / window == history[i].now / window
    ensures Allowed(history, j, window)
       <==> Seen(history[i + 1..j], history[i].key, history[i].now / window, window)
            < Verdict(history[..i], history[i], window).remaining
  {
    AllowedIff(history, j, window);
    assert history[..i] + [history[i]] == history[..i + 1];
    LimiterRefinesIdeal(history[..i], history[i], window);
    SeenBetween(history, i, j, history[i].key, history[i].now / window, window);
  }

  lemma SeenBetween(history: seq<Request>, i: nat, j: nat, key: string, bucket: nat, window: nat)
    requires window > 0 && i < j < |history|
    requires history[i].key == key && history[i].now / window == bucket
    ensures Seen(history[..j], key, bucket, window)
         == Seen(history[..i], key, bucket, window) + 1 + Seen(history[i + 1..j], key, bucket, window)
  {
    assert history[..j] == history[..i] + [history[i]] + history[i + 1..j];
    SeenAppend(history[..i] + [history[i]], history[i + 1..j], key, bucket, window);
    SeenAppend(history[..i], [history[i]], key, bucket, window);
    assert [history[i]][..0] == [];
  }

  // Admitted requests of one key with a limit up to cap, at a time in [from, to).
  function AdmittedDuring(history: seq<Request>, key: string, from: int, to: int, cap: nat, window: nat): nat
    requires window > 0
  {
    if history == [] then 0
    else
      var n := |history| - 1;
      var r := history[n];
      AdmittedDuring(history[..n], key, from, to, cap, window)
      + (if r.key == key && from <= r.now < to && r.limit <= cap && Allowed(history, n, window) then 1 else 0)
  }

  // The same over a range of buckets [first, first + count).
  function AdmittedOver(history: seq<Request>, key: string, first: nat, count: nat, cap: nat, window: nat): nat
    requires window > 0
  {
    if count == 0 then 0
    else
      AdmittedOver(history, key, first, count - 1, cap, window)
      + AdmittedIn(history, key, first + count - 1, cap, window)
  }

  lemma {:induction false} OverStep(history: seq<Request>, key: string, first: nat, count: nat, cap: nat, window: nat)
    requires window > 0 && history != []
    ensures
      var n := |history| - 1;
      var r := history[n];
      var inside := r.key == key && first <= Bucket(r.now, window) < first + count && r.limit <= cap;
      AdmittedOver(history, key, first, count, cap, window)
      == AdmittedOver(history[..n], key, first, count, cap, window)
         + (if inside && Allowed(history, n, window) then 1 else 0)
  {
    if count > 0 { OverStep(history, key, first, count - 1, cap, window); }
  }

  lemma {:induction false} OverNothing(key: string, first: nat, count: nat, cap: nat, window: nat)
    requires window > 0
    ensures AdmittedOver([], key, first, count, cap, window) == 0
  {
    if count > 0 { OverNothing(key, first, count - 1, cap, window); }
  }

  lemma InBuckets(now: nat, from: nat, k: nat, window: nat)
    requires window > 0 && from <= now < from + k * window
    ensures Bucket(from, window) <= Bucket(now, window) < Bucket(from, window) + k + 1
  {
    var b := Bucket(from, window);
    BucketBounds(from, window);
    BucketBefore(now, b, window);
    BucketBefore(now, b + k + 1, window);
    Scale(b, b, window);
    assert (b + k + 1) * window == (b + 1) * window + k * window;
  }

  lemma {:induction false} DuringInOver(history: seq<Request>, key: string, from: nat, k: nat, cap: nat, window: nat)
    requires window > 0
    ensures AdmittedDuring(history, key, from, from + k * window, cap, window)
         <= AdmittedOver(history, key, Bucket(from, window), k + 1, cap, window)
  {
    if history == [] {
      OverNothing(key, Bucket(from, window), k + 1, cap, window);
    } else {
      var n := |history| - 1;
      DuringInOver(history[..n], key, from, k, cap, window);
      OverStep(history, key, Bucket(from, window), k + 1, cap, window);
      if from <= history[n].now < from + k * window {
        InBuckets(history[n].now, from, k, window);
      }
    }
  }

  lemma {:induction false} OverBound(history: seq<Request>, key: string, first: nat, count: nat, cap: nat, window: nat)
    requires window > 0 && Monotone(history)
    ensures AdmittedOver(history, key, first, count, cap, window) <= count * cap
  {
    if count > 0 {
      OverBound(history, key, first, count - 1, cap, window);
      CapBound(history, key, first + count - 1, cap, window);
      assert count * cap == (count - 1) * cap + cap;
    }
  }

  // Wherever an interval of k windows starts, at most (k + 1) * cap requests of a key with a limit up
  // to cap pass in it, whatever other limits the key's requests carry.
  lemma SlidingBound(history: seq<Request>, key: string, from: nat, k: nat, cap: nat, window: nat)
    requires window > 0 && Monotone(history)
    ensures AdmittedDuring(history, key, from, from + k * window, cap, window) <= (k + 1) * cap
  {
    DuringInOver(history, key, from, k, cap, window);
    OverBound(history, key, Bucket(from, window), k + 1, cap, window);
  }

  // Waiting retry_after reaches the next bucket, and no shorter wait does; so a refused caller that
  // waits it out passes if it is the first of the new bucket and the limit is not zero.
  lemma RetryAfterIsLeastWait(count: nat, limit: nat, now: nat, window: nat, wait: nat)
    requires window > 0
    ensures
      var r := ResultFor(count, limit, now, window);
      && r.retryAfter >= 1 && r.resetAt == now + r.retryAfter
      && (Bucket(now + wait, window) > Bucket(now, window) <==> wait >= r.retryAfter)
      && Bucket(r.resetAt, window) == Bucket(now, window) + 1
  {
    var b := Bucket(now, window);
    BucketBounds(now, window);
    BucketBefore(now + wait, b + 1, window);
    BucketBefore((b + 1) * window, b + 1, window);
    BucketBefore((b + 1) * window, b + 2, window);
    Scale(b + 1, b + 2, window);
    assert (b + 1) * window < (b + 2) * window by { assert (b + 2) * window == (b + 1) * window + window; }
  }

  // ---------------------------------------------------------------- the limiter itself

  class RateLimiter {
    const window: nat
    var redis: map<RedisKey, Counter>
    ghost var history: seq<Request>

    ghost predicate Valid()
      reads this
    {
      window > 0 && redis == StoreOf(history, window)
    }

    constructor (window: nat)
      requires window > 0
      ensures Valid() && history == [] && this.window == window
    {
      this.window := window;
      redis, history := map[], [];
    }

    // INCR, then EXPIRE on the first count of a key.
    method Incr(k: RedisKey, now: nat) returns (count: nat)
      modifies this`redis
      ensures count == StoredCount(old(redis), k, now) + 1
      ensures redis == StoreAfter(old(redis), k, now, window)
    {
      redis := Alive(redis, now);
      if k in redis {
        redis := redis[k := redis[k].(count := redis[k].count + 1)];
      } else {
        redis := redis[k := Counter(1, 0)];
      }
      count := redis[k].count;
      if count == 1 {
        redis := redis[k := redis[k].(expiresAt := now + window)];
      }
    }

    method Check(key: string, limit: nat, now: nat) returns (result: RateLimitResult)
      requires Valid() && Monotone(history + [Request(key, now, limit)])
      modifies this
      ensures Valid() && history == old(history) + [Request(key, now, limit)]
      ensures result == Verdict(old(history), Request(key, now, limit), window)
      ensures result == ResultFor(Seen(old(history), key, Bucket(now, window), window) + 1, limit, now, window)
      ensures
        var earlier := Seen(old(history), key, now / window, window);
        && (result.allowed <==> earlier < limit) && result.limit == limit
        && result.remaining == (if earlier < limit then limit - earlier - 1 else 0)
    {
      ghost var r := Request(key, now, limit);
      LimiterRefinesIdeal(history, r, window);
      StoreSnoc(history, r, window);
      var count := Incr((key, Bucket(now, window)), now);
      result := Answer(count, limit, now);
      history := history + [r];
    }

    method Answer(count: nat, limit: nat, now: nat) returns (result: RateLimitResult)
      requires window > 0
      ensures result == ResultFor(count, limit, now, window)
    {
      var resetAt := (Bucket(now, window) + 1) * window;
      var retryAfter := if resetAt - now > 1 then resetAt - now else 1;
      result := RateLimitResult(count <= limit, limit, if limit > count then limit - count else 0, retryAfter, resetAt);
    }
  }
}
