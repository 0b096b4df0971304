/** The fixed-window limiter `InMemoryRateLimiter` of app/core/rate_limit.py. */
module RateLimit {
  import opened Common

  datatype RateLimitResult = RateLimitResult(allowed: bool, remaining: int, retryAfter: int)

  datatype Config = Config(limit: int, window: int)

  /** The window start and the hits counted in it. */
  datatype Bucket = Bucket(start: real, count: int)

  /** Python's `int()` on a float: truncation toward zero. */
  function Truncate(x: real): int {
    if x >= 0.0 then x.Floor else -((-x).Floor)
  }

  /** The bucket a hit at `now` is counted in, including that hit. */
  function Charge(cfg: Config, bucket: Option<Bucket>, now: real): Bucket {
    if bucket.None? || now - bucket.value.start >= cfg.window as real
    then Bucket(now, 1)
    else bucket.value.(count := bucket.value.count + 1)
  }

  function Verdict(cfg: Config, b: Bucket, now: real): RateLimitResult {
    if b.count > cfg.limit
    then RateLimitResult(false, 0, Truncate(cfg.window as real - (now - b.start)) + 1)
    else RateLimitResult(true, Max(0, cfg.limit - b.count), 0)
  }

  function BucketOf(buckets: map<string, Bucket>, key: string): Option<Bucket> {
    if key in buckets then Some(buckets[key]) else None
  }

  class InMemoryRateLimiter {
    const cfg: Config
    var buckets: map<string, Bucket>

    constructor (limit: int, windowSeconds: int)
      ensures cfg == Config(limit, windowSeconds) && buckets == map[]
    {
      cfg := Config(limit, windowSeconds);
      buckets := map[];
    }

    /** `now` is read before the lock is taken, and the rest is one critical section: hits in
        the order of their sections read the clock in that order only if they do not compete.
        A first hit finds the default bucket `(now, 0)`. */
    method Hit(key: string, now: real) returns (r: RateLimitResult)
      modifies this`buckets
      ensures
        var b := Charge(cfg, old(BucketOf(buckets, key)), now);
        buckets == old(buckets)[key := b] && r == Verdict(cfg, b, now)
      ensures if r.allowed then r.remaining >= 0 && r.retryAfter == 0 else r.remaining == 0
      ensures r.allowed && (forall k :: k in old(buckets) ==> old(buckets)[k].count >= 0) ==> r.remaining < cfg.limit
    {
      var b := if key in buckets then buckets[key] else Bucket(now, 0);
      if now - b.start >= cfg.window as real {
        b := Bucket(now, 0);
      }
      b := b.(count := b.count + 1);
      buckets := buckets[key := b];
      var remaining := Max(0, cfg.limit - b.count);
      if b.count > cfg.limit {
        var retryAfter := Truncate(cfg.window as real - (now - b.start)) + 1;
        return RateLimitResult(false, 0, retryAfter);
      }
      return RateLimitResult(true, remaining, 0);
    }
  }

  // ---------------------------------------------------------------- runs

  datatype Hit = Hit(key: string, at: real)

  /** The buckets after a run of hits on any keys. */
  function Buckets(cfg: Config, hs: seq<Hit>): map<string, Bucket> {
    if hs == [] then map[]
    else
      var m, h := Buckets(cfg, hs[..|hs| - 1]), hs[|hs| - 1];
      m[h.key := Charge(cfg, BucketOf(m, h.key), h.at)]
  }

  /** The bucket the last hit of a run was counted in. */
  function LastBucket(cfg: Config, hs: seq<Hit>): Bucket
    requires hs != []
  {
    var h := hs[|hs| - 1];
    Charge(cfg, BucketOf(Buckets(cfg, hs[..|hs| - 1]), h.key), h.at)
  }

  function Results(cfg: Config, hs: seq<Hit>): (rs: seq<RateLimitResult>)
    ensures |rs| == |hs|
  {
    if hs == [] then []
    else Results(cfg, hs[..|hs| - 1]) + [Verdict(cfg, LastBucket(cfg, hs), hs[|hs| - 1].at)]
  }

  ghost predicate MonotoneClock(hs: seq<Hit>) {
    forall i, j :: 0 <= i < j < |hs| ==> hs[i].at <= hs[j].at
  }

  lemma {:induction false} ResultAt(cfg: Config, hs: seq<Hit>, i: nat)
    requires i < |hs|
    ensures Results(cfg, hs)[i] == Verdict(cfg, LastBucket(cfg, hs[..i + 1]), hs[i].at)
    ensures LastBucket(cfg, hs[..i + 1]) == Charge(cfg, BucketOf(Buckets(cfg, hs[..i]), hs[i].key), hs[i].at)
  {
    assert hs[..i + 1][..i] == hs[..i];
    if i + 1 < |hs| {
      ResultAt(cfg, hs[..|hs| - 1], i);
      assert hs[..|hs| - 1][..i + 1] == hs[..i + 1];
      assert hs[..|hs| - 1][..i] == hs[..i];
    } else {
      assert hs[..i + 1] == hs;
    }
  }

  // ---------------------------------------------------------------- how many hits pass

  predicate InWindow(at: real, from: real, window: int) {
    from <= at < from + window as real
  }

  /** The allowed hits on `key` in the half-open window of time starting at `from`. */
  function AllowedIn(cfg: Config, hs: seq<Hit>, key: string, from: real): nat {
    if hs == [] then 0
    else
      var h := hs[|hs| - 1];
      AllowedIn(cfg, hs[..|hs| - 1], key, from) +
      if h.key == key && InWindow(h.at, from, cfg.window) && Verdict(cfg, LastBucket(cfg, hs), h.at).allowed
      then 1 else 0
  }

  /** What `n` allowed hits in the window starting at `from` can look like when the key's
      bucket is `b` and the clock shows `now`. */
  ghost predicate Accounted(cfg: Config, b: Option<Bucket>, n: nat, from: real, now: real) {
    if b.None? then n == 0
    else
      var passed := if b.value.count < cfg.limit then b.value.count else cfg.limit;
      && 1 <= b.value.count && b.value.start <= now
      && (now < from ==> n == 0)
      && (b.value.start < from ==> n <= passed - 1)
      && (InWindow(b.value.start, from, cfg.window) ==> n <= cfg.limit - 1 + passed)
      && n <= 2 * cfg.limit - 1
  }

  lemma {:induction false} HitsAreAccounted(cfg: Config, hs: seq<Hit>, key: string, from: real, now: real)
    requires cfg.limit >= 1
    requires MonotoneClock(hs)
    requires hs != [] ==> hs[|hs| - 1].at <= now
    ensures Accounted(cfg, BucketOf(Buckets(cfg, hs), key), AllowedIn(cfg, hs, key, from), from, now)
  {
    if hs == [] {
    } else {
      HitsAreAccounted(cfg, hs[..|hs| - 1], key, from, hs[|hs| - 1].at);
    }
  }

  lemma {:induction false} NothingPassesWithoutLimit(cfg: Config, hs: seq<Hit>, key: string, from: real)
    requires cfg.limit < 1
    ensures forall k :: k in Buckets(cfg, hs) ==> Buckets(cfg, hs)[k].count >= 1
    ensures AllowedIn(cfg, hs, key, from) == 0
  {
    if hs == [] {
    } else {
      NothingPassesWithoutLimit(cfg, hs[..|hs| - 1], key, from);
    }
  }

  /** Any stretch of time one window long lets at most `2 * limit - 1` hits of a key
      through: a bucket that straddles its beginning has spent its first hit before it. */
  lemma RateBound(cfg: Config, hs: seq<Hit>, key: string, from: real)
    requires MonotoneClock(hs)
    ensures AllowedIn(cfg, hs, key, from) <= Max(0, 2 * cfg.limit - 1)
  {
    if cfg.limit >= 1 {
      HitsAreAccounted(cfg, hs, key, from, if hs == [] then 0.0 else hs[|hs| - 1].at);
    } else {
      NothingPassesWithoutLimit(cfg, hs, key, from);
    }
  }

  /** The key's bucket and its allowed hits in the window after a run that ends by `now`. */
  ghost predicate Seen(cfg: Config, hs: seq<Hit>, key: string, from: real, b: Bucket, n: nat, now: real) {
    && BucketOf(Buckets(cfg, hs), key) == Some(b) && AllowedIn(cfg, hs, key, from) == n
    && MonotoneClock(hs) && forall i :: 0 <= i < |hs| ==> hs[i].at <= now
  }

  /** One hit that fits into the key's current bucket. */
  lemma FillBucket(cfg: Config, hs: seq<Hit>, h: Hit, from: real, b: Bucket, n: nat)
    requires Seen(cfg, hs, h.key, from, b, n, h.at)
    requires h.at - b.start < cfg.window as real && b.count < cfg.limit
    requires InWindow(h.at, from, cfg.window)
    ensures Seen(cfg, hs + [h], h.key, from, Bucket(b.start, b.count + 1), n + 1, h.at)
  {
    assert (hs + [h])[..|hs|] == hs;
  }

  /** A burst of `more` hits at one instant that fits into the key's current bucket. */
  lemma {:induction false} Burst(cfg: Config, hs: seq<Hit>, h: Hit, from: real, b: Bucket, n: nat, more: nat)
    returns (hs': seq<Hit>)
    requires Seen(cfg, hs, h.key, from, b, n, h.at)
    requires h.at - b.start < cfg.window as real && b.count + more <= cfg.limit
    requires InWindow(h.at, from, cfg.window)
    ensures Seen(cfg, hs', h.key, from, Bucket(b.start, b.count + more), n + more, h.at)
  {
    hs' := hs;
    if more == 0 {
    } else {
      hs' := Burst(cfg, hs, h, from, b, n, more - 1);
      FillBucket(cfg, hs', h, from, Bucket(b.start, b.count + more - 1), n + more - 1);
      hs' := hs' + [h];
    }
  }

  /** One hit that opens a new bucket inside the observed window. */
  lemma OpenBucket(cfg: Config, hs: seq<Hit>, h: Hit, from: real, b: Bucket, n: nat)
    requires Seen(cfg, hs, h.key, from, b, n, h.at)
    requires h.at - b.start >= cfg.window as real && cfg.limit >= 1
    requires InWindow(h.at, from, cfg.window)
    ensures Seen(cfg, hs + [h], h.key, from, Bucket(h.at, 1), n + 1, h.at)
  {
    assert (hs + [h])[..|hs|] == hs;
  }

  /** The bound is attained for every positive limit and window: a hit opens a bucket, the
      rest of its limit arrives just before the window ends, a full limit just after. */
  lemma RateBoundIsTight(cfg: Config, key: string) returns (hs: seq<Hit>, from: real)
    requires cfg.limit >= 1 && cfg.window >= 1
    ensures MonotoneClock(hs)
    ensures AllowedIn(cfg, hs, key, from) == 2 * cfg.limit - 1
  {
    var w, more := cfg.window as real, cfg.limit - 1;
    from := w - 0.5;
    hs := [Hit(key, 0.0)];
    assert hs[..0] == [] && Buckets(cfg, []) == map[] && AllowedIn(cfg, [], key, from) == 0;
    assert Seen(cfg, hs, key, from, Bucket(0.0, 1), 0, w - 0.5);
    hs := Burst(cfg, hs, Hit(key, w - 0.5), from, Bucket(0.0, 1), 0, more);
    OpenBucket(cfg, hs, Hit(key, w), from, Bucket(0.0, 1 + more), more);
    hs := Burst(cfg, hs + [Hit(key, w)], Hit(key, w), from, Bucket(w, 1), more + 1, more);
  }

  // ---------------------------------------------------------------- buckets

  /** The bucket the i-th hit was counted in. */
  function BucketAt(cfg: Config, hs: seq<Hit>, i: nat): Bucket
    requires i < |hs|
  {
    LastBucket(cfg, hs[..i + 1])
  }

  lemma {:induction false} LatestBucket(cfg: Config, hs: seq<Hit>, key: string, i: nat)
    requires MonotoneClock(hs)
    requires i < |hs| && hs[i].key == key
    ensures key in Buckets(cfg, hs)
    ensures
      var b, mine := Buckets(cfg, hs)[key], BucketAt(cfg, hs, i);
      && b.start <= hs[|hs| - 1].at && b.count >= 1 && mine.count >= 1
      && ((b.start == mine.start && b.count >= mine.count) || b.start >= mine.start + cfg.window as real)
  {
    var front := hs[..|hs| - 1];
    if i < |front| {
      LatestBucket(cfg, front, key, i);
      assert front[..i + 1] == hs[..i + 1];
    } else {
      assert hs[..i + 1] == hs;
      BucketsAreOpened(cfg, front);
    }
  }

  lemma {:induction false} BucketsAreOpened(cfg: Config, hs: seq<Hit>)
    requires MonotoneClock(hs)
    ensures hs == [] ==> Buckets(cfg, hs) == map[]
    ensures forall k :: k in Buckets(cfg, hs) ==>
              hs != [] && Buckets(cfg, hs)[k].count >= 1 && Buckets(cfg, hs)[k].start <= hs[|hs| - 1].at
  {
    if hs == [] {
    } else {
      BucketsAreOpened(cfg, hs[..|hs| - 1]);
    }
  }

  /** Two hits of a key either share a bucket, where the later one has a higher count, or
      their buckets start at least one window apart; a bucket allows only its first
      `limit` hits. */
  lemma {:induction false} BucketsAreSpaced(cfg: Config, hs: seq<Hit>, key: string, i: nat, j: nat)
    requires cfg.window >= 1
    requires MonotoneClock(hs)
    requires i < j < |hs| && hs[i].key == key == hs[j].key
    ensures
      var a, b := BucketAt(cfg, hs, i), BucketAt(cfg, hs, j);
      && (a.start == b.start ==> a.count < b.count)
      && (a.start != b.start ==> b.start >= a.start + cfg.window as real)
    ensures Results(cfg, hs)[i].allowed <==> BucketAt(cfg, hs, i).count <= cfg.limit
    ensures Results(cfg, hs)[j].allowed <==> BucketAt(cfg, hs, j).count <= cfg.limit
  {
    LatestBucket(cfg, hs[..j], key, i);
    assert hs[..j][..i + 1] == hs[..i + 1];
    ResultAt(cfg, hs, i);
    ResultAt(cfg, hs, j);
  }

  lemma {:induction false} HitsFillBucket(cfg: Config, hs: seq<Hit>, more: seq<Hit>, key: string, b: Bucket)
    requires BucketOf(Buckets(cfg, hs), key) == Some(b)
    requires forall i :: 0 <= i < |more| ==> more[i].key == key && more[i].at - b.start < cfg.window as real
    ensures BucketOf(Buckets(cfg, hs + more), key) == Some(Bucket(b.start, b.count + |more|))
  {
    if more == [] {
      assert hs + more == hs;
    } else {
      var n := |more| - 1;
      HitsFillBucket(cfg, hs, more[..n], key, b);
      assert (hs + more)[..|hs + more| - 1] == hs + more[..n];
    }
  }

  /** `remaining` is exact: after an allowed hit, that many more hits of the key pass before
      its window ends, and the next one is denied. */
  lemma {:induction false} RemainingIsExact(cfg: Config, hs: seq<Hit>, more: seq<Hit>)
    requires hs != [] && Results(cfg, hs)[|hs| - 1].allowed && more != []
    requires
      var key, b := hs[|hs| - 1].key, LastBucket(cfg, hs);
      forall i :: 0 <= i < |more| ==> more[i].key == key && more[i].at - b.start < cfg.window as real
    ensures
      Results(cfg, hs + more)[|hs + more| - 1].allowed <==>
      |more| <= Results(cfg, hs)[|hs| - 1].remaining
  {
    var key, b, n := hs[|hs| - 1].key, LastBucket(cfg, hs), |more| - 1;
    HitsFillBucket(cfg, hs, more[..n], key, b);
    var all := hs + more;
    assert all[..|all| - 1] == hs + more[..n];
    assert LastBucket(cfg, all) == Bucket(b.start, b.count + |more|);
  }

  // ---------------------------------------------------------------- erasure

  /** Equal windows, and equal counts unless both are past the limit. */
  ghost predicate Alike(cfg: Config, a: Option<Bucket>, b: Option<Bucket>) {
    && (a.Some? <==> b.Some?)
    && (a.Some? ==> a.value.start == b.value.start)
    && (a.Some? ==> a.value.count == b.value.count || (a.value.count >= cfg.limit && b.value.count >= cfg.limit))
  }

  /** Every erased hit was on another key or was denied. */
  ghost predicate Erasable(cfg: Config, hs: seq<Hit>, keep: seq<bool>, key: string) {
    && |keep| == |hs|
    && forall i :: 0 <= i < |hs| && !keep[i] ==> hs[i].key != key || !Results(cfg, hs)[i].allowed
  }

  /** The two lists of results of these hits agree on the key. */
  ghost predicate Agree(hs: seq<Hit>, xs: seq<RateLimitResult>, ys: seq<RateLimitResult>, key: string) {
    |hs| == |xs| == |ys| && forall j :: 0 <= j < |hs| && hs[j].key == key ==> xs[j] == ys[j]
  }

  /** No remaining result of the key changes when the hits outside `keep` are erased. */
  ghost predicate Clean(cfg: Config, hs: seq<Hit>, keep: seq<bool>, key: string)
    requires |keep| == |hs|
  {
    Agree(Kept(hs, keep), Results(cfg, Kept(hs, keep)), Kept(Results(cfg, hs), keep), key)
  }

  lemma AgreeOnOneMore(
    hs: seq<Hit>, h: Hit, xs: seq<RateLimitResult>, x: RateLimitResult, ys: seq<RateLimitResult>, y: RateLimitResult,
    key: string)
    requires Agree(hs, xs, ys, key) && (h.key == key ==> x == y)
    ensures Agree(hs + [h], xs + [x], ys + [y], key)
  {
  }

  lemma AlikeHit(cfg: Config, a: Option<Bucket>, b: Option<Bucket>, now: real)
    requires cfg.limit >= 1 && Alike(cfg, a, b)
    ensures Alike(cfg, Some(Charge(cfg, a, now)), Some(Charge(cfg, b, now)))
    ensures Verdict(cfg, Charge(cfg, a, now), now) == Verdict(cfg, Charge(cfg, b, now), now)
  {
  }

  lemma AlikeDenied(cfg: Config, a: Option<Bucket>, b: Option<Bucket>, now: real)
    requires cfg.limit >= 1 && Alike(cfg, a, b)
    requires !Verdict(cfg, Charge(cfg, a, now), now).allowed
    ensures Alike(cfg, Some(Charge(cfg, a, now)), b)
  {
  }

  /** The bucket a hit that follows a run is counted in. */
  function NextBucket(cfg: Config, hs: seq<Hit>, h: Hit): Bucket {
    Charge(cfg, BucketOf(Buckets(cfg, hs), h.key), h.at)
  }

  lemma HitAppended(cfg: Config, hs: seq<Hit>, h: Hit)
    ensures Buckets(cfg, hs + [h]) == Buckets(cfg, hs)[h.key := NextBucket(cfg, hs, h)]
    ensures Results(cfg, hs + [h]) == Results(cfg, hs) + [Verdict(cfg, NextBucket(cfg, hs, h), h.at)]
  {
    assert (hs + [h])[..|hs|] == hs;
  }

  /** What erasure keeps along a run: clean results so far, and buckets that go on alike. */
  ghost predicate Erases(cfg: Config, hs: seq<Hit>, keep: seq<bool>, key: string)
    requires |keep| == |hs|
  {
    && Clean(cfg, hs, keep, key)
    && Alike(cfg, BucketOf(Buckets(cfg, hs), key), BucketOf(Buckets(cfg, Kept(hs, keep)), key))
  }

  lemma {:induction false} KeptHit(cfg: Config, hs: seq<Hit>, h: Hit, keep: seq<bool>, key: string)
    requires cfg.limit >= 1 && |keep| == |hs| && Erases(cfg, hs, keep, key)
    ensures Erases(cfg, hs + [h], keep + [true], key)
  {
    var ks := Kept(hs, keep);
    var x, y := Verdict(cfg, NextBucket(cfg, ks, h), h.at), Verdict(cfg, NextBucket(cfg, hs, h), h.at);
    HitAppended(cfg, hs, h);
    HitAppended(cfg, ks, h);
    KeptAppends(hs, h, keep, true);
    KeptAppends(Results(cfg, hs), y, keep, true);
    if h.key == key {
      AlikeHit(cfg, BucketOf(Buckets(cfg, hs), key), BucketOf(Buckets(cfg, ks), key), h.at);
    }
    AgreeOnOneMore(ks, h, Results(cfg, ks), x, Kept(Results(cfg, hs), keep), y, key);
  }

  lemma {:induction false} ErasedHit(cfg: Config, hs: seq<Hit>, h: Hit, keep: seq<bool>, key: string)
    requires cfg.limit >= 1 && |keep| == |hs| && Erases(cfg, hs, keep, key)
    requires h.key != key || !Verdict(cfg, NextBucket(cfg, hs, h), h.at).allowed
    ensures Erases(cfg, hs + [h], keep + [false], key)
  {
    var ks := Kept(hs, keep);
    HitAppended(cfg, hs, h);
    KeptAppends(hs, h, keep, false);
    KeptAppends(Results(cfg, hs), Verdict(cfg, NextBucket(cfg, hs, h), h.at), keep, false);
    if h.key == key {
      AlikeDenied(cfg, BucketOf(Buckets(cfg, hs), key), BucketOf(Buckets(cfg, ks), key), h.at);
    }
  }

  /** Erasing any denied hits of a key and any hits of other keys changes no remaining
      result of the key. */
  lemma {:induction false} RateErasure(cfg: Config, hs: seq<Hit>, keep: seq<bool>, key: string)
    requires cfg.limit >= 1
    requires Erasable(cfg, hs, keep, key)
    ensures Erases(cfg, hs, keep, key)
  {
    if hs == [] {
    } else {
      var front, h, n := hs[..|hs| - 1], hs[|hs| - 1], |hs| - 1;
      assert hs == front + [h] && keep == keep[..n] + [keep[n]];
      HitAppended(cfg, front, h);
      RateErasure(cfg, front, keep[..n], key);
      if keep[n] {
        KeptHit(cfg, front, h, keep[..n], key);
      } else {
        ErasedHit(cfg, front, h, keep[..n], key);
      }
    }
  }

  /** Without a window every hit opens its own bucket. */
  lemma {:induction false} NoWindow(cfg: Config, hs: seq<Hit>, i: nat)
    requires cfg.window <= 0 && MonotoneClock(hs) && i < |hs|
    ensures Results(cfg, hs)[i] == Verdict(cfg, Bucket(hs[i].at, 1), hs[i].at)
  {
    ResultAt(cfg, hs, i);
    BucketsAreOpened(cfg, hs[..i]);
  }

  lemma {:induction false} KeptPointwise<A, B>(xs: seq<A>, ys: seq<B>, f: A -> B, keep: seq<bool>)
    requires |xs| == |ys| == |keep| && forall i :: 0 <= i < |xs| ==> ys[i] == f(xs[i])
    ensures |Kept(xs, keep)| == |Kept(ys, keep)|
    ensures forall j :: 0 <= j < |Kept(xs, keep)| ==> Kept(ys, keep)[j] == f(Kept(xs, keep)[j])
  {
    if xs == [] {
    } else {
      KeptPointwise(xs[..|xs| - 1], ys[..|ys| - 1], f, keep[..|keep| - 1]);
    }
  }

  lemma {:induction false} KeptIsMonotone(hs: seq<Hit>, keep: seq<bool>, now: real)
    requires |keep| == |hs| && MonotoneClock(hs) && forall i :: 0 <= i < |hs| ==> hs[i].at <= now
    ensures MonotoneClock(Kept(hs, keep))
    ensures forall j :: 0 <= j < |Kept(hs, keep)| ==> Kept(hs, keep)[j].at <= now
  {
    if hs == [] {
    } else {
      KeptIsMonotone(hs[..|hs| - 1], keep[..|keep| - 1], hs[|hs| - 1].at);
    }
  }

  lemma {:induction false} ErasureWithoutWindow(cfg: Config, hs: seq<Hit>, keep: seq<bool>, key: string)
    requires cfg.window <= 0 && MonotoneClock(hs) && |keep| == |hs|
    ensures Clean(cfg, hs, keep, key)
  {
    var f := (h: Hit) => Verdict(cfg, Bucket(h.at, 1), h.at);
    var ks := Kept(hs, keep);
    KeptIsMonotone(hs, keep, if hs == [] then 0.0 else hs[|hs| - 1].at);
    forall i | 0 <= i < |hs|
      ensures Results(cfg, hs)[i] == f(hs[i])
    {
      NoWindow(cfg, hs, i);
    }
    forall j | 0 <= j < |ks|
      ensures Results(cfg, ks)[j] == f(ks[j])
    {
      NoWindow(cfg, ks, j);
    }
    KeptPointwise(hs, Results(cfg, hs), f, keep);
  }

  function Denied(retryAfter: int): RateLimitResult {
    RateLimitResult(false, 0, retryAfter)
  }

  lemma {:induction false} WaitsWithoutLimit(cfg: Config, h0: Hit, h1: Hit)
    requires cfg.limit < 1 && cfg.window >= 1
    requires h0.key == h1.key && h0.at == 0.0 && h1.at == 0.5
    ensures Results(cfg, [h0, h1]) == [Denied(cfg.window + 1), Denied(cfg.window)]
    ensures Results(cfg, [h1]) == [Denied(cfg.window + 1)]
  {
    HitAppended(cfg, [], h0);
    HitAppended(cfg, [], h1);
    HitAppended(cfg, [h0], h1);
    assert [] + [h0] == [h0] && [] + [h1] == [h1] && [h0] + [h1] == [h0, h1];
    assert NextBucket(cfg, [h0], h1) == Bucket(0.0, 2);
    assert Verdict(cfg, Bucket(0.0, 2), 0.5) == Denied(cfg.window);
  }

  lemma {:induction false} KeptSecond<A>(xs: seq<A>, keep: seq<bool>)
    requires |xs| == |keep| == 2 && !keep[0] && keep[1]
    ensures Kept(xs, keep) == [xs[1]]
  {
    assert xs[..1][..0] == [] && keep[..1][..0] == [];
  }

  lemma {:induction false} ChangedResult(
    cfg: Config, hs: seq<Hit>, keep: seq<bool>, ks: seq<Hit>, rs: seq<RateLimitResult>, key: string)
    requires |keep| == |hs| && Kept(hs, keep) == ks && Kept(Results(cfg, hs), keep) == rs
    requires ks != [] && rs != [] && ks[0].key == key && Results(cfg, ks)[0] != rs[0]
    ensures !Clean(cfg, hs, keep, key)
  {
  }

  /** Without a positive limit a denied hit opens the bucket, so erasing it moves the waiting
      time of the next one from `window` to `window + 1` seconds. */
  lemma {:induction false} ErasureMovesTheWait(cfg: Config, hs: seq<Hit>, keep: seq<bool>, key: string)
    requires cfg.limit < 1 && cfg.window >= 1
    requires |hs| == |keep| == 2 && !keep[0] && keep[1]
    requires hs[0] == Hit(key, 0.0) && hs[1] == Hit(key, 0.5)
    ensures MonotoneClock(hs) && Erasable(cfg, hs, keep, key) && !Clean(cfg, hs, keep, key)
  {
    assert hs == [hs[0], hs[1]];
    WaitsWithoutLimit(cfg, hs[0], hs[1]);
    KeptSecond(hs, keep);
    KeptSecond(Results(cfg, hs), keep);
    ChangedResult(cfg, hs, keep, [hs[1]], [Denied(cfg.window)], key);
  }

  /** Erasure is clean for every run exactly if the limit is positive or there is no window. */
  lemma ErasureIsCleanExactly(cfg: Config)
    ensures
      (forall hs, keep, key :: MonotoneClock(hs) && Erasable(cfg, hs, keep, key) ==> Clean(cfg, hs, keep, key))
      <==> cfg.limit >= 1 || cfg.window <= 0
  {
    if cfg.limit >= 1 || cfg.window <= 0 {
      forall hs, keep, key | MonotoneClock(hs) && Erasable(cfg, hs, keep, key)
        ensures Clean(cfg, hs, keep, key)
      {
        if cfg.limit >= 1 {
          RateErasure(cfg, hs, keep, key);
        } else {
          ErasureWithoutWindow(cfg, hs, keep, key);
        }
      }
    } else {
      var hs, keep := [Hit("k", 0.0), Hit("k", 0.5)], [false, true];
      ErasureMovesTheWait(cfg, hs, keep, "k");
      assert MonotoneClock(hs) && Erasable(cfg, hs, keep, "k") && !Clean(cfg, hs, keep, "k");
    }
  }

  // ---------------------------------------------------------------- waiting

  /** `int()` drops the fraction and keeps the sign. */
  lemma TruncateDropsTheFraction(x: real, n: int)
    ensures n == Truncate(x) <==>
            if x >= 0.0 then n as real <= x < n as real + 1.0 else n as real - 1.0 < x <= n as real
  {
    if x < 0.0 {
      assert (-x).Floor as real <= -x < (-x).Floor as real + 1.0;
    }
  }

  /** A denied hit names a whole wait between one second and one second more than the window.
      The key's next hit, whatever other keys do meanwhile, passes exactly if it comes no
      earlier than some moment `rest` after the denied one, and the wait that was named is
      the least whole number of seconds above `rest`. */
  lemma {:induction false} WaitIsLeast(cfg: Config, hs: seq<Hit>) returns (rest: real)
    requires cfg.limit >= 1 && cfg.window >= 1
    requires hs != [] && MonotoneClock(hs)
    requires !Results(cfg, hs)[|hs| - 1].allowed
    ensures
      var wait := Results(cfg, hs)[|hs| - 1].retryAfter;
      1 <= wait <= cfg.window + 1 && (wait - 1) as real <= rest < wait as real
    ensures forall more, next ::
              OthersBetween(more, hs[|hs| - 1].key, next) ==>
              (Results(cfg, hs + more + [next])[|hs + more|].allowed <==> next.at >= hs[|hs| - 1].at + rest)
  {
    var h := hs[|hs| - 1];
    LatestBucket(cfg, hs, h.key, |hs| - 1);
    var b := Buckets(cfg, hs)[h.key];
    assert b == LastBucket(cfg, hs);
    rest := b.start + cfg.window as real - h.at;
    TruncateDropsTheFraction(rest, Truncate(rest));
    forall more, next | OthersBetween(more, h.key, next)
      ensures Results(cfg, hs + more + [next])[|hs + more|].allowed <==> next.at >= h.at + rest
    {
      OtherKeysLeaveBucket(cfg, hs, more, h.key);
      HitAppended(cfg, hs + more, next);
    }
  }

  /** Hits of other keys, and then one of `key`. */
  predicate OthersBetween(more: seq<Hit>, key: string, next: Hit) {
    next.key == key && forall h :: h in more ==> h.key != key
  }

  /** So the key's next hit after the wait it was told passes. */
  lemma {:induction false} WaitingIsEnough(cfg: Config, hs: seq<Hit>, more: seq<Hit>, next: Hit)
    requires cfg.limit >= 1 && cfg.window >= 1
    requires hs != [] && MonotoneClock(hs)
    requires !Results(cfg, hs)[|hs| - 1].allowed
    requires OthersBetween(more, hs[|hs| - 1].key, next)
    requires next.at >= hs[|hs| - 1].at + Results(cfg, hs)[|hs| - 1].retryAfter as real
    ensures 1 <= Results(cfg, hs)[|hs| - 1].retryAfter <= cfg.window + 1
    ensures Results(cfg, hs + more + [next])[|hs + more|].allowed
  {
    var rest := WaitIsLeast(cfg, hs);
  }

  lemma {:induction false} OtherKeysLeaveBucket(cfg: Config, hs: seq<Hit>, more: seq<Hit>, key: string)
    requires forall h :: h in more ==> h.key != key
    ensures BucketOf(Buckets(cfg, hs + more), key) == BucketOf(Buckets(cfg, hs), key)
  {
    if more == [] {
      assert hs + more == hs;
    } else {
      OtherKeysLeaveBucket(cfg, hs, more[..|more| - 1], key);
      assert (hs + more)[..|hs + more| - 1] == hs + more[..|more| - 1];
    }
  }
}
