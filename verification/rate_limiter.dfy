/** The per-key token bucket of the internal API (internal/server/rate_limiter.go).
    Time is an integer count of nanoseconds and tokens are counted in units of 1e-9
    token, so refilling by `elapsed seconds * qps` is exact integer arithmetic. */
module RateLimiter {

  const NANO: int := 1_000_000_000
  const CLEANUP_SIZE := 10000
  const IDLE_CUTOFF: int := 600 * NANO

  datatype Config = Config(enabled: bool, qps: int, burst: int)

  datatype Params = Params(qps: int, burst: int) {
    function Cap(): int { burst * NANO }
  }

  /** The rate and burst the limiter runs with: both positive, whatever was configured. */
  function Defaults(cfg: Config): (p: Params)
    ensures p.qps >= 1 && p.burst >= 1
    ensures cfg.qps >= 1 ==> p.qps == cfg.qps
    ensures cfg.burst >= 1 ==> p.burst == cfg.burst
    ensures cfg.qps <= 0 ==> p.qps == 100
    ensures cfg.burst <= 0 ==> p.burst == 2 * p.qps
  {
    var qps := if cfg.qps <= 0 then 100 else cfg.qps;
    Params(qps, if cfg.burst <= 0 then qps * 2 else cfg.burst)
  }

  datatype Bucket = Bucket(tokens: int, last: int)

  type Buckets = map<string, Bucket>

  datatype Call = Call(key: string, now: int)

  datatype Outcome = Outcome(buckets: Buckets, ok: bool)

  function EffectiveKey(key: string): string {
    if key == "" then "anonymous" else key
  }

  function Refill(p: Params, b: Bucket, now: int): int {
    var tokens := b.tokens + (now - b.last) * p.qps;
    if tokens > p.Cap() then p.Cap() else tokens
  }

  function DropIdle(buckets: Buckets, now: int): Buckets {
    map k | k in buckets && !(buckets[k].last < now - IDLE_CUTOFF) :: buckets[k]
  }

  /** One call on the bucket map.  `clean` chooses between the limiter as written and
      the reference limiter that never deletes a bucket. */
  function Step(p: Params, clean: bool, buckets: Buckets, c: Call): Outcome {
    var key := EffectiveKey(c.key);
    if key !in buckets then
      Outcome(buckets[key := Bucket((p.burst - 1) * NANO, c.now)], true)
    else
      var tokens := Refill(p, buckets[key], c.now);
      if tokens < NANO then
        Outcome(buckets[key := Bucket(tokens, c.now)], false)
      else
        var taken := buckets[key := Bucket(tokens - NANO, c.now)];
        Outcome(if clean && |taken| > CLEANUP_SIZE then DropIdle(taken, c.now) else taken, true)
  }

  /** The bucket map after a call history, starting from no buckets. */
  function Final(p: Params, clean: bool, calls: seq<Call>): Buckets {
    if calls == [] then map[]
    else Step(p, clean, Final(p, clean, calls[..|calls| - 1]), calls[|calls| - 1]).buckets
  }

  /** The answers given along a call history. */
  function Answers(p: Params, clean: bool, calls: seq<Call>): (r: seq<bool>)
    ensures |r| == |calls|
  {
    if calls == [] then []
    else
      var n := |calls| - 1;
      Answers(p, clean, calls[..n]) + [Step(p, clean, Final(p, clean, calls[..n]), calls[n]).ok]
  }

  class TokenBucketLimiter {
    const p: Params
    var buckets: Buckets

    constructor (p: Params)
      ensures this.p == p && buckets == map[]
    {
      this.p := p;
      buckets := map[];
    }

    method Allow(key: string, now: int) returns (ok: bool)
      modifies this
      ensures Outcome(buckets, ok) == Step(p, true, old(buckets), Call(key, now))
    {
      var k := EffectiveKey(key);
      if k !in buckets {
        buckets := buckets[k := Bucket((p.burst - 1) * NANO, now)];
        return true;
      }
      var b := buckets[k];
      var tokens := b.tokens + (now - b.last) * p.qps;
      if tokens > p.Cap() {
        tokens := p.Cap();
      }
      if tokens < NANO {
        buckets := buckets[k := Bucket(tokens, now)];
        return false;
      }
      buckets := buckets[k := Bucket(tokens - NANO, now)];
      if |buckets| > CLEANUP_SIZE {
        DeleteIdle(now);
      }
      return true;
    }

    method DeleteIdle(now: int)
      modifies this
      ensures buckets == DropIdle(old(buckets), now)
    {
      var todo := buckets.Keys;
      while todo != {}
        invariant todo <= buckets.Keys <= old(buckets).Keys
        invariant forall k :: k in buckets ==> buckets[k] == old(buckets)[k]
        invariant forall k :: k in old(buckets) && k !in todo ==>
          (k in buckets <==> !(old(buckets)[k].last < now - IDLE_CUTOFF))
        decreases todo
      {
        var k :| k in todo;
        if buckets[k].last < now - IDLE_CUTOFF {
          buckets := buckets - {k};
        }
        todo := todo - {k};
      }
    }
  }

  /** newTokenBucketLimiter and allowRate: a disabled limiter is null and lets all through. */
  method NewLimiter(cfg: Config) returns (l: TokenBucketLimiter?)
    ensures l == null <==> !cfg.enabled
    ensures l != null ==> fresh(l) && l.p == Defaults(cfg) && l.buckets == map[]
  {
    if !cfg.enabled {
      return null;
    }
    l := new TokenBucketLimiter(Defaults(cfg));
  }

  method AllowRate(l: TokenBucketLimiter?, key: string, now: int) returns (ok: bool)
    modifies l
    ensures l == null ==> ok
    ensures l != null ==> Outcome(l.buckets, ok) == Step(l.p, true, old(l.buckets), Call(key, now))
  {
    if l == null {
      return true;
    }
    ok := l.Allow(key, now);
  }
}

/** What the limiter promises over whole call histories. */
module RateLimiterLaws {
  import opened RateLimiter

  /** The calls with index in [j, k) that were on `key` and were allowed. */
  function Admitted(calls: seq<Call>, answers: seq<bool>, key: string, j: nat, k: nat): nat
    requires k <= |calls| == |answers|
  {
    if k <= j then 0
    else Admitted(calls, answers, key, j, k - 1)
         + if EffectiveKey(calls[k - 1].key) == key && answers[k - 1] then 1 else 0
  }

  lemma {:induction false} AdmittedFront(calls: seq<Call>, answers: seq<bool>, key: string, j: nat, k: nat)
    requires j < k <= |calls| == |answers|
    ensures Admitted(calls, answers, key, j, k)
         == Admitted(calls, answers, key, j + 1, k)
            + if EffectiveKey(calls[j].key) == key && answers[j] then 1 else 0
  {
    if j < k - 1 {
      AdmittedFront(calls, answers, key, j, k - 1);
    }
  }

  lemma {:induction false} AnswersPrefix(p: Params, clean: bool, calls: seq<Call>, n: nat)
    requires n <= |calls|
    ensures Answers(p, clean, calls)[..n] == Answers(p, clean, calls[..n])
    ensures n < |calls| ==>
      Answers(p, clean, calls)[n] == Step(p, clean, Final(p, clean, calls[..n]), calls[n]).ok
  {
    if n < |calls| {
      var m := |calls| - 1;
      AnswersPrefix(p, clean, calls[..m], n);
      assert calls[..m][..n] == calls[..n];
      if n == m {
        assert calls[..m] == calls[..n];
      }
    } else {
      assert calls[..n] == calls;
    }
  }

  /** The history after one more call. */
  lemma FinalSnoc(p: Params, clean: bool, calls: seq<Call>, n: nat)
    requires n < |calls|
    ensures Final(p, clean, calls[..n + 1]) == Step(p, clean, Final(p, clean, calls[..n]), calls[n]).buckets
  {
    assert calls[..n + 1][..n] == calls[..n];
  }

  predicate On(calls: seq<Call>, key: string, j: nat)
    requires j < |calls|
  {
    EffectiveKey(calls[j].key) == key
  }

  predicate Called(calls: seq<Call>, key: string, n: nat)
    requires n <= |calls|
  {
    exists j: nat :: j < n && On(calls, key, j)
  }

  /** The call that opened the bucket that call n finds under `key`; n itself if it finds none. */
  function Birth(p: Params, clean: bool, calls: seq<Call>, key: string, n: nat): (birth: nat)
    requires n <= |calls|
    ensures birth <= n
  {
    if n == 0 || key !in Final(p, clean, calls[..n]) then n
    else if key in Final(p, clean, calls[..n - 1]) then Birth(p, clean, calls, key, n - 1)
    else n - 1
  }

  /** What is left, at time `at`, of the credit of the window that call j opens and that
      has seen the calls before call k: burst + qps * length - admitted. */
  function Credit(p: Params, calls: seq<Call>, answers: seq<bool>, key: string, j: nat, k: nat, at: int): int
    requires j < |calls| && k <= |calls| == |answers|
  {
    p.Cap() + p.qps * (at - calls[j].now) - NANO * Admitted(calls, answers, key, j, k)
  }

  /** `tokens` is, at time `at`, the least credit over the windows opened by the calls with
      index in [from, m), each having seen the first k calls. */
  ghost predicate LeastCredit(p: Params, calls: seq<Call>, answers: seq<bool>, key: string,
                              from: nat, m: nat, k: nat, tokens: int, at: int)
    requires m <= |calls| && k <= |calls| == |answers|
  {
    && (forall j: nat :: from <= j < m && On(calls, key, j) ==> tokens <= Credit(p, calls, answers, key, j, k, at))
    && exists j: nat :: from <= j < m && On(calls, key, j) && tokens == Credit(p, calls, answers, key, j, k, at)
  }

  lemma CreditLater(p: Params, calls: seq<Call>, answers: seq<bool>, key: string, j: nat, k: nat, at: int, later: int)
    requires j < |calls| && k <= |calls| == |answers|
    ensures Credit(p, calls, answers, key, j, k, later)
         == Credit(p, calls, answers, key, j, k, at) + (later - at) * p.qps
  {
  }

  /** Refilling and capping a bucket holds the least credit once the new call opens a window too. */
  lemma RefillIsLeastCredit(p: Params, calls: seq<Call>, answers: seq<bool>, key: string, from: nat, n: nat, b: Bucket)
    requires from <= n < |calls| == |answers| && On(calls, key, n)
    requires LeastCredit(p, calls, answers, key, from, n, n, b.tokens, b.last)
    ensures LeastCredit(p, calls, answers, key, from, n + 1, n, Refill(p, b, calls[n].now), calls[n].now)
  {
    var now := calls[n].now;
    forall j: nat | j < n {
      CreditLater(p, calls, answers, key, j, n, b.last, now);
    }
    assert Credit(p, calls, answers, key, n, n, now) == p.Cap();
    var j: nat :| from <= j < n && On(calls, key, j) && b.tokens == Credit(p, calls, answers, key, j, n, b.last);
    var w := if Refill(p, b, now) == p.Cap() then n else j;
    assert On(calls, key, w) && Refill(p, b, now) == Credit(p, calls, answers, key, w, n, now);
  }

  /** Taking a token, or being refused, moves every window by the same amount. */
  lemma TakeKeepsLeastCredit(p: Params, calls: seq<Call>, answers: seq<bool>, key: string, from: nat, n: nat, tokens: int)
    requires n < |calls| == |answers| && On(calls, key, n)
    requires LeastCredit(p, calls, answers, key, from, n + 1, n, tokens, calls[n].now)
    ensures LeastCredit(p, calls, answers, key, from, n + 1, n + 1,
                        if answers[n] then tokens - NANO else tokens, calls[n].now)
  {
    var now, taken := calls[n].now, if answers[n] then NANO else 0;
    forall j: nat | j < n + 1 ensures Credit(p, calls, answers, key, j, n + 1, now)
                                   == Credit(p, calls, answers, key, j, n, now) - taken {
    }
    var j: nat :| from <= j < n + 1 && On(calls, key, j) && tokens == Credit(p, calls, answers, key, j, n, now);
    assert tokens - taken == Credit(p, calls, answers, key, j, n + 1, now);
  }

  /** The call that opens a bucket opens its only window: the full burst. */
  lemma BirthHasFullCredit(p: Params, calls: seq<Call>, answers: seq<bool>, key: string, n: nat)
    requires n < |calls| == |answers| && On(calls, key, n)
    ensures LeastCredit(p, calls, answers, key, n, n + 1, n, p.Cap(), calls[n].now)
  {
    assert Credit(p, calls, answers, key, n, n, calls[n].now) == p.Cap();
  }

  /** A call on another key leaves every window of this key alone. */
  lemma OtherCallKeepsLeastCredit(p: Params, calls: seq<Call>, answers: seq<bool>, key: string, from: nat, n: nat,
                                  tokens: int, at: int)
    requires n < |calls| == |answers| && !On(calls, key, n)
    requires LeastCredit(p, calls, answers, key, from, n, n, tokens, at)
    ensures LeastCredit(p, calls, answers, key, from, n + 1, n + 1, tokens, at)
  {
    forall j: nat | j < n
      ensures Credit(p, calls, answers, key, j, n + 1, at) == Credit(p, calls, answers, key, j, n, at) {
    }
    var j: nat :| from <= j < n && On(calls, key, j) && tokens == Credit(p, calls, answers, key, j, n, at);
    assert tokens == Credit(p, calls, answers, key, j, n + 1, at);
  }

  /** What one call does to its own bucket, cleanup or not, and to another bucket that stays. */
  lemma StepBucket(p: Params, clean: bool, before: Buckets, c: Call, key: string)
    ensures var out := Step(p, clean, before, c);
      if key == EffectiveKey(c.key) then
        var tokens := if key in before then Refill(p, before[key], c.now) else p.Cap();
        key in out.buckets && out.buckets[key] == Bucket(if out.ok then tokens - NANO else tokens, c.now)
        && (key in before ==> (out.ok <==> tokens >= NANO)) && (key !in before ==> out.ok)
      else key in out.buckets ==> key in before && out.buckets[key] == before[key]
  {
    hide Refill;
  }

  /** What call n finds in its bucket, after refilling, is the least credit of the windows
      opened since that bucket was. */
  lemma {:induction false} TokensAtCall(p: Params, clean: bool, calls: seq<Call>, n: nat)
    requires n < |calls|
    ensures var key, before := EffectiveKey(calls[n].key), Final(p, clean, calls[..n]);
            LeastCredit(p, calls, Answers(p, clean, calls), key, Birth(p, clean, calls, key, n), n + 1, n,
                        if key in before then Refill(p, before[key], calls[n].now) else p.Cap(), calls[n].now)
    decreases n, 1
  {
    var key, before, answers := EffectiveKey(calls[n].key), Final(p, clean, calls[..n]), Answers(p, clean, calls);
    if key in before {
      BucketClosedForm(p, clean, calls, key, n);
      RefillIsLeastCredit(p, calls, answers, key, Birth(p, clean, calls, key, n), n, before[key]);
    } else {
      BirthHasFullCredit(p, calls, answers, key, n);
    }
  }

  /** Closed form of a bucket: in every run, at any rate and however the timestamps are
      ordered, its level is the least credit over the windows opened since it was. */
  lemma {:induction false} BucketClosedForm(p: Params, clean: bool, calls: seq<Call>, key: string, n: nat)
    requires n <= |calls| && key in Final(p, clean, calls[..n])
    ensures var b := Final(p, clean, calls[..n])[key];
            LeastCredit(p, calls, Answers(p, clean, calls), key, Birth(p, clean, calls, key, n), n, n, b.tokens, b.last)
    decreases n, 0
  {
    hide LeastCredit, Refill, Answers, Step;
    assert n > 0;
    var m := n - 1;
    var answers, before := Answers(p, clean, calls), Final(p, clean, calls[..m]);
    var from := Birth(p, clean, calls, key, n);
    FinalSnoc(p, clean, calls, m);
    AnswersPrefix(p, clean, calls, m);
    StepBucket(p, clean, before, calls[m], key);
    if On(calls, key, m) {
      TokensAtCall(p, clean, calls, m);
      TakeKeepsLeastCredit(p, calls, answers, key, from, m,
                           if key in before then Refill(p, before[key], calls[m].now) else p.Cap());
    } else {
      BucketClosedForm(p, clean, calls, key, m);
      OtherCallKeepsLeastCredit(p, calls, answers, key, from, m, before[key].tokens, before[key].last);
    }
  }

  /** The window opened by call j still holds one whole token when call k comes. */
  predicate WindowHasToken(p: Params, calls: seq<Call>, answers: seq<bool>, j: nat, k: nat)
    requires j < |calls| && k < |calls| == |answers|
  {
    NANO * (1 + Admitted(calls, answers, EffectiveKey(calls[k].key), j, k))
      <= p.burst * NANO + p.qps * (calls[k].now - calls[j].now)
  }

  lemma TokenIffCredit(p: Params, calls: seq<Call>, answers: seq<bool>, j: nat, k: nat)
    requires j < |calls| && k < |calls| == |answers|
    ensures WindowHasToken(p, calls, answers, j, k)
       <==> Credit(p, calls, answers, EffectiveKey(calls[k].key), j, k, calls[k].now) >= NANO
  {
  }

  /** The exact law of every run, at any rate and with any timestamps: a call is allowed if and
      only if every window that a call on the same key has opened since its bucket was opened
      still holds one whole token. */
  lemma ExactLaw(p: Params, clean: bool, calls: seq<Call>, k: nat)
    requires p.burst >= 1 && k < |calls|
    ensures var answers, key := Answers(p, clean, calls), EffectiveKey(calls[k].key);
            answers[k] <==> forall j: nat :: Birth(p, clean, calls, key, k) <= j <= k && On(calls, key, j) ==>
                              WindowHasToken(p, calls, answers, j, k)
  {
    hide Answers, Birth, Step, Refill;
    var answers, key, before := Answers(p, clean, calls), EffectiveKey(calls[k].key), Final(p, clean, calls[..k]);
    AnswersPrefix(p, clean, calls, k);
    StepBucket(p, clean, before, calls[k], key);
    TokensAtCall(p, clean, calls, k);
    forall j: nat | j <= k {
      TokenIffCredit(p, calls, answers, j, k);
    }
  }

  /** Up to call n no bucket of `key` has been deleted. */
  ghost predicate Kept(p: Params, clean: bool, calls: seq<Call>, key: string, n: nat)
    requires n <= |calls|
  {
    forall m: nat :: m <= n && Called(calls, key, m) ==> key in Final(p, clean, calls[..m])
  }

  /** A bucket that has not been deleted was opened by the first call on its key. */
  lemma {:induction false} KeptIsBornFirst(p: Params, clean: bool, calls: seq<Call>, key: string, n: nat)
    requires n <= |calls| && Kept(p, clean, calls, key, n)
    ensures forall j: nat :: j < Birth(p, clean, calls, key, n) ==> !On(calls, key, j)
  {
    hide Final, Called;
    if n > 0 {
      KeptIsBornFirst(p, clean, calls, key, n - 1);
      CalledNow(calls, key, n);
    }
  }

  lemma CalledNow(calls: seq<Call>, key: string, n: nat)
    requires n <= |calls|
    ensures !Called(calls, key, n) <==> forall j: nat :: j < n ==> !On(calls, key, j)
  {
  }

  /** The law for a bucket that is not deleted, over all calls on its key. */
  lemma KeptLaw(p: Params, clean: bool, calls: seq<Call>, k: nat)
    requires p.burst >= 1 && k < |calls| && Kept(p, clean, calls, EffectiveKey(calls[k].key), k)
    ensures var answers := Answers(p, clean, calls);
            answers[k] <==> forall j: nat :: j <= k && On(calls, EffectiveKey(calls[k].key), j) ==>
                              WindowHasToken(p, calls, answers, j, k)
  {
    hide Kept, Birth, WindowHasToken, On, Answers;
    ExactLaw(p, clean, calls, k);
    KeptIsBornFirst(p, clean, calls, EffectiveKey(calls[k].key), k);
  }

  lemma StepKeepsKeys(p: Params, before: Buckets, c: Call)
    ensures Step(p, false, before, c).buckets.Keys == before.Keys + {EffectiveKey(c.key)}
  {
  }

  /** The limiter that never deletes keeps every bucket. */
  lemma {:induction false} NeverDeletedIsKept(p: Params, calls: seq<Call>, key: string, n: nat)
    requires n <= |calls|
    ensures Kept(p, false, calls, key, n)
  {
    hide Final, Step;
    if n > 0 {
      NeverDeletedIsKept(p, calls, key, n - 1);
      FinalSnoc(p, false, calls, n - 1);
      StepKeepsKeys(p, Final(p, false, calls[..n - 1]), calls[n - 1]);
      assert Called(calls, key, n) ==> Called(calls, key, n - 1) || On(calls, key, n - 1);
    }
  }

  predicate ClockNeverGoesBack(calls: seq<Call>) {
    forall i, j :: 0 <= i <= j < |calls| ==> calls[i].now <= calls[j].now
  }

  /** No call in the window [j, k] is older than the bucket that call k finds. */
  predicate OneBucket(p: Params, clean: bool, calls: seq<Call>, key: string, j: nat, k: nat)
    requires k <= |calls|
  {
    forall i: nat :: j <= i < Birth(p, clean, calls, key, k) ==> !On(calls, key, i)
  }

  lemma BirthGrows(p: Params, clean: bool, calls: seq<Call>, key: string, k: nat)
    requires 0 < k <= |calls|
    ensures Birth(p, clean, calls, key, k - 1) <= Birth(p, clean, calls, key, k)
  {
    hide Final;
  }

  /** The calls of window [j, k] admit no more of a key than burst + qps * (the window's length). */
  predicate WithinBound(p: Params, calls: seq<Call>, answers: seq<bool>, key: string, j: nat, k: nat)
    requires j <= k < |calls| == |answers|
  {
    NANO * Admitted(calls, answers, key, j, k + 1) <= p.burst * NANO + p.qps * (calls[k].now - calls[j].now)
  }

  /** A call that admits nothing of the key may end a window, or start one. */
  lemma EndBound(p: Params, calls: seq<Call>, answers: seq<bool>, key: string, j: nat, k: nat)
    requires p.burst >= 1 && p.qps >= 0 && j <= k < |calls| == |answers| && calls[if j < k then k - 1 else k].now <= calls[k].now
    requires !(On(calls, key, k) && answers[k]) && (j < k ==> WithinBound(p, calls, answers, key, j, k - 1))
    ensures WithinBound(p, calls, answers, key, j, k)
  {
    if j < k {
      ScaleMonotone(p.qps, calls[k - 1].now - calls[j].now, calls[k].now - calls[j].now);
    }
  }

  lemma StartBound(p: Params, calls: seq<Call>, answers: seq<bool>, key: string, j: nat, k: nat)
    requires p.qps >= 0 && j < k < |calls| == |answers| && calls[j].now <= calls[j + 1].now
    requires !On(calls, key, j) && WithinBound(p, calls, answers, key, j + 1, k)
    ensures WithinBound(p, calls, answers, key, j, k)
  {
    AdmittedFront(calls, answers, key, j, k + 1);
    ScaleMonotone(p.qps, calls[k].now - calls[j + 1].now, calls[k].now - calls[j].now);
  }

  lemma AdmittedBound(p: Params, calls: seq<Call>, answers: seq<bool>, key: string, j: nat, k: nat)
    requires j <= k < |calls| == |answers| && On(calls, key, k) && WindowHasToken(p, calls, answers, j, k)
    ensures WithinBound(p, calls, answers, key, j, k)
  {
  }

  /** Even with timestamps out of order, a window that a call on a key opens and an admitted call
      on it ends is within the bound, if one bucket serves both. */
  lemma AdmittedWindow(p: Params, clean: bool, calls: seq<Call>, key: string, j: nat, k: nat)
    requires p.burst >= 1 && j <= k < |calls| && Birth(p, clean, calls, key, k) <= j
    requires On(calls, key, j) && On(calls, key, k) && Answers(p, clean, calls)[k]
    ensures WithinBound(p, calls, Answers(p, clean, calls), key, j, k)
  {
    hide Answers, Birth, WithinBound, WindowHasToken;
    ExactLaw(p, clean, calls, k);
    AdmittedBound(p, calls, Answers(p, clean, calls), key, j, k);
  }

  /** With a clock that never goes back, a window [j, k] of calls, on whatever keys, that one
      bucket of a key serves is within the bound of that key. */
  lemma {:induction false} WindowBound(p: Params, clean: bool, calls: seq<Call>, key: string, j: nat, k: nat)
    requires p.burst >= 1 && p.qps >= 0 && ClockNeverGoesBack(calls)
    requires j <= k < |calls| && OneBucket(p, clean, calls, key, j, k)
    ensures WithinBound(p, calls, Answers(p, clean, calls), key, j, k)
    decreases k - j
  {
    hide Answers, Birth, WithinBound, WindowHasToken;
    var answers := Answers(p, clean, calls);
    if !(On(calls, key, k) && answers[k]) {
      if j < k {
        BirthGrows(p, clean, calls, key, k);
        WindowBound(p, clean, calls, key, j, k - 1);
      }
      EndBound(p, calls, answers, key, j, k);
    } else if !On(calls, key, j) {
      WindowBound(p, clean, calls, key, j + 1, k);
      StartBound(p, calls, answers, key, j, k);
    } else {
      AdmittedWindow(p, clean, calls, key, j, k);
    }
  }

  lemma ScaleMonotone(q: int, a: int, b: int)
    requires q >= 0 && a <= b
    ensures q * a <= q * b
  {
  }
}

/** When does deleting idle buckets stay invisible to callers? */
module RateLimiterCleanup {
  import opened RateLimiter
  import opened RateLimiterLaws

  /** An idle bucket is full again by the time it may be deleted.  For rates below 1e9
      calls a second this is burst <= 600 * qps. */
  predicate IdleRefillsBurst(p: Params) {
    p.burst * NANO <= (IDLE_CUTOFF + 1) * p.qps
  }

  lemma IdleRefillsBurstInTokens(p: Params)
    requires 1 <= p.qps < NANO
    ensures IdleRefillsBurst(p) <==> p.burst <= 600 * p.qps
  {
  }

  /** The limiter's map is the reference map without some buckets that are idle for good. */
  ghost predicate Simulates(live: Buckets, reference: Buckets, now: int) {
    && live.Keys <= reference.Keys
    && (forall k :: k in live ==> live[k] == reference[k])
    && (forall k :: k in reference ==> reference[k].tokens >= 0 && reference[k].last <= now)
    && (forall k :: k in reference && k !in live ==> reference[k].last < now - IDLE_CUTOFF)
  }

  lemma RefillAfterIdle(p: Params, b: Bucket, now: int)
    requires p.qps >= 1 && IdleRefillsBurst(p)
    requires b.tokens >= 0 && b.last < now - IDLE_CUTOFF
    ensures Refill(p, b, now) == p.Cap()
  {
    ScaleMonotone(p.qps, IDLE_CUTOFF + 1, now - b.last);
  }

  lemma RefillNotNegative(p: Params, b: Bucket, now: int)
    requires p.qps >= 1 && p.burst >= 1 && b.tokens >= 0 && b.last <= now
    ensures Refill(p, b, now) >= 0
  {
    ScaleMonotone(p.qps, 0, now - b.last);
  }

  lemma StepSimulates(p: Params, live: Buckets, reference: Buckets, c: Call)
    requires p.qps >= 1 && p.burst >= 1 && IdleRefillsBurst(p)
    requires Simulates(live, reference, c.now)
    ensures Step(p, true, live, c).ok == Step(p, false, reference, c).ok
    ensures Simulates(Step(p, true, live, c).buckets, Step(p, false, reference, c).buckets, c.now)
  {
    var key := EffectiveKey(c.key);
    if key in reference {
      RefillNotNegative(p, reference[key], c.now);
      if key !in live {
        RefillAfterIdle(p, reference[key], c.now);
      }
    }
  }

  lemma {:induction false} RunSimulates(p: Params, calls: seq<Call>, now: int)
    requires p.qps >= 1 && p.burst >= 1 && IdleRefillsBurst(p) && ClockNeverGoesBack(calls)
    requires calls != [] ==> calls[|calls| - 1].now <= now
    ensures Simulates(Final(p, true, calls), Final(p, false, calls), now)
    ensures Answers(p, true, calls) == Answers(p, false, calls)
  {
    if calls != [] {
      var n := |calls| - 1;
      RunSimulates(p, calls[..n], calls[n].now);
      StepSimulates(p, Final(p, true, calls[..n]), Final(p, false, calls[..n]), calls[n]);
    }
  }

  /** Some history on which deleting buckets changes an answer. */
  ghost predicate CleanupShows(p: Params) {
    exists calls: seq<Call> :: ClockNeverGoesBack(calls) && Answers(p, true, calls) != Answers(p, false, calls)
  }

  /** Deleting idle buckets is invisible on every history with a clock that never goes back
      exactly when an idle bucket would have been full again. */
  lemma CleanupInvisibleIff(p: Params)
    requires p.qps >= 1 && p.burst >= 1
    ensures CleanupShows(p) <==> !IdleRefillsBurst(p)
  {
    if IdleRefillsBurst(p) {
      forall calls: seq<Call> | ClockNeverGoesBack(calls)
        ensures Answers(p, true, calls) == Answers(p, false, calls)
      {
        RunSimulates(p, calls, if calls == [] then 0 else calls[|calls| - 1].now);
      }
    } else {
      var calls := Revealing(p, p.burst);
      RevealingClock(p, p.burst);
      RevealingAnswers(p);
    }
  }

  /** One bucket serves any window of the limiter that never deletes. */
  lemma ReferenceOneBucket(p: Params, calls: seq<Call>, key: string, j: nat, k: nat)
    requires j <= k < |calls|
    ensures OneBucket(p, false, calls, key, j, k)
  {
    NeverDeletedIsKept(p, calls, key, k);
    KeptIsBornFirst(p, false, calls, key, k);
  }

  /** On some history with a clock that never goes back, the limiter as written admits more
      of a key in a window than burst + qps * (its length). */
  ghost predicate BoundBreaks(p: Params) {
    exists calls: seq<Call>, key: string, j: nat, k: nat ::
      ClockNeverGoesBack(calls) && j <= k < |calls| && !WithinBound(p, calls, Answers(p, true, calls), key, j, k)
  }

  /** The limiter as written, deleting buckets, keeps the window bound exactly when an idle
      bucket would have been full again. */
  lemma LimiterBoundIff(p: Params)
    requires p.qps >= 1 && p.burst >= 1
    ensures BoundBreaks(p) <==> !IdleRefillsBurst(p)
  {
    hide Answers, Revealing;
    if IdleRefillsBurst(p) {
      forall calls: seq<Call>, key: string, j: nat, k: nat | ClockNeverGoesBack(calls) && j <= k < |calls|
        ensures WithinBound(p, calls, Answers(p, true, calls), key, j, k)
      {
        RunSimulates(p, calls, calls[|calls| - 1].now);
        ReferenceOneBucket(p, calls, key, j, k);
        WindowBound(p, false, calls, key, j, k);
      }
    } else {
      var calls := Revealing(p, p.burst);
      RevealingClock(p, p.burst);
      ProbesAdmitted(p, p.burst);
      RevealingEnds(p, p.burst);
      assert !WithinBound(p, calls, Answers(p, true, calls), Key(0), 0, |calls| - 1);
    }
  }

  // ----- The history that reveals the cleanup: drain one key, open 10000 more buckets, wait
  // ----- just over ten minutes, touch one of those so that the drained one is deleted, and
  // ----- call the drained key again.

  const LATER := IDLE_CUTOFF + 1

  function Key(i: nat): (key: string)
    ensures |key| == i + 1
  {
    seq(i + 1, _ => 'k')
  }

  lemma KeysDiffer(i: nat, j: nat)
    requires i != j
    ensures Key(i) != Key(j)
  {
  }

  function Drain(n: nat): seq<Call> {
    if n == 0 then [] else Drain(n - 1) + [Call(Key(0), 0)]
  }

  function Flood(p: Params, n: nat): seq<Call>
    requires p.burst >= 1
  {
    if n == 0 then Drain(p.burst) else Flood(p, n - 1) + [Call(Key(n), 0)]
  }

  function Revealing(p: Params, n: nat): seq<Call>
    requires p.burst >= 1
  {
    if n == 0 then Flood(p, CLEANUP_SIZE) + [Call(Key(1), LATER)]
    else Revealing(p, n - 1) + [Call(Key(0), LATER)]
  }

  lemma {:induction false} FinalAppend(p: Params, clean: bool, calls: seq<Call>, c: Call)
    ensures Final(p, clean, calls + [c]) == Step(p, clean, Final(p, clean, calls), c).buckets
    ensures Answers(p, clean, calls + [c])
         == Answers(p, clean, calls) + [Step(p, clean, Final(p, clean, calls), c).ok]
  {
    assert (calls + [c])[..|calls|] == calls;
  }

  lemma DrainStep(p: Params, clean: bool, n: nat, before: Buckets)
    requires 2 <= n <= p.burst && before == map[Key(0) := Bucket((p.burst - n + 1) * NANO, 0)]
    ensures Step(p, clean, before, Call(Key(0), 0)).buckets == map[Key(0) := Bucket((p.burst - n) * NANO, 0)]
  {
    assert Refill(p, before[Key(0)], 0) == (p.burst - n + 1) * NANO;
    var taken := before[Key(0) := Bucket((p.burst - n) * NANO, 0)];
    assert taken.Keys == {Key(0)};
    assert |taken| == |taken.Keys| == 1;
  }

  lemma {:induction false} DrainState(p: Params, clean: bool, n: nat)
    requires 1 <= n <= p.burst
    ensures Final(p, clean, Drain(n)) == map[Key(0) := Bucket((p.burst - n) * NANO, 0)]
  {
    hide Refill;
    FinalAppend(p, clean, Drain(n - 1), Call(Key(0), 0));
    if n > 1 {
      DrainState(p, clean, n - 1);
      DrainStep(p, clean, n, Final(p, clean, Drain(n - 1)));
    }
  }

  /** After the flood there are n + 1 buckets, all last used at time 0, the first one empty. */
  ghost predicate Flooded(p: Params, n: nat, buckets: Buckets) {
    && |buckets| == n + 1
    && (forall k :: k in buckets <==> exists i: nat :: i <= n && k == Key(i))
    && (forall k :: k in buckets ==> buckets[k] == Bucket(if k == Key(0) then 0 else (p.burst - 1) * NANO, 0))
  }

  lemma FloodStep(p: Params, clean: bool, n: nat, before: Buckets)
    requires p.burst >= 1 && n >= 1 && Flooded(p, n - 1, before)
    ensures Flooded(p, n, Step(p, clean, before, Call(Key(n), 0)).buckets)
  {
    forall i: nat | i < n { KeysDiffer(i, n); }
    assert Key(n) !in before;
    var after := Step(p, clean, before, Call(Key(n), 0)).buckets;
    assert after == before[Key(n) := Bucket((p.burst - 1) * NANO, 0)];
    forall k ensures k in after <==> exists i: nat :: i <= n && k == Key(i) {
      if i: nat :| i <= n && k == Key(i) {
        assert i < n ==> k in before;
      }
    }
  }

  lemma FloodStart(p: Params)
    ensures Flooded(p, 0, map[Key(0) := Bucket(0, 0)])
  {
    var buckets := map[Key(0) := Bucket(0, 0)];
    assert buckets.Keys == {Key(0)};
    assert |buckets| == |buckets.Keys|;
    forall k ensures k in buckets <==> exists i: nat :: i <= 0 && k == Key(i) {
      assert k == Key(0) ==> 0 <= 0 && k == Key(0);
    }
  }

  lemma {:induction false} FloodState(p: Params, clean: bool, n: nat)
    requires p.burst >= 1
    ensures Flooded(p, n, Final(p, clean, Flood(p, n)))
  {
    hide Flooded, Step;
    if n == 0 {
      DrainState(p, clean, p.burst);
      FloodStart(p);
    } else {
      FloodState(p, clean, n - 1);
      FloodStep(p, clean, n, Final(p, clean, Flood(p, n - 1)));
      FinalAppend(p, clean, Flood(p, n - 1), Call(Key(n), 0));
    }
  }

  /** Touching one flooded key later deletes every other bucket; the reference keeps them. */
  lemma TouchState(p: Params, clean: bool)
    requires p.burst >= 1 && p.qps >= 1
    ensures var buckets := Final(p, clean, Revealing(p, 0));
            if clean then buckets.Keys == {Key(1)} && buckets[Key(1)].last == LATER
            else Key(0) in buckets && buckets[Key(0)] == Bucket(0, 0)
  {
    var before := Final(p, clean, Flood(p, CLEANUP_SIZE));
    FloodState(p, clean, CLEANUP_SIZE);
    FinalAppend(p, clean, Flood(p, CLEANUP_SIZE), Call(Key(1), LATER));
    KeysDiffer(0, 1);
    assert Key(0) in before && Key(1) in before;
    ScaleMonotone(p.qps, NANO, LATER);
    assert Refill(p, before[Key(1)], LATER) >= NANO;
  }

  /** The drained key starts afresh in the limiter that deletes: after n probes it has
      burst - n tokens. */
  ghost predicate Probed(p: Params, n: nat, buckets: Buckets) {
    && Key(1) in buckets
    && buckets.Keys == (if n == 0 then {Key(1)} else {Key(0), Key(1)})
    && (n > 0 ==> buckets[Key(0)] == Bucket((p.burst - n) * NANO, LATER))
  }

  lemma ProbeStep(p: Params, n: nat, buckets: Buckets)
    requires 1 <= n <= p.burst && Probed(p, n - 1, buckets)
    ensures var out := Step(p, true, buckets, Call(Key(0), LATER)); out.ok && Probed(p, n, out.buckets)
  {
    KeysDiffer(0, 1);
    if n > 1 {
      assert Refill(p, buckets[Key(0)], LATER) == (p.burst - n + 1) * NANO;
      var taken := buckets[Key(0) := Bucket((p.burst - n) * NANO, LATER)];
      assert taken.Keys == {Key(0), Key(1)};
      assert |taken| == |taken.Keys| <= 2;
    }
  }

  lemma {:induction false} ProbeClean(p: Params, n: nat)
    requires p.burst >= 1 && p.qps >= 1 && n <= p.burst
    ensures Probed(p, n, Final(p, true, Revealing(p, n)))
  {
    if n == 0 {
      TouchState(p, true);
    } else {
      ProbeClean(p, n - 1);
      ProbeStep(p, n, Final(p, true, Revealing(p, n - 1)));
      FinalAppend(p, true, Revealing(p, n - 1), Call(Key(0), LATER));
    }
  }

  /** The reference bucket has only the idle refill to pay the probes from. */
  ghost predicate Paid(p: Params, n: nat, buckets: Buckets) {
    && Key(0) in buckets
    && Refill(p, buckets[Key(0)], LATER) == LATER * p.qps - n * NANO >= 0
  }

  lemma PayStep(p: Params, n: nat, buckets: Buckets)
    requires n >= 1 && !IdleRefillsBurst(p) && Paid(p, n - 1, buckets)
    requires Step(p, false, buckets, Call(Key(0), LATER)).ok
    ensures Paid(p, n, Step(p, false, buckets, Call(Key(0), LATER)).buckets)
  {
  }

  lemma PayStart(p: Params)
    requires p.burst >= 1 && p.qps >= 1 && !IdleRefillsBurst(p)
    ensures Paid(p, 0, Final(p, false, Revealing(p, 0)))
  {
    hide Step, Final, Revealing;
    TouchState(p, false);
    ScaleMonotone(p.qps, 0, LATER);
  }

  lemma SameAnswersSplit(p: Params, before: seq<Call>, c: Call)
    requires Answers(p, true, before + [c]) == Answers(p, false, before + [c])
    requires Step(p, true, Final(p, true, before), c).ok
    ensures Answers(p, true, before) == Answers(p, false, before)
    ensures Step(p, false, Final(p, false, before), c).ok
  {
    FinalAppend(p, true, before, c);
    FinalAppend(p, false, before, c);
    assert Answers(p, true, before) == Answers(p, true, before + [c])[..|before|];
    assert Answers(p, false, before) == Answers(p, false, before + [c])[..|before|];
    assert Answers(p, true, before + [c])[|before|];
  }

  /** As long as the reference answers as the limiter does, it has paid n tokens. */
  lemma {:induction false} ProbeReference(p: Params, n: nat)
    requires p.burst >= 1 && p.qps >= 1 && n <= p.burst && !IdleRefillsBurst(p)
    requires Answers(p, true, Revealing(p, n)) == Answers(p, false, Revealing(p, n))
    ensures Paid(p, n, Final(p, false, Revealing(p, n)))
  {
    hide Step, Refill, Probed, Paid, Flood;
    if n == 0 {
      PayStart(p);
    } else {
      var before := Revealing(p, n - 1);
      ProbeClean(p, n - 1);
      ProbeStep(p, n, Final(p, true, before));
      SameAnswersSplit(p, before, Call(Key(0), LATER));
      ProbeReference(p, n - 1);
      PayStep(p, n, Final(p, false, before));
      FinalAppend(p, false, before, Call(Key(0), LATER));
    }
  }

  lemma RevealingAnswers(p: Params)
    requires p.burst >= 1 && p.qps >= 1 && !IdleRefillsBurst(p)
    ensures Answers(p, true, Revealing(p, p.burst)) != Answers(p, false, Revealing(p, p.burst))
  {
    if Answers(p, true, Revealing(p, p.burst)) == Answers(p, false, Revealing(p, p.burst)) {
      ProbeReference(p, p.burst);
      assert false;
    }
  }

  predicate AllAt(calls: seq<Call>, now: int) {
    forall i :: 0 <= i < |calls| ==> calls[i].now == now
  }

  lemma {:induction false} DrainClock(n: nat)
    ensures AllAt(Drain(n), 0)
  {
    if n > 0 { DrainClock(n - 1); }
  }

  lemma {:induction false} FloodClock(p: Params, n: nat)
    requires p.burst >= 1
    ensures AllAt(Flood(p, n), 0)
  {
    if n == 0 { DrainClock(p.burst); } else { FloodClock(p, n - 1); }
  }

  lemma {:induction false} RevealingClock(p: Params, n: nat)
    requires p.burst >= 1
    ensures ClockNeverGoesBack(Revealing(p, n))
    ensures forall i :: 0 <= i < |Revealing(p, n)| ==> Revealing(p, n)[i].now <= LATER
  {
    if n == 0 { FloodClock(p, CLEANUP_SIZE); } else { RevealingClock(p, n - 1); }
  }

  lemma {:induction false} RevealingEnds(p: Params, n: nat)
    requires p.burst >= 1
    ensures Revealing(p, n) != [] && Revealing(p, n)[0].now == 0 && Revealing(p, n)[|Revealing(p, n)| - 1].now == LATER
  {
    if n == 0 {
      FloodClock(p, CLEANUP_SIZE);
      FloodStarts(p, CLEANUP_SIZE);
    } else {
      RevealingEnds(p, n - 1);
    }
  }

  lemma FloodStarts(p: Params, n: nat)
    requires p.burst >= 1
    ensures Flood(p, n) != []
  {
  }

  // ----- The drained key is admitted 2 * burst times in that history.

  /** How often a key is admitted in a whole history of the limiter as written. */
  function Total(p: Params, calls: seq<Call>, key: string): nat {
    Admitted(calls, Answers(p, true, calls), key, 0, |calls|)
  }

  lemma {:induction false} AdmittedSame(calls: seq<Call>, answers: seq<bool>, longer: seq<Call>, more: seq<bool>,
                                        key: string, k: nat)
    requires k <= |calls| == |answers| && |longer| == |more| && calls <= longer && answers <= more
    ensures Admitted(calls, answers, key, 0, k) == Admitted(longer, more, key, 0, k)
  {
    if k > 0 {
      AdmittedSame(calls, answers, longer, more, key, k - 1);
    }
  }

  lemma TotalAppend(p: Params, calls: seq<Call>, c: Call, key: string)
    ensures Total(p, calls + [c], key)
         == Total(p, calls, key) + if EffectiveKey(c.key) == key && Step(p, true, Final(p, true, calls), c).ok then 1 else 0
  {
    hide Step, Final, Answers;
    FinalAppend(p, true, calls, c);
    AdmittedSame(calls, Answers(p, true, calls), calls + [c], Answers(p, true, calls + [c]), key, |calls|);
  }

  lemma {:induction false} DrainAdmitted(p: Params, n: nat)
    requires n <= p.burst
    ensures Total(p, Drain(n), Key(0)) == n
  {
    hide Total;
    if n == 0 {
      NothingAdmitted(p);
    } else {
      DrainAdmitted(p, n - 1);
      TotalAppend(p, Drain(n - 1), Call(Key(0), 0), Key(0));
      if n > 1 {
        DrainState(p, true, n - 1);
      }
    }
  }

  lemma NothingAdmitted(p: Params)
    ensures Total(p, [], Key(0)) == 0
  {
  }

  lemma {:induction false} FloodAdmitted(p: Params, n: nat)
    requires p.burst >= 1
    ensures Total(p, Flood(p, n), Key(0)) == p.burst
  {
    hide Total, Step;
    if n == 0 {
      DrainAdmitted(p, p.burst);
    } else {
      FloodAdmitted(p, n - 1);
      KeysDiffer(0, n);
      TotalAppend(p, Flood(p, n - 1), Call(Key(n), 0), Key(0));
    }
  }

  lemma {:induction false} ProbesAdmitted(p: Params, n: nat)
    requires p.burst >= 1 && p.qps >= 1 && n <= p.burst
    ensures Total(p, Revealing(p, n), Key(0)) == p.burst + n
  {
    hide Total, Step, Flood, Probed;
    if n == 0 {
      FloodAdmitted(p, CLEANUP_SIZE);
      KeysDiffer(0, 1);
      TotalAppend(p, Flood(p, CLEANUP_SIZE), Call(Key(1), LATER), Key(0));
    } else {
      ProbesAdmitted(p, n - 1);
      ProbeClean(p, n - 1);
      ProbeStep(p, n, Final(p, true, Revealing(p, n - 1)));
      TotalAppend(p, Revealing(p, n - 1), Call(Key(0), LATER), Key(0));
    }
  }
}
