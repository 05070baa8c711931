/** Whom a call's answer depends on, in terms of the keys that callers give. */
module RateLimiterKeys {
  import opened RateLimiter
  import opened RateLimiterCleanup
  import opened RateLimiterLaws
  import opened Sizes

  /** Keys that mean one caller: equal ones, and the empty key means "anonymous". */
  predicate SameCaller(a: string, b: string) {
    a == b || (a in {"", "anonymous"} && b in {"", "anonymous"})
  }

  /** The calls of one caller, in order. */
  function Only(calls: seq<Call>, key: string): seq<Call> {
    if calls == [] then []
    else
      var n := |calls| - 1;
      Only(calls[..n], key) + if SameCaller(calls[n].key, key) then [calls[n]] else []
  }

  /** The answers that one caller gets, in order. */
  function Heard(calls: seq<Call>, answers: seq<bool>, key: string): seq<bool>
    requires |answers| == |calls|
  {
    if calls == [] then []
    else
      var n := |calls| - 1;
      Heard(calls[..n], answers[..n], key) + if SameCaller(calls[n].key, key) then [answers[n]] else []
  }

  lemma CallersHaveBuckets(a: string, b: string)
    ensures SameCaller(a, b) <==> EffectiveKey(a) == EffectiveKey(b)
  {
  }

  /** A bucket that two maps agree on decides a call alike on both, when nothing is deleted. */
  lemma StepAlone(p: Params, all: Buckets, own: Buckets, c: Call, key: string)
    requires EffectiveKey(key) in all <==> EffectiveKey(key) in own
    requires EffectiveKey(key) in all ==> all[EffectiveKey(key)] == own[EffectiveKey(key)]
    ensures var bucket, all', own' := EffectiveKey(key), Step(p, false, all, c),
                                      if SameCaller(c.key, key) then Step(p, false, own, c) else Outcome(own, false);
      && (bucket in all'.buckets <==> bucket in own'.buckets)
      && (bucket in all'.buckets ==> all'.buckets[bucket] == own'.buckets[bucket])
      && (SameCaller(c.key, key) ==> all'.ok == own'.ok)
  {
    CallersHaveBuckets(c.key, key);
    hide Refill, SameCaller, EffectiveKey;
  }

  lemma StepOnly(p: Params, clean: bool, own: seq<Call>, c: Call)
    ensures Final(p, clean, own + [c]) == Step(p, clean, Final(p, clean, own), c).buckets
    ensures Answers(p, clean, own + [c]) == Answers(p, clean, own) + [Step(p, clean, Final(p, clean, own), c).ok]
  {
    FinalAppend(p, clean, own, c);
  }

  /** The limiter that never deletes keeps its callers apart: each is answered as if it were
      the only one, whatever the rates and the timestamps. */
  lemma {:induction false} CallersAreApart(p: Params, calls: seq<Call>, key: string)
    ensures Heard(calls, Answers(p, false, calls), key) == Answers(p, false, Only(calls, key))
    ensures var bucket, all, own := EffectiveKey(key), Final(p, false, calls), Final(p, false, Only(calls, key));
            (bucket in all <==> bucket in own) && (bucket in all ==> all[bucket] == own[bucket])
  {
    hide Step, SameCaller, EffectiveKey;
    if calls != [] {
      var n := |calls| - 1;
      var own := Only(calls[..n], key);
      CallersAreApart(p, calls[..n], key);
      StepAlone(p, Final(p, false, calls[..n]), Final(p, false, own), calls[n], key);
      StepOnly(p, false, own, calls[n]);
      assert Answers(p, false, calls)[..n] == Answers(p, false, calls[..n]);
      assert own + [] == own;
    }
  }

  // ----- Few callers.

  /** The keys that a history's callers give. */
  function Keys(calls: seq<Call>): set<string> {
    if calls == [] then {} else Keys(calls[..|calls| - 1]) + {calls[|calls| - 1].key}
  }

  function BucketsOf(keys: set<string>): set<string> {
    set key | key in keys :: EffectiveKey(key)
  }

  lemma {:induction false} FewerBuckets(keys: set<string>)
    ensures |BucketsOf(keys)| <= |keys|
  {
    hide EffectiveKey;
    if keys != {} {
      var key :| key in keys;
      FewerBuckets(keys - {key});
      assert BucketsOf(keys) == BucketsOf(keys - {key}) + {EffectiveKey(key)};
    }
  }

  lemma StepWithoutCleanup(p: Params, before: Buckets, c: Call)
    requires |before.Keys + {EffectiveKey(c.key)}| <= 10000
    ensures Step(p, true, before, c) == Step(p, false, before, c)
  {
    hide Refill, EffectiveKey;
    var after := Step(p, false, before, c).buckets;
    assert after.Keys == before.Keys + {EffectiveKey(c.key)};
    assert |after.Keys| == |after|;
  }

  /** With at most 10000 keys in all nothing is ever deleted, whatever rate, burst and timestamps. */
  lemma {:induction false} FewCallersUndisturbed(p: Params, calls: seq<Call>)
    requires |Keys(calls)| <= 10000
    ensures Answers(p, true, calls) == Answers(p, false, calls) && Final(p, true, calls) == Final(p, false, calls)
    ensures Final(p, false, calls).Keys <= BucketsOf(Keys(calls))
  {
    hide Step, EffectiveKey;
    if calls != [] {
      var n := |calls| - 1;
      SubsetSize(Keys(calls[..n]), Keys(calls));
      FewCallersUndisturbed(p, calls[..n]);
      FewerBuckets(Keys(calls));
      var before := Final(p, false, calls[..n]);
      assert EffectiveKey(calls[n].key) in BucketsOf(Keys(calls));
      assert BucketsOf(Keys(calls[..n])) <= BucketsOf(Keys(calls));
      SubsetSize(before.Keys + {EffectiveKey(calls[n].key)}, BucketsOf(Keys(calls)));
      StepWithoutCleanup(p, before, calls[n]);
      StepKeepsKeys(p, before, calls[n]);
    }
  }

  lemma OneCallerKeys(calls: seq<Call>, key: string)
    ensures forall k :: k in Keys(Only(calls, key)) ==> SameCaller(k, key)
    ensures |Keys(Only(calls, key))| <= 2
  {
    OneCallerKeysAreSame(calls, key);
    SubsetSize(Keys(Only(calls, key)), if key in {"", "anonymous"} then {"", "anonymous"} else {key});
  }

  lemma {:induction false} OneCallerKeysAreSame(calls: seq<Call>, key: string)
    ensures forall k :: k in Keys(Only(calls, key)) ==> SameCaller(k, key)
  {
    hide SameCaller;
    if calls != [] {
      var n := |calls| - 1;
      OneCallerKeysAreSame(calls[..n], key);
      var own := Only(calls[..n], key);
      assert (own + [calls[n]])[..|own|] == own && own + [] == own;
    }
  }

  // ----- The limiter as written.

  /** On some history with a clock that never goes back, a caller is answered otherwise than if
      it were the only one. */
  ghost predicate OthersShow(p: Params) {
    exists calls: seq<Call>, key: string ::
      ClockNeverGoesBack(calls) && Heard(calls, Answers(p, true, calls), key) != Answers(p, true, Only(calls, key))
  }

  lemma {:induction false} HeardDiffers(calls: seq<Call>, a: seq<bool>, b: seq<bool>) returns (key: string)
    requires |a| == |b| == |calls| && a != b
    ensures Heard(calls, a, key) != Heard(calls, b, key)
  {
    var n := |calls| - 1;
    if a[..n] == b[..n] {
      key := calls[n].key;
      assert a == a[..n] + [a[n]] && b == b[..n] + [b[n]];
      assert Heard(calls, a, key)[|Heard(calls, a, key)| - 1] == a[n];
      assert Heard(calls, b, key)[|Heard(calls, b, key)| - 1] == b[n];
    } else {
      key := HeardDiffers(calls[..n], a[..n], b[..n]);
      HeardSize(calls[..n], a[..n], b[..n], key);
      var k := |Heard(calls[..n], a[..n], key)|;
      assert Heard(calls, a, key)[..k] == Heard(calls[..n], a[..n], key) && Heard(calls, b, key)[..k] == Heard(calls[..n], b[..n], key);
    }
  }

  lemma {:induction false} HeardSize(calls: seq<Call>, a: seq<bool>, b: seq<bool>, key: string)
    requires |a| == |b| == |calls|
    ensures |Heard(calls, a, key)| == |Heard(calls, b, key)|
  {
    if calls != [] {
      var n := |calls| - 1;
      HeardSize(calls[..n], a[..n], b[..n], key);
    }
  }

  /** The limiter as written keeps its callers apart, on every history with a clock that never
      goes back, exactly when an idle bucket would have been full again. */
  lemma CallersAreApartIff(p: Params)
    requires p.qps >= 1 && p.burst >= 1
    ensures OthersShow(p) <==> !IdleRefillsBurst(p)
  {
    hide Answers, IdleRefillsBurst, Heard, ClockNeverGoesBack, Only;
    CleanupInvisibleIff(p);
    forall calls: seq<Call>, key: string
      ensures Heard(calls, Answers(p, false, calls), key) == Answers(p, true, Only(calls, key))
    {
      CallersAreApart(p, calls, key);
      OneCallerKeys(calls, key);
      FewCallersUndisturbed(p, Only(calls, key));
    }
    if !IdleRefillsBurst(p) {
      var calls :| ClockNeverGoesBack(calls) && Answers(p, true, calls) != Answers(p, false, calls);
      var key := HeardDiffers(calls, Answers(p, true, calls), Answers(p, false, calls));
    }
  }

  // ----- What a call deletes.

  /** Another caller's bucket goes in a call exactly when the call found a bucket of its own, was
      allowed, more than 10000 buckets stood, and the other has been idle for over ten minutes. */
  lemma DeletedIffIdle(p: Params, before: Buckets, c: Call, key: string)
    requires EffectiveKey(key) in before && !SameCaller(key, c.key)
    ensures var out := Step(p, true, before, c);
      && (EffectiveKey(key) !in out.buckets <==>
            EffectiveKey(c.key) in before && out.ok && |before| > 10000 && c.now - before[EffectiveKey(key)].last > 600_000_000_000)
      && (EffectiveKey(key) in out.buckets ==> out.buckets[EffectiveKey(key)] == before[EffectiveKey(key)])
  {
    CallersHaveBuckets(key, c.key);
    hide Refill, EffectiveKey;
    var own := EffectiveKey(c.key);
    if own in before {
      var tokens := Refill(p, before[own], c.now);
      var taken := before[own := Bucket(tokens - NANO, c.now)];
      assert taken.Keys == before.Keys;
      assert |taken.Keys| == |taken| && |before.Keys| == |before|;
    }
  }
}
