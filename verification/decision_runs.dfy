/** The decision cache while the policy changes: any interleaving of checks, taken apart into
    the enforcer's answer, the store of it, the cache lookup and the delete that a lookup
    defers for an expired entry. */
module DecisionRuns {
  import opened AuthzService
  import opened DecisionCache
  import opened Wrappers

  datatype Op =
    | Asked(req: Request, allow: bool)                  // the enforcer answered without an error
    | Failed(req: Request)                              // the enforcer failed: nothing to store
    | Stored(source: nat, victim: Option<string>)       // Set stores the answer of step `source`
    | Looked(req: Request)                              // Get's read section
    | Dropped(key: string)                              // Get's delete section

  datatype Step = Step(now: int, op: Op)

  datatype Setting = Setting(ttl: int, max: int)

  function After(steps: seq<Step>, cfg: Setting, items: Items, n: nat): Items
    requires n < |steps|
  {
    var now := steps[n].now;
    match steps[n].op
    case Stored(source, victim) =>
      if source < |steps| && steps[source].op.Asked? then
        var Asked(req, allow) := steps[source].op;
        var room := MakeRoom(items, cfg.max, now);
        var kept := if Full(room, cfg.max) && victim.Some? then room - {victim.value} else room;
        kept[RequestKey(req) := Entry(Storable(req, Enforced(allow)), now + cfg.ttl)]
      else items
    case Dropped(key) => items - {key}
    case _ => items
  }

  function Before(steps: seq<Step>, cfg: Setting, n: nat): Items
    requires n <= |steps|
  {
    if n == 0 then map[] else After(steps, cfg, Before(steps, cfg, n - 1), n - 1)
  }

  /** Set runs only for an answer that the enforcer gave earlier, and evicts an entry of least
      expiry when there is no room. */
  predicate Enabled(steps: seq<Step>, cfg: Setting, n: nat)
    requires n < |steps|
  {
    var op := steps[n].op;
    op.Stored? ==>
      && op.source < n && steps[op.source].op.Asked?
      && var room := MakeRoom(Before(steps, cfg, n), cfg.max, steps[n].now);
         Full(room, cfg.max) ==> op.victim.Some? && LeastExpiry(room, op.victim.value)
  }

  predicate ValidRun(steps: seq<Step>, cfg: Setting) {
    && cfg.ttl > 0 && cfg.max > 0
    && (forall n: nat :: n < |steps| ==> Enabled(steps, cfg, n))
  }

  /** Step n of a run is what Cache.Set may do. */
  lemma StoredIsSet(steps: seq<Step>, cfg: Setting, n: nat)
    requires ValidRun(steps, cfg) && n < |steps| && steps[n].op.Stored?
    requires steps[n].op.source < n && steps[steps[n].op.source].op.Asked?
    ensures var Asked(req, allow) := steps[steps[n].op.source].op;
            Sets(Before(steps, cfg, n), RequestKey(req), Entry(Storable(req, Enforced(allow)), steps[n].now + cfg.ttl),
                 cfg.max, steps[n].now, Before(steps, cfg, n + 1))
  {
    hide RequestKey, Storable;
    assert Enabled(steps, cfg, n);
    var room := MakeRoom(Before(steps, cfg, n), cfg.max, steps[n].now);
    var kept := if Full(room, cfg.max) && steps[n].op.victim.Some? then room - {steps[n].op.victim.value} else room;
    assert Keeps(room, cfg.max, kept);
  }

  /** The cache never holds more than its bound. */
  lemma {:induction false} SizeIsBounded(steps: seq<Step>, cfg: Setting, n: nat)
    requires ValidRun(steps, cfg) && n <= |steps|
    ensures |Before(steps, cfg, n)| <= cfg.max
  {
    hide RequestKey, Storable, Sets, MakeRoom, LeastExpiry;
    if n > 0 {
      var m := n - 1;
      var before := Before(steps, cfg, m);
      SizeIsBounded(steps, cfg, m);
      assert Enabled(steps, cfg, m);
      if steps[m].op.Stored? {
        var Asked(req, allow) := steps[steps[m].op.source].op;
        StoredIsSet(steps, cfg, m);
        SetsKeepsSize(before, RequestKey(req), Entry(Storable(req, Enforced(allow)), steps[m].now + cfg.ttl),
                      cfg.max, steps[m].now, Before(steps, cfg, n));
      } else if steps[m].op.Dropped? {
        DropSize(before, steps[m].op.key);
      }
    }
  }

  lemma DropSize(items: Items, key: string)
    ensures |items - {key}| <= |items|
  {
  }

  /** An entry stands before step n because step k stored it. */
  predicate StoredBy(steps: seq<Step>, cfg: Setting, n: nat, key: string, e: Entry, k: nat)
    requires n <= |steps|
  {
    && k < n && steps[k].op.Stored? && steps[k].op.source < k && steps[steps[k].op.source].op.Asked?
    && var Asked(req, allow) := steps[steps[k].op.source].op;
       key == RequestKey(req) && e == Entry(Storable(req, Enforced(allow)), steps[k].now + cfg.ttl)
  }

  lemma {:induction false} EntriesAreStored(steps: seq<Step>, cfg: Setting, n: nat, key: string) returns (k: nat)
    requires ValidRun(steps, cfg) && n <= |steps| && key in Before(steps, cfg, n)
    ensures StoredBy(steps, cfg, n, key, Before(steps, cfg, n)[key], k)
  {
    hide RequestKey, Storable;
    var m := n - 1;
    assert Enabled(steps, cfg, m);
    if steps[m].op.Stored? && RequestKey(steps[steps[m].op.source].op.req) == key {
      k := m;
    } else {
      k := EntriesAreStored(steps, cfg, m, key);
    }
  }

  /** Bounded staleness: an answer from the cache carries the Allow that the enforcer returned
      for a request with the same key, stored at most the TTL ago.  If the two requests do not
      clash, as requests without bar and NUL never do, it is the same question. */
  lemma ServedWithinTTL(steps: seq<Step>, cfg: Setting, n: nat, req: Request) returns (asked: nat, stored: nat)
    requires ValidRun(steps, cfg) && n < |steps| && steps[n].op == Looked(req)
    requires Lookup(Before(steps, cfg, n), RequestKey(req), steps[n].now).Some?
    ensures asked < stored < n && steps[asked].op.Asked? && steps[stored].op.Stored? && steps[stored].op.source == asked
    ensures var d, q := Lookup(Before(steps, cfg, n), RequestKey(req), steps[n].now).value, steps[asked].op.req;
            && RequestKey(q) == RequestKey(req)
            && SubjectOf(q) == d.subject && ObjectOf(q) == d.obj && ActionOf(q) == d.action
            && d.allow == steps[asked].op.allow
            && (CleanRequest(q) && CleanRequest(req) ==> SameQuestion(q, req))
    ensures steps[n].now <= steps[stored].now + cfg.ttl
  {
    stored := EntriesAreStored(steps, cfg, n, RequestKey(req));
    asked := steps[stored].op.source;
    var q := steps[asked].op.req;
    if CleanRequest(q) && CleanRequest(req) {
      CacheKeyInjective(q.app, SubjectOf(q), ObjectOf(q), ActionOf(q), req.app, SubjectOf(req), ObjectOf(req), ActionOf(req));
    }
    hide SubjectOf, ObjectOf, ActionOf, RequestKey, CleanRequest;
    BlankFields(q);
  }

  /** While the policy does not change, every interleaving leaves stored answers to the
      requests asked, so that any check in it decides as with caching off (DecideAgrees). */
  lemma {:induction false} FixedPolicyIsFilled(steps: seq<Step>, cfg: Setting, n: nat, reqs: iset<Request>, grants: Grants,
                                               enforce: Enforcer)
    requires ValidRun(steps, cfg) && n <= |steps|
    requires forall i :: 0 <= i < |steps| && steps[i].op.Asked? ==>
      var Asked(req, allow) := steps[i].op; req in reqs && Reaches(req, grants) && Ask(req, enforce) == Enforced(allow)
    ensures Filled(Before(steps, cfg, n), reqs, grants, enforce)
  {
    hide Reaches, Ask, RequestKey, Storable, Before;
    forall key | key in Before(steps, cfg, n) ensures Filler(key, Before(steps, cfg, n)[key].decision, reqs, grants, enforce) {
      var k := EntriesAreStored(steps, cfg, n, key);
      var q := steps[steps[k].op.source].op.req;
      assert StoredFor(Before(steps, cfg, n)[key].decision, q, enforce);
    }
  }

  // ----- The exact condition.

  predicate StoresKey(steps: seq<Step>, k: nat, key: string)
    requires k < |steps|
  {
    var op := steps[k].op;
    op.Stored? && op.source < |steps| && steps[op.source].op.Asked? && RequestKey(steps[op.source].op.req) == key
  }

  /** Step j takes away the entry that step k stored: a lookup deletes it, or a store that finds
      the cache full drops it when expired, or else evicts it. */
  predicate TakesAway(steps: seq<Step>, cfg: Setting, k: nat, j: nat, key: string)
    requires k < j < |steps|
  {
    var op, items := steps[j].op, Before(steps, cfg, j);
    || op == Dropped(key)
    || (op.Stored? && |items| >= cfg.max
        && (steps[j].now > steps[k].now + cfg.ttl
            || (op.victim == Some(key) && |DropExpired(items, steps[j].now)| >= cfg.max)))
  }

  lemma StepOnStored(steps: seq<Step>, cfg: Setting, m: nat, key: string)
    requires m < |steps| && ValidRun(steps, cfg) && key in Before(steps, cfg, m) && !StoresKey(steps, m, key)
    ensures var items, now, op := Before(steps, cfg, m), steps[m].now, steps[m].op;
      var after := After(steps, cfg, items, m);
      && (key !in after <==>
            || op == Dropped(key)
            || (op.Stored? && |items| >= cfg.max
                && (now > items[key].expiresAt || (op.victim == Some(key) && |DropExpired(items, now)| >= cfg.max))))
      && (key in after ==> after[key] == items[key])
  {
    assert Enabled(steps, cfg, m);
    hide Before, RequestKey, Storable, LeastExpiry;
  }

  lemma OnlyStoresAdd(steps: seq<Step>, cfg: Setting, m: nat, key: string)
    requires m < |steps| && key !in Before(steps, cfg, m) && !StoresKey(steps, m, key)
    ensures key !in After(steps, cfg, Before(steps, cfg, m), m)
  {
    hide Before, RequestKey, Storable;
  }

  lemma StoreStores(steps: seq<Step>, cfg: Setting, k: nat, key: string)
    requires k < |steps| && StoresKey(steps, k, key)
    ensures key in Before(steps, cfg, k + 1)
    ensures var Asked(req, allow) := steps[steps[k].op.source].op;
            Before(steps, cfg, k + 1)[key] == Entry(Storable(req, Enforced(allow)), steps[k].now + cfg.ttl)
  {
    var items := Before(steps, cfg, k);
    assert Before(steps, cfg, k + 1) == After(steps, cfg, items, k);
    hide Before, RequestKey, Storable;
  }

  lemma RemovalIs(steps: seq<Step>, cfg: Setting, k: nat, m: nat, key: string)
    requires k < m < |steps| && key in Before(steps, cfg, m) && Before(steps, cfg, m)[key].expiresAt == steps[k].now + cfg.ttl
    ensures var items, now, op := Before(steps, cfg, m), steps[m].now, steps[m].op;
      TakesAway(steps, cfg, k, m, key) <==>
        || op == Dropped(key)
        || (op.Stored? && |items| >= cfg.max
            && (now > items[key].expiresAt || (op.victim == Some(key) && |DropExpired(items, now)| >= cfg.max)))
  {
  }

  /** A stored entry stands exactly as long as no step has taken it away. */
  lemma {:induction false} StandsIff(steps: seq<Step>, cfg: Setting, k: nat, n: nat, key: string)
    requires k < n <= |steps| && ValidRun(steps, cfg) && StoresKey(steps, k, key) && forall j :: k < j < n ==> !StoresKey(steps, j, key)
    ensures key in Before(steps, cfg, n) <==> forall j :: k < j < n ==> !TakesAway(steps, cfg, k, j, key)
    ensures key in Before(steps, cfg, n) ==>
      var Asked(req, allow) := steps[steps[k].op.source].op;
      Before(steps, cfg, n)[key] == Entry(Storable(req, Enforced(allow)), steps[k].now + cfg.ttl)
    decreases n
  {
    hide After, Storable, RequestKey, DropExpired, Enabled, TakesAway, StoresKey;
    var m := n - 1;
    if m == k {
      StoreStores(steps, cfg, k, key);
    } else {
      StandsIff(steps, cfg, k, m, key);
      assert !StoresKey(steps, m, key);
      if key in Before(steps, cfg, m) {
        StepOnStored(steps, cfg, m, key);
        RemovalIs(steps, cfg, k, m, key);
      } else {
        OnlyStoresAdd(steps, cfg, m, key);
      }
    }
  }

  /** Step k stored the answer that the lookup of step n gives. */
  predicate AnswersFrom(steps: seq<Step>, cfg: Setting, k: nat, n: nat, key: string)
    requires n < |steps|
  {
    && k < n && StoresKey(steps, k, key) && (forall j :: k < j < n ==> !StoresKey(steps, j, key))
    && (forall j :: k < j < n ==> !TakesAway(steps, cfg, k, j, key))
    && steps[n].now <= steps[k].now + cfg.ttl
  }

  /** The exact condition: the cache answers if and only if an answer was stored under the
      request's key at most the TTL ago and no step has taken it away since. */
  lemma AnswersIff(steps: seq<Step>, cfg: Setting, n: nat, req: Request)
    requires ValidRun(steps, cfg) && n < |steps|
    ensures Lookup(Before(steps, cfg, n), RequestKey(req), steps[n].now).Some? <==>
            exists k: nat :: AnswersFrom(steps, cfg, k, n, RequestKey(req))
  {
    hide RequestKey, Storable, Before, TakesAway;
    var key := RequestKey(req);
    if key in Before(steps, cfg, n) {
      var stored := EntriesAreStored(steps, cfg, n, key);
      var last := LastStore(steps, stored, n, key);
      StandsIff(steps, cfg, last, n, key);
      if steps[n].now <= Before(steps, cfg, n)[key].expiresAt { assert AnswersFrom(steps, cfg, last, n, key); }
    }
    if k: nat :| AnswersFrom(steps, cfg, k, n, key) {
      StandsIff(steps, cfg, k, n, key);
    }
  }

  lemma {:induction false} LastStore(steps: seq<Step>, k: nat, n: nat, key: string) returns (last: nat)
    requires k < n <= |steps| && StoresKey(steps, k, key)
    ensures k <= last < n && StoresKey(steps, last, key) && forall j :: last < j < n ==> !StoresKey(steps, j, key)
  {
    hide StoresKey;
    if StoresKey(steps, n - 1, key) { last := n - 1; } else { last := LastStore(steps, k, n - 1, key); }
  }
}
