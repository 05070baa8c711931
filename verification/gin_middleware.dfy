/** The principal cache of the Gin middleware and the decision RequireLogin takes with it
    (pkg/aisphereauth/gin/middleware.go). */
module GinMiddleware {
  import opened SessionStore
  import opened Wrappers

  const DEFAULT_TTL: int := 5_000_000_000

  datatype Options = Options(app: string, cacheTTL: int, disableCache: bool)

  function CacheTTL(opts: Options): int {
    if opts.disableCache then 0 else if opts.cacheTTL > 0 then opts.cacheTTL else DEFAULT_TTL
  }

  datatype Entry = Entry(principal: Principal, expiresAt: int)

  type Entries = map<string, Entry>

  function Key(id: string, app: string): string {
    id + "|" + app
  }

  lemma KeyInjective(a: string, b: string, app: string)
    requires Key(a, app) == Key(b, app)
    ensures a == b
  {
    assert a == Key(a, app)[..|a|] && b == Key(b, app)[..|b|];
  }

  /** What the cache answers at a time. */
  function Cached(ttl: int, entries: Entries, key: string, now: int): Option<Principal> {
    if ttl > 0 && key in entries && !(now > entries[key].expiresAt) then Some(entries[key].principal) else None
  }

  function AfterGet(ttl: int, entries: Entries, key: string, now: int): Entries {
    if ttl > 0 && key in entries && now > entries[key].expiresAt then entries - {key} else entries
  }

  function AfterSet(ttl: int, entries: Entries, key: string, p: Option<Principal>, now: int): Entries {
    if ttl <= 0 || p.None? then entries else entries[key := Entry(p.value, now + ttl)]
  }

  class PrincipalCache {
    const ttl: int
    var entries: Entries

    constructor (ttl: int)
      ensures this.ttl == ttl && entries == map[]
    {
      this.ttl := ttl;
      entries := map[];
    }

    method Get(key: string, now: int) returns (r: Option<Principal>)
      modifies this
      ensures r == Cached(ttl, old(entries), key, now)
      ensures entries == AfterGet(ttl, old(entries), key, now)
      ensures ttl > 0 && key in entries ==> r.Some? && now <= entries[key].expiresAt
    {
      if ttl <= 0 || key !in entries {
        return None;
      }
      if now > entries[key].expiresAt {
        entries := entries - {key};
        return None;
      }
      return Some(entries[key].principal);
    }

    method Set(key: string, p: Option<Principal>, now: int)
      modifies this
      ensures entries == AfterSet(ttl, old(entries), key, p, now)
    {
      if ttl <= 0 || p.None? {
        return;
      }
      entries := entries[key := Entry(p.value, now + ttl)];
    }
  }

  /** RequireLogin's outcome: the principal it lets through, or a refusal. */
  datatype Login = LetThrough(principal: Option<Principal>, fromCache: bool) | Refused

  /** RequireLogin for one request.  `introspect` is what the auth service would answer: None
      for an error, otherwise a principal that may itself be null. */
  method RequireLogin(cache: PrincipalCache, opts: Options, id: string, introspect: Option<Option<Principal>>,
                      asked: int, stored: int)
    returns (r: Login)
    requires cache.ttl == CacheTTL(opts)
    modifies cache
    ensures id == "" ==> r == Refused && cache.entries == old(cache.entries)
    ensures id != "" ==>
      var key := Key(id, opts.app);
      var cached := Cached(cache.ttl, old(cache.entries), key, asked);
      r == (if cached.Some? then LetThrough(cached, true)
            else if introspect.Some? then LetThrough(introspect.value, false)
            else Refused)
      && cache.entries == (if cached.Some? || introspect.None? then AfterGet(cache.ttl, old(cache.entries), key, asked)
                           else AfterSet(cache.ttl, AfterGet(cache.ttl, old(cache.entries), key, asked), key, introspect.value, stored))
  {
    if id == "" {
      return Refused;
    }
    var key := id + "|" + opts.app;
    if !opts.disableCache {
      var p := cache.Get(key, asked);
      if p.Some? {
        return LetThrough(p, true);
      }
    }
    if introspect.None? {
      return Refused;
    }
    if !opts.disableCache {
      cache.Set(key, introspect.value, stored);
    }
    return LetThrough(introspect.value, false);
  }
}

/** RequireLogin against a session store that changes under it.  Introspecting a session and
    storing the answer are two steps that other steps may come between. */
module RequireLoginRuns {
  import opened GinMiddleware
  import opened SessionStore
  import S = SessionRuns
  import opened Wrappers

  datatype Op =
    | Session(op: S.Op)
    | Introspect(id: string)            // look the session up for a request
    | Remember(id: string, source: nat) // cache what step `source` found
    | Serve(id: string)                 // answer a request from the cache

  datatype Event = Event(now: int, op: Op)

  /** The run as the session store sees it. */
  function StoreSteps(events: seq<Event>): (steps: seq<S.Step>)
    ensures |steps| == |events|
    ensures forall i :: 0 <= i < |events| ==> steps[i] == StoreStep(events[i])
  {
    seq(|events|, i requires 0 <= i < |events| => StoreStep(events[i]))
  }

  function StoreStep(e: Event): S.Step {
    S.Step(e.now, if e.op.Session? then e.op.op else S.Look(e.op.id))
  }

  predicate Finds(events: seq<Event>, n: nat, id: string)
    requires n < |events|
  {
    events[n].op == Introspect(id) && S.Hits(StoreSteps(events), n, id)
  }

  function Found(events: seq<Event>, n: nat, id: string): Option<Principal>
    requires n < |events| && Finds(events, n, id)
  {
    S.Before(StoreSteps(events), n)[id].principal
  }

  /** An answer is stored only for an introspection that succeeded, within `latency` of it. */
  predicate Enabled(latency: int, events: seq<Event>, n: nat)
    requires n < |events|
  {
    var op := events[n].op;
    op.Remember? ==>
      op.source < n && Finds(events, op.source, op.id) && events[n].now <= events[op.source].now + latency
  }

  predicate ValidRun(latency: int, events: seq<Event>) {
    && (forall n: nat :: n < |events| ==> Enabled(latency, events, n))
    && (forall i, j :: 0 <= i <= j < |events| ==> events[i].now <= events[j].now)
  }

  function Before(opts: Options, latency: int, events: seq<Event>, n: nat): Entries
    requires n <= |events| && ValidRun(latency, events)
  {
    if n == 0 then map[]
    else
      var entries, e, ttl := Before(opts, latency, events, n - 1), events[n - 1], CacheTTL(opts);
      match e.op
      case Remember(id, source) =>
        assert Enabled(latency, events, n - 1);
        AfterSet(ttl, entries, Key(id, opts.app), Found(events, source, id), e.now)
      case Serve(id) => AfterGet(ttl, entries, Key(id, opts.app), e.now)
      case _ => entries
  }

  /** RequireLogin answers a request for `id` from the cache at event n. */
  predicate Served(opts: Options, latency: int, events: seq<Event>, n: nat, id: string)
    requires n < |events| && ValidRun(latency, events)
  {
    events[n].op == Serve(id)
    && Cached(CacheTTL(opts), Before(opts, latency, events, n), Key(id, opts.app), events[n].now).Some?
  }

  /** Every cached entry was stored by an earlier event, for what an earlier lookup found. */
  lemma {:induction false} EntriesAreRemembered(opts: Options, latency: int, events: seq<Event>, n: nat, id: string)
    returns (k: nat)
    requires n <= |events| && ValidRun(latency, events)
    requires Key(id, opts.app) in Before(opts, latency, events, n)
    ensures k < n && events[k].op.Remember? && events[k].op.id == id && Enabled(latency, events, k)
    ensures var e := Before(opts, latency, events, n)[Key(id, opts.app)];
            e.expiresAt == events[k].now + CacheTTL(opts)
            && Found(events, events[k].op.source, id) == Some(e.principal)
  {
    var m := n - 1;
    assert Enabled(latency, events, m);
    if events[m].op.Remember? && events[m].op.id == id && Found(events, events[m].op.source, id).Some? && CacheTTL(opts) > 0 {
      k := m;
    } else {
      if events[m].op.Remember? && Key(events[m].op.id, opts.app) == Key(id, opts.app) {
        KeyInjective(events[m].op.id, id, opts.app);
      }
      k := EntriesAreRemembered(opts, latency, events, m, id);
    }
  }

  /** A logged-out session is never found again, and RequireLogin stops serving it from its
      cache once CacheTTL, plus the time an answer may take to be stored, has passed.  With
      introspection and storing as one step the bound is CacheTTL. */
  lemma LogoutTakesEffect(opts: Options, latency: int, events: seq<Event>, c: nat, d: nat, n: nat, id: string)
    requires ValidRun(latency, events) && S.FreshIds(StoreSteps(events)) && c < d < n < |events|
    requires S.Creates(StoreSteps(events), c, id)
    requires events[d].op == Op.Session(S.Delete(id))
    ensures !Finds(events, n, id)
    ensures Served(opts, latency, events, n, id) ==> events[n].now <= events[d].now + latency + CacheTTL(opts)
  {
    var steps := StoreSteps(events);
    S.DeletedStaysDeleted(steps, c, d, n, id);
    if Served(opts, latency, events, n, id) {
      var k := EntriesAreRemembered(opts, latency, events, n, id);
      var source := events[k].op.source;
      if source > d {
        S.DeletedStaysDeleted(steps, c, d, source, id);
      }
      assert source != d;
    }
  }

  /** Event n serves the session `id`, created by c, later than CacheTTL after its logout at d. */
  ghost predicate LateService(opts: Options, latency: int, events: seq<Event>, c: nat, d: nat, n: nat, id: string) {
    && ValidRun(latency, events) && S.FreshIds(StoreSteps(events)) && c < d < n < |events|
    && S.Creates(StoreSteps(events), c, id) && events[d].op == Op.Session(S.Delete(id))
    && Served(opts, latency, events, n, id) && events[n].now > events[d].now + CacheTTL(opts)
  }

  /** In some run with this store latency a session is served later than CacheTTL after its logout. */
  ghost predicate ServesLate(opts: Options, latency: int) {
    exists events, c: nat, d: nat, n: nat, id :: LateService(opts, latency, events, c, d, n, id)
  }

  /** A session is created, introspected and logged out at time 0, cached `latency` later and
      served when the entry is about to expire. */
  function LateRun(opts: Options, latency: int, id: string, p: Principal): seq<Event> {
    [Event(0, Op.Session(S.Create(SessionStore.Session(id, Some(p), 0, 0, 0), latency + CacheTTL(opts)))),
     Event(0, Introspect(id)),
     Event(0, Op.Session(S.Delete(id))),
     Event(latency, Remember(id, 1)),
     Event(latency + CacheTTL(opts), Serve(id))]
  }

  lemma LateRunFinds(opts: Options, latency: int, id: string, p: Principal)
    requires id != "" && latency >= 0 && CacheTTL(opts) > 0
    ensures var events := LateRun(opts, latency, id, p);
            S.Creates(StoreSteps(events), 0, id) && Finds(events, 1, id) && Found(events, 1, id) == Some(p)
  {
    var steps := StoreSteps(LateRun(opts, latency, id, p));
    assert S.Before(steps, 0) == map[];
    assert S.Before(steps, 1) == S.After(S.Before(steps, 0), steps[0]);
  }

  /** The bound of LogoutTakesEffect is reached, at every latency. */
  lemma LateRunServes(opts: Options, latency: int, id: string, p: Principal)
    requires id != "" && latency >= 0 && CacheTTL(opts) > 0
    ensures var events := LateRun(opts, latency, id, p);
            ValidRun(latency, events) && S.FreshIds(StoreSteps(events)) && Served(opts, latency, events, 4, id)
  {
    var events := LateRun(opts, latency, id, p);
    LateRunFinds(opts, latency, id, p);
    hide S.Before, S.After, Finds, Found;
    forall n: nat | n < |events| ensures Enabled(latency, events, n) {
    }
    assert Before(opts, latency, events, 0) == map[];
    assert Before(opts, latency, events, 1) == Before(opts, latency, events, 2) == Before(opts, latency, events, 3) == map[];
    assert Before(opts, latency, events, 4) == AfterSet(CacheTTL(opts), map[], Key(id, opts.app), Some(p), latency);
  }

  /** CacheTTL after its logout a session is served no more, in any run, if and only if the
      answer of an introspection takes no time to be stored, or caching is off. */
  lemma ServesLateIff(opts: Options, latency: int)
    ensures ServesLate(opts, latency) <==> latency > 0 && !opts.disableCache
  {
    if latency > 0 && !opts.disableCache {
      var id, p := "s", Principal("human:u", opts.app);
      LateRunServes(opts, latency, id, p);
      LateRunFinds(opts, latency, id, p);
      var events := LateRun(opts, latency, id, p);
      assert LateService(opts, latency, events, 0, 2, 4, id);
    } else if ServesLate(opts, latency) {
      var events, c: nat, d: nat, n: nat, id :| LateService(opts, latency, events, c, d, n, id);
      LogoutTakesEffect(opts, latency, events, c, d, n, id);
    }
  }

  /** What RequireLogin serves from the cache is the principal the session was created with. */
  lemma ServedPrincipal(opts: Options, latency: int, events: seq<Event>, n: nat, id: string) returns (c: nat)
    requires ValidRun(latency, events) && n < |events| && Served(opts, latency, events, n, id)
    ensures c < n && S.Creates(StoreSteps(events), c, id)
    ensures Cached(CacheTTL(opts), Before(opts, latency, events, n), Key(id, opts.app), events[n].now)
         == StoreSteps(events)[c].op.session.principal
  {
    var k := EntriesAreRemembered(opts, latency, events, n, id);
    var g: nat;
    c, g := S.HitIsLive(StoreSteps(events), events[k].op.source, id);
  }

  // ----- The exact condition.

  /** Event k stored a principal for the session that is unexpired at event n: a cached answer
      lives for the TTL given, or for five seconds. */
  predicate RememberedAt(opts: Options, events: seq<Event>, k: nat, n: nat, id: string)
    requires n < |events|
  {
    && k < n && events[k].op.Remember? && events[k].op.id == id && events[k].op.source < |events|
    && Finds(events, events[k].op.source, id) && Found(events, events[k].op.source, id).Some?
    && events[n].now <= events[k].now + if opts.cacheTTL > 0 then opts.cacheTTL else 5_000_000_000
  }

  /** From an event that stores the principal on, an entry of at least its expiry stands until
      that has passed. */
  lemma {:induction false} RememberedStands(opts: Options, latency: int, events: seq<Event>, k: nat, n: nat, id: string)
    requires n < |events| && ValidRun(latency, events) && !opts.disableCache && RememberedAt(opts, events, k, n, id)
    ensures Key(id, opts.app) in Before(opts, latency, events, n)
    ensures Before(opts, latency, events, n)[Key(id, opts.app)].expiresAt >= events[k].now + CacheTTL(opts)
    decreases n
  {
    var m := n - 1;
    assert Enabled(latency, events, m);
    if k < m {
      assert events[m].now <= events[n].now;
      RememberedStands(opts, latency, events, k, m, id);
    }
  }

  /** RequireLogin answers from the cache if and only if a principal was stored for the session
      at most one TTL before, whatever else was asked and stored meanwhile. */
  lemma ServedIff(opts: Options, latency: int, events: seq<Event>, n: nat, id: string)
    requires n < |events| && ValidRun(latency, events) && events[n].op == Serve(id)
    ensures Served(opts, latency, events, n, id) <==>
            !opts.disableCache && exists k: nat :: RememberedAt(opts, events, k, n, id)
  {
    hide Before, Finds, Found;
    if Served(opts, latency, events, n, id) {
      var k := EntriesAreRemembered(opts, latency, events, n, id);
      assert RememberedAt(opts, events, k, n, id);
    } else if !opts.disableCache {
      forall k: nat | RememberedAt(opts, events, k, n, id) ensures false {
        RememberedStands(opts, latency, events, k, n, id);
      }
    }
  }
}
