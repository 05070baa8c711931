/** The in-memory store of OAuth login states (internal/authn/memory_state_store.go). */
module LoginStates {
  import opened Wrappers

  const MAX_STATES := 10000
  const MAX_STATE_LENGTH := 128

  datatype LoginState = LoginState(state: string, app: string, redirect: string, createdAt: int)

  datatype Item = Item(login: LoginState, expiresAt: int)

  type Items = map<string, Item>

  datatype CreateResult = Created | InvalidState | StoreFull

  predicate ValidLength(state: string) {
    0 < |state| <= MAX_STATE_LENGTH
  }

  function DropExpired(items: Items, now: int): Items {
    map k | k in items && !(now > items[k].expiresAt) :: items[k]
  }

  function MakeRoom(items: Items, now: int): Items {
    if |items| >= MAX_STATES then DropExpired(items, now) else items
  }

  function CreateOutcome(items: Items, st: LoginState, now: int): CreateResult {
    if !ValidLength(st.state) then InvalidState
    else if |MakeRoom(items, now)| >= MAX_STATES then StoreFull
    else Created
  }

  function AfterCreate(items: Items, st: LoginState, ttl: int, now: int): Items {
    match CreateOutcome(items, st, now)
    case InvalidState => items
    case StoreFull => MakeRoom(items, now)
    case Created => MakeRoom(items, now)[st.state := Item(st, now + ttl)]
  }

  /** The state a callback gets: present and not expired.  Either way it is gone afterwards. */
  function Consumed(items: Items, state: string, now: int): Option<LoginState> {
    if ValidLength(state) && state in items && !(now > items[state].expiresAt) then Some(items[state].login) else None
  }

  function AfterConsume(items: Items, state: string): Items {
    if ValidLength(state) then items - {state} else items
  }

  class MemoryStateStore {
    var items: Items

    constructor ()
      ensures items == map[]
    {
      items := map[];
    }

    method Create(st: LoginState, ttl: int, now: int) returns (r: CreateResult)
      modifies this
      ensures r == CreateOutcome(old(items), st, now)
      ensures items == AfterCreate(old(items), st, ttl, now)
    {
      if |st.state| == 0 || |st.state| > MAX_STATE_LENGTH {
        return InvalidState;
      }
      if |items| >= MAX_STATES {
        var removed := CleanupExpired(now);
      }
      if |items| >= MAX_STATES {
        return StoreFull;
      }
      items := items[st.state := Item(st, now + ttl)];
      return Created;
    }

    method Consume(state: string, now: int) returns (r: Option<LoginState>)
      modifies this
      ensures r == Consumed(old(items), state, now)
      ensures items == AfterConsume(old(items), state)
    {
      if |state| == 0 || |state| > MAX_STATE_LENGTH {
        return None;
      }
      if state !in items {
        return None;
      }
      var item := items[state];
      items := items - {state};
      if now > item.expiresAt {
        return None;
      }
      return Some(item.login);
    }

    method CleanupExpired(now: int) returns (removed: nat)
      modifies this
      ensures items == DropExpired(old(items), now)
      ensures removed == |old(items)| - |items|
    {
      removed := 0;
      var todo := items.Keys;
      while todo != {}
        invariant todo <= items.Keys <= old(items).Keys
        invariant forall k :: k in items ==> items[k] == old(items)[k]
        invariant forall k :: k in old(items) && k !in todo ==> (k in items <==> !(now > old(items)[k].expiresAt))
        invariant removed == |old(items)| - |items|
        decreases todo
      {
        var k :| k in todo;
        if now > items[k].expiresAt {
          assert (items - {k}).Keys == items.Keys - {k};
          assert |items - {k}| == |items.Keys - {k}|;
          items := items - {k};
          removed := removed + 1;
        }
        todo := todo - {k};
      }
    }
  }
}

/** Login and callback of the authentication service (internal/authn/service_impl.go) as the
    state store sees them: steps that any number of requests take in any order. */
module LoginRuns {
  import opened LoginStates
  import opened Sizes
  import opened Text
  import opened Wrappers

  const STATE_TTL: int := 600_000_000_000

  datatype Op =
    | Login(state: string, app: string, redirect: string)    // LoginURL stores a fresh state
    | Callback(state: string)                                // HandleCallback consumes it
    | Sweep
    | Other                                                  // a step that leaves the state store alone

  datatype Step = Step(now: int, op: Op)

  /** What LoginURL stores. */
  function Stored(s: Step): LoginState
    requires s.op.Login?
  {
    var app := TrimSpace(s.op.app);
    LoginState(s.op.state, if app == "" then "portal" else app, s.op.redirect, s.now)
  }

  function After(items: Items, s: Step): Items {
    match s.op
    case Login(_, _, _) => AfterCreate(items, Stored(s), STATE_TTL, s.now)
    case Callback(state) => AfterConsume(items, state)
    case Sweep => DropExpired(items, s.now)
    case Other => items
  }

  function Before(steps: seq<Step>, n: nat): Items
    requires n <= |steps|
  {
    if n == 0 then map[] else After(Before(steps, n - 1), steps[n - 1])
  }

  predicate LogsIn(steps: seq<Step>, n: nat, state: string)
    requires n < |steps|
  {
    steps[n].op.Login? && steps[n].op.state == state && CreateOutcome(Before(steps, n), Stored(steps[n]), steps[n].now).Created?
  }

  /** What the callback of step n consumed, if it was accepted. */
  function Accepted(steps: seq<Step>, n: nat): Option<LoginState>
    requires n < |steps|
  {
    if steps[n].op.Callback? then Consumed(Before(steps, n), steps[n].op.state, steps[n].now) else None
  }

  /** States are random: no two logins store the same one. */
  ghost predicate FreshStates(steps: seq<Step>) {
    forall i, j, state :: 0 <= i < j < |steps| && LogsIn(steps, i, state) ==> !LogsIn(steps, j, state)
  }

  /** A stored state stands in the store because login i stored it and no callback has used it since. */
  predicate Justified(steps: seq<Step>, n: nat, state: string, item: Item, i: nat)
    requires n <= |steps|
  {
    && i < n && LogsIn(steps, i, state)
    && item == Item(Stored(steps[i]), steps[i].now + STATE_TTL)
    && forall j :: i < j < n ==> steps[j].op != Callback(state)
  }

  lemma {:induction false} ItemsAreJustified(steps: seq<Step>, n: nat, state: string) returns (i: nat)
    requires n <= |steps| && state in Before(steps, n)
    ensures ValidLength(state) && Justified(steps, n, state, Before(steps, n)[state], i)
  {
    var m := n - 1;
    if LogsIn(steps, m, state) {
      i := m;
    } else {
      i := ItemsAreJustified(steps, m, state);
    }
  }

  /** An accepted callback got what one earlier login stored, at most ten minutes before. */
  lemma CallbackMatchesLogin(steps: seq<Step>, n: nat) returns (i: nat)
    requires n < |steps| && Accepted(steps, n).Some?
    ensures i < n && LogsIn(steps, i, steps[n].op.state)
    ensures Accepted(steps, n) == Some(Stored(steps[i])) && steps[n].now <= steps[i].now + STATE_TTL
    ensures forall j :: i < j < n ==> steps[j].op != Callback(steps[n].op.state)
  {
    i := ItemsAreJustified(steps, n, steps[n].op.state);
  }

  /** One-shot: with fresh states, no state is accepted by two callbacks. */
  lemma StateAcceptedOnce(steps: seq<Step>, m: nat, n: nat)
    requires FreshStates(steps) && m < n < |steps|
    requires Accepted(steps, m).Some? && Accepted(steps, n).Some?
    ensures steps[m].op.state != steps[n].op.state
  {
    var i := CallbackMatchesLogin(steps, m);
    var j := CallbackMatchesLogin(steps, n);
  }

  // ----- The exact condition.

  /** Step n drops what has expired: a sweep, or a login with a fit state that finds 10000 states. */
  predicate Sweeps(steps: seq<Step>, n: nat)
    requires n < |steps|
  {
    var op := steps[n].op;
    op.Sweep? || (op.Login? && 0 < |op.state| <= 128 && |Before(steps, n)| >= 10000)
  }

  /** Step j takes away the state that login i stored: a callback uses it, or what has expired
      is dropped more than ten minutes after the login. */
  predicate TakesAway(steps: seq<Step>, i: nat, j: nat, state: string)
    requires i < j < |steps|
  {
    steps[j].op == Callback(state) || (Sweeps(steps, j) && steps[j].now > steps[i].now + 600_000_000_000)
  }

  lemma StepOnStored(steps: seq<Step>, m: nat, state: string)
    requires m < |steps| && state in Before(steps, m) && 0 < |state| <= 128 && !LogsIn(steps, m, state)
    ensures var before, after := Before(steps, m)[state], After(Before(steps, m), steps[m]);
      && (state !in after <==> steps[m].op == Callback(state) || (Sweeps(steps, m) && steps[m].now > before.expiresAt))
      && (state in after ==> after[state] == before)
  {
    hide Before, TrimSpace;
  }

  lemma OnlyLoginsAdd(steps: seq<Step>, m: nat, state: string)
    requires m < |steps| && state !in Before(steps, m) && !LogsIn(steps, m, state)
    ensures state !in After(Before(steps, m), steps[m])
  {
    hide Before, TrimSpace;
  }

  lemma LoginStores(steps: seq<Step>, i: nat, state: string)
    requires i < |steps| && LogsIn(steps, i, state)
    ensures 0 < |state| <= 128 && state in Before(steps, i + 1)
    ensures Before(steps, i + 1)[state] == Item(Stored(steps[i]), steps[i].now + 600_000_000_000)
  {
    var items := Before(steps, i);
    assert Before(steps, i + 1) == After(items, steps[i]);
    hide Before, TrimSpace;
  }

  /** A stored state stands exactly as long as no step has taken it away. */
  lemma {:induction false} StandsIff(steps: seq<Step>, i: nat, n: nat, state: string)
    requires i < n <= |steps| && LogsIn(steps, i, state) && forall j :: i < j < n ==> !LogsIn(steps, j, state)
    ensures 0 < |state| <= 128
    ensures state in Before(steps, n) <==> forall j :: i < j < n ==> !TakesAway(steps, i, j, state)
    ensures state in Before(steps, n) ==> Before(steps, n)[state] == Item(Stored(steps[i]), steps[i].now + 600_000_000_000)
    decreases n
  {
    hide After, LogsIn, Sweeps, Stored;
    var m := n - 1;
    if m == i {
      LoginStores(steps, i, state);
    } else {
      StandsIff(steps, i, m, state);
      assert !LogsIn(steps, m, state);
      if state in Before(steps, m) {
        StepOnStored(steps, m, state);
        assert TakesAway(steps, i, m, state) <==>
               steps[m].op == Callback(state) || (Sweeps(steps, m) && steps[m].now > Before(steps, m)[state].expiresAt);
      } else {
        OnlyLoginsAdd(steps, m, state);
      }
    }
  }

  /** Login i stored the state that the callback of step n is accepted with. */
  predicate AcceptedFrom(steps: seq<Step>, i: nat, n: nat, state: string)
    requires n < |steps|
  {
    && i < n && LogsIn(steps, i, state) && (forall j :: i < j < n ==> !LogsIn(steps, j, state))
    && (forall j :: i < j < n ==> !TakesAway(steps, i, j, state))
    && steps[n].now <= steps[i].now + 600_000_000_000
  }

  /** The exact condition, for every run and any clock: a callback is accepted if and only if its
      state was stored by a login at most ten minutes before and no step has taken it away since,
      and what it gets is the redirect and the app of that login. */
  lemma AcceptedIff(steps: seq<Step>, n: nat, state: string)
    requires n < |steps| && steps[n].op == Callback(state)
    ensures Accepted(steps, n).Some? <==> exists i: nat :: AcceptedFrom(steps, i, n, state)
    ensures forall i: nat :: AcceptedFrom(steps, i, n, state) ==>
      Accepted(steps, n) == Some(LoginState(state, if TrimSpace(steps[i].op.app) == "" then "portal" else TrimSpace(steps[i].op.app),
                                            steps[i].op.redirect, steps[i].now))
  {
    hide Before, TakesAway, TrimSpace;
    if state in Before(steps, n) {
      var i := ItemsAreJustified(steps, n, state);
      var last := LastLogin(steps, i, n, state);
      StandsIff(steps, last, n, state);
      if Accepted(steps, n).Some? { assert AcceptedFrom(steps, last, n, state); }
    }
    forall i: nat | AcceptedFrom(steps, i, n, state)
      ensures Accepted(steps, n) == Some(Stored(steps[i])) && steps[i].op.Login? && steps[i].op.state == state
    {
      StandsIff(steps, i, n, state);
    }
  }

  lemma {:induction false} LastLogin(steps: seq<Step>, i: nat, n: nat, state: string) returns (last: nat)
    requires i < n <= |steps| && LogsIn(steps, i, state)
    ensures i <= last < n && LogsIn(steps, last, state) && forall j :: last < j < n ==> !LogsIn(steps, j, state)
  {
    hide LogsIn;
    if LogsIn(steps, n - 1, state) { last := n - 1; } else { last := LastLogin(steps, i, n - 1, state); }
  }

  // ----- Room.

  lemma DroppedSize(items: Items, now: int)
    ensures |DropExpired(items, now)| <= |items|
    ensures |DropExpired(items, now)| == |items| <==> forall k :: k in items ==> now <= items[k].expiresAt
  {
    var kept := DropExpired(items, now);
    SubsetSize(kept.Keys, items.Keys);
    assert |kept.Keys| == |kept| && |items.Keys| == |items|;
    assert kept.Keys == items.Keys <==> forall k :: k in items ==> k in kept.Keys;
  }

  lemma StepSize(items: Items, s: Step)
    requires |items| <= 10000
    ensures |After(items, s)| <= 10000
  {
    hide Stored;
    DroppedSize(items, s.now);
    match s.op
    case Login(state, _, _) =>
      InsertSize(MakeRoom(items, s.now), state, Item(Stored(s), s.now + STATE_TTL));
      StoredState(s);
    case Callback(state) => RemoveSize(items, state);
    case _ =>
  }

  lemma StoredState(s: Step)
    requires s.op.Login?
    ensures Stored(s).state == s.op.state
  {
  }

  /** The store never holds more than 10000 states ... */
  lemma {:induction false} SizeIsBounded(steps: seq<Step>, n: nat)
    requires n <= |steps|
    ensures |Before(steps, n)| <= 10000
  {
    if n > 0 {
      SizeIsBounded(steps, n - 1);
      StepSize(Before(steps, n - 1), steps[n - 1]);
    }
  }

  /** ... and a login is refused exactly when its state is empty or longer than 128 characters, or
      10000 states stand that are all unexpired. */
  lemma RefusedIff(steps: seq<Step>, n: nat)
    requires n < |steps| && steps[n].op.Login?
    ensures !LogsIn(steps, n, steps[n].op.state) <==>
      || |steps[n].op.state| == 0 || |steps[n].op.state| > 128
      || (|Before(steps, n)| == 10000 && forall k :: k in Before(steps, n) ==> steps[n].now <= Before(steps, n)[k].expiresAt)
  {
    SizeIsBounded(steps, n);
    DroppedSize(Before(steps, n), steps[n].now);
    hide Before, DropExpired, TrimSpace;
  }
}
