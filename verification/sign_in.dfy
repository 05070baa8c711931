/** Signing in from end to end: logins, callbacks and session steps of any number of requests,
    interleaved in any order over the state store and the session store. */
module SignInRuns {
  import opened AuthnService
  import opened SessionStore
  import opened Wrappers
  import S = SessionRuns

  datatype Setting = Setting(owner: string, ttl: int)

  datatype Op =
    | Login(state: string, app: string, redirect: string)
    | Callback(state: string)                       // HandleCallback consumes the state ...
    | Open(callback: nat, user: UserInfo, id: string, decided: int, measured: int)  // ... and later opens a session
    | Store(op: S.Op)                               // any step on a session that exists
    | SweepStates

  datatype Step = Step(now: int, op: Op)

  /** The two stores, the login states that callbacks under way have consumed, by step, and
      the redirects that finished callbacks have answered with, by session. */
  datatype World = World(states: L.Items, pending: map<nat, L.LoginState>, sessions: Sessions, redirects: map<string, string>)

  function Opened(cfg: Setting, w: World, op: Op): Session
    requires op.Open? && op.callback in w.pending
  {
    NewSession(cfg.owner, cfg.ttl, w.pending[op.callback], op.user, op.id, op.decided)
  }

  function AfterOpen(cfg: Setting, w: World, op: Op, now: int): World
    requires op.Open? && op.callback in w.pending
  {
    var sess, redirect := Opened(cfg, w, op), w.pending[op.callback].redirect;
    w.(pending := w.pending - {op.callback},
       sessions := AfterCreate(w.sessions, sess, sess.expiresAt - op.measured, now),
       redirects := if CreateOutcome(w.sessions, sess, now).Created? then w.redirects[op.id := redirect] else w.redirects)
  }

  /** Step n. */
  function After(cfg: Setting, w: World, n: nat, s: Step): World {
    match s.op
    case Login(state, app, redirect) => w.(states := LoginRuns.After(w.states, StateStep(s)))
    case Callback(state) =>
      var login := L.Consumed(w.states, state, s.now);
      w.(states := LoginRuns.After(w.states, StateStep(s)),
         pending := if login.Some? then w.pending[n := login.value] else w.pending)
    case Open(callback, _, _, _, _) => if callback in w.pending then AfterOpen(cfg, w, s.op, s.now) else w
    case Store(op) => if op.Create? then w else w.(sessions := S.After(w.sessions, S.Step(s.now, op)))
    case SweepStates => w.(states := LoginRuns.After(w.states, StateStep(s)))
  }

  function Before(cfg: Setting, steps: seq<Step>, n: nat): World
    requires n <= |steps|
  {
    if n == 0 then World(map[], map[], map[], map[]) else After(cfg, Before(cfg, steps, n - 1), n - 1, steps[n - 1])
  }

  // ----- The run as each store sees it.

  function StateStep(s: Step): LoginRuns.Step {
    LoginRuns.Step(s.now, match s.op
                          case Login(state, app, redirect) => LoginRuns.Login(state, app, redirect)
                          case Callback(state) => LoginRuns.Callback(state)
                          case SweepStates => LoginRuns.Sweep
                          case _ => LoginRuns.Other)
  }

  function StateSteps(steps: seq<Step>): (r: seq<LoginRuns.Step>)
    ensures |r| == |steps| && forall i :: 0 <= i < |r| ==> r[i] == StateStep(steps[i])
  {
    seq(|steps|, i requires 0 <= i < |steps| => StateStep(steps[i]))
  }

  /** Step n opens a session for the login state that its callback consumed. */
  predicate Opens(cfg: Setting, steps: seq<Step>, n: nat)
    requires n < |steps|
  {
    steps[n].op.Open? && steps[n].op.callback in Before(cfg, steps, n).pending
  }

  /** A step that is none of the session store's looks up no session. */
  function SessionStep(cfg: Setting, steps: seq<Step>, n: nat): S.Step
    requires n < |steps|
  {
    var s := steps[n];
    S.Step(s.now, if Opens(cfg, steps, n) then
                    var sess := Opened(cfg, Before(cfg, steps, n), s.op);
                    S.Create(sess, sess.expiresAt - s.op.measured)
                  else if s.op.Store? && !s.op.op.Create? then s.op.op
                  else S.Look(""))
  }

  function SessionSteps(cfg: Setting, steps: seq<Step>): (r: seq<S.Step>)
    ensures |r| == |steps| && forall i :: 0 <= i < |r| ==> r[i] == SessionStep(cfg, steps, i)
  {
    seq(|steps|, i requires 0 <= i < |steps| => SessionStep(cfg, steps, i))
  }

  lemma StepStates(cfg: Setting, w: World, n: nat, s: Step)
    ensures After(cfg, w, n, s).states == LoginRuns.After(w.states, StateStep(s))
  {
    hide LoginRuns.Stored, L.AfterCreate, L.AfterConsume, L.DropExpired, L.Consumed, NewSession, AfterCreate, S.After;
  }

  lemma SessionAfter(m: Sessions, now: int, sess: Session, ttl: int)
    ensures S.After(m, S.Step(now, S.Look(""))) == m
    ensures S.After(m, S.Step(now, S.Create(sess, ttl))) == AfterCreate(m, sess, ttl, now)
  {
  }

  lemma StepSessions(cfg: Setting, steps: seq<Step>, n: nat)
    requires n < |steps|
    ensures After(cfg, Before(cfg, steps, n), n, steps[n]).sessions
         == S.After(Before(cfg, steps, n).sessions, SessionStep(cfg, steps, n))
  {
    hide Before, LoginRuns.After, L.Consumed, AfterCreate, S.After, Opened, CreateOutcome;
    var w, s := Before(cfg, steps, n), steps[n];
    var sess := if Opens(cfg, steps, n) then Opened(cfg, w, s.op) else Session("", None, 0, 0, 0);
    SessionAfter(w.sessions, s.now, sess, if s.op.Open? then sess.expiresAt - s.op.measured else 0);
  }

  lemma {:induction false} StoresSeeTheRun(cfg: Setting, steps: seq<Step>, n: nat)
    requires n <= |steps|
    ensures Before(cfg, steps, n).states == LoginRuns.Before(StateSteps(steps), n)
    ensures Before(cfg, steps, n).sessions == S.Before(SessionSteps(cfg, steps), n)
  {
    hide After, S.After, LoginRuns.After, StateStep, SessionStep;
    if n > 0 {
      StoresSeeTheRun(cfg, steps, n - 1);
      StepStates(cfg, Before(cfg, steps, n - 1), n - 1, steps[n - 1]);
      StepSessions(cfg, steps, n - 1);
      assert StateSteps(steps)[n - 1] == StateStep(steps[n - 1]);
      assert SessionSteps(cfg, steps)[n - 1] == SessionStep(cfg, steps, n - 1);
    }
  }

  /** A callback is under way after a step if it was before, and the step has not opened its
      session, or if the step is its consumption of a state. */
  lemma StepPending(cfg: Setting, w: World, n: nat, s: Step, callback: nat)
    requires callback in After(cfg, w, n, s).pending
    ensures var login := After(cfg, w, n, s).pending[callback];
      || (callback in w.pending && w.pending[callback] == login && !(s.op.Open? && s.op.callback == callback))
      || (callback == n && s.op.Callback? && L.Consumed(w.states, s.op.state, s.now) == Some(login))
  {
    hide LoginRuns.After, L.Consumed, AfterCreate, S.After, NewSession, CreateOutcome;
  }

  lemma {:induction false} PendingIsEarlier(cfg: Setting, steps: seq<Step>, n: nat, callback: nat)
    requires n <= |steps| && callback in Before(cfg, steps, n).pending
    ensures callback < n
  {
    hide After;
    StepPending(cfg, Before(cfg, steps, n - 1), n - 1, steps[n - 1], callback);
    if callback != n - 1 {
      PendingIsEarlier(cfg, steps, n - 1, callback);
    }
  }

  /** What a callback under way holds is what it consumed, and no session has been opened for it. */
  lemma {:induction false} PendingIsAccepted(cfg: Setting, steps: seq<Step>, n: nat, callback: nat)
    requires n <= |steps| && callback in Before(cfg, steps, n).pending
    ensures callback < n && LoginRuns.Accepted(StateSteps(steps), callback) == Some(Before(cfg, steps, n).pending[callback])
    ensures forall m :: 0 <= m < n && Opens(cfg, steps, m) ==> steps[m].op.callback != callback
  {
    hide After, L.Consumed, LoginRuns.Before;
    var m := n - 1;
    StepPending(cfg, Before(cfg, steps, m), m, steps[m], callback);
    PendingIsEarlier(cfg, steps, n, callback);
    if callback == m {
      StoresSeeTheRun(cfg, steps, m);
      assert StateSteps(steps)[m] == StateStep(steps[m]);
      if m in Before(cfg, steps, m).pending { PendingIsEarlier(cfg, steps, m, m); }
      hide Before;
      forall k | 0 <= k < n && Opens(cfg, steps, k) ensures steps[k].op.callback != callback {
        PendingIsEarlier(cfg, steps, k, steps[k].op.callback);
      }
    } else {
      PendingIsAccepted(cfg, steps, m, callback);
    }
  }

  predicate OpensAs(cfg: Setting, w: World, s: Step, id: string) {
    s.op.Open? && s.op.callback in w.pending && s.op.id == id && CreateOutcome(w.sessions, Opened(cfg, w, s.op), s.now).Created?
  }

  /** Only opening a session with that id sets its redirect. */
  lemma StepRedirects(cfg: Setting, w: World, n: nat, s: Step, id: string)
    ensures OpensAs(cfg, w, s, id) || id in w.redirects ==>
      id in After(cfg, w, n, s).redirects
      && After(cfg, w, n, s).redirects[id] == if OpensAs(cfg, w, s, id) then w.pending[s.op.callback].redirect else w.redirects[id]
  {
    hide LoginRuns.After, L.Consumed, AfterCreate, S.After, NewSession, CreateOutcome;
  }

  /** The session store creates a session exactly at the steps that open one. */
  lemma CreatesIffOpens(cfg: Setting, steps: seq<Step>, o: nat, id: string)
    requires o < |steps|
    ensures S.Creates(SessionSteps(cfg, steps), o, id) <==> OpensAs(cfg, Before(cfg, steps, o), steps[o], id)
    ensures Opens(cfg, steps, o) ==>
      SessionSteps(cfg, steps)[o].op.Create? && SessionSteps(cfg, steps)[o].op.session == Opened(cfg, Before(cfg, steps, o), steps[o].op)
  {
    hide Before, S.Before, CreateOutcome, SubjectId;
    assert SessionSteps(cfg, steps)[o] == SessionStep(cfg, steps, o);
    StoresSeeTheRun(cfg, steps, o);
  }

  /** The answered redirect stays until a session with that id is created again. */
  lemma {:induction false} RedirectStays(cfg: Setting, steps: seq<Step>, o: nat, n: nat, id: string)
    requires o < n <= |steps| && S.Creates(SessionSteps(cfg, steps), o, id)
    requires forall j :: o < j < n ==> !S.Creates(SessionSteps(cfg, steps), j, id)
    ensures Opens(cfg, steps, o) && id in Before(cfg, steps, n).redirects
    ensures Before(cfg, steps, n).redirects[id] == Before(cfg, steps, o).pending[steps[o].op.callback].redirect
  {
    hide After, S.Creates, SessionSteps;
    var m := n - 1;
    CreatesIffOpens(cfg, steps, o, id);
    CreatesIffOpens(cfg, steps, m, id);
    StepRedirects(cfg, Before(cfg, steps, m), m, steps[m], id);
    if m > o {
      RedirectStays(cfg, steps, o, m, id);
    }
  }

  /** A session found at any time comes from one login and one callback, at most ten minutes
      apart: it has the app that the login stored and its callback answered with the redirect
      that the login stored.  Nothing has deleted it since, and it is within the deadline
      that its opening or the last Touch gave it. */
  lemma FoundComesFromLogin(cfg: Setting, steps: seq<Step>, n: nat, id: string) returns (i: nat, j: nat, o: nat, g: nat)
    requires n < |steps| && steps[n].op == Store(S.Look(id))
    requires LookUp(Before(cfg, steps, n).sessions, id, steps[n].now).Hit?
    ensures i < j < o < n && Opens(cfg, steps, o) && steps[o].op.id == id && steps[o].op.callback == j
    ensures steps[j].op.Callback? && LoginRuns.LogsIn(StateSteps(steps), i, steps[j].op.state)
    ensures steps[j].now <= steps[i].now + LoginRuns.STATE_TTL
    ensures var login, found := LoginRuns.Stored(StateStep(steps[i])), Before(cfg, steps, n).sessions[id];
            && found.principal == Some(Principal(SubjectId(cfg.owner, steps[o].op.user), login.app))
            && id in Before(cfg, steps, n).redirects && Before(cfg, steps, n).redirects[id] == login.redirect
    ensures S.Justified(SessionSteps(cfg, steps), n, Before(cfg, steps, n).sessions[id], id, o, g)
    ensures steps[n].now <= S.Deadline(SessionSteps(cfg, steps)[g])
  {
    hide Before, S.Before, LoginRuns.Before, LoginRuns.LogsIn, S.Creates, S.Deletes, SubjectId;
    var sessionSteps, stateSteps := SessionSteps(cfg, steps), StateSteps(steps);
    assert sessionSteps[n] == SessionStep(cfg, steps, n);
    StoresSeeTheRun(cfg, steps, n);
    o, g := S.HitIsLive(sessionSteps, n, id);
    CreatesIffOpens(cfg, steps, o, id);
    j := steps[o].op.callback;
    PendingIsAccepted(cfg, steps, o, j);
    i := LoginRuns.CallbackMatchesLogin(stateSteps, j);
    RedirectStays(cfg, steps, o, n, id);
    assert stateSteps[i] == StateStep(steps[i]) && stateSteps[j] == StateStep(steps[j]);
  }

  /** An opened session lives for the configured time from when it was stored, less the time
      that passed from setting its deadline to measuring what was left of it: if the clock does
      not go back, until some time between the deadline set and the lifetime after storing. */
  lemma OpenedLifetime(cfg: Setting, steps: seq<Step>, o: nat)
    requires o < |steps| && Opens(cfg, steps, o)
    ensures var deadline := S.Deadline(SessionSteps(cfg, steps)[o]);
      && deadline == steps[o].now + cfg.ttl - (steps[o].op.measured - steps[o].op.decided)
      && (steps[o].op.decided <= steps[o].op.measured <= steps[o].now ==>
            steps[o].op.decided + cfg.ttl <= deadline <= steps[o].now + cfg.ttl)
  {
    hide Before, SubjectId;
    assert SessionSteps(cfg, steps)[o] == SessionStep(cfg, steps, o);
  }

  /** Each state leads to at most one session. */
  lemma OneSessionPerState(cfg: Setting, steps: seq<Step>, m: nat, n: nat)
    requires LoginRuns.FreshStates(StateSteps(steps)) && m < n < |steps| && Opens(cfg, steps, m) && Opens(cfg, steps, n)
    ensures steps[m].op.callback < |steps| && steps[n].op.callback < |steps|
    ensures StateSteps(steps)[steps[m].op.callback].op.Callback? && StateSteps(steps)[steps[n].op.callback].op.Callback?
    ensures StateSteps(steps)[steps[m].op.callback].op.state != StateSteps(steps)[steps[n].op.callback].op.state
  {
    var a, b := steps[m].op.callback, steps[n].op.callback;
    PendingIsAccepted(cfg, steps, m, a);
    PendingIsAccepted(cfg, steps, n, b);
    hide Before;
    if a < b { LoginRuns.StateAcceptedOnce(StateSteps(steps), a, b); } else { LoginRuns.StateAcceptedOnce(StateSteps(steps), b, a); }
  }

  /** After a logout the session is never found again, whatever else is under way. */
  lemma LoggedOutStaysOut(cfg: Setting, steps: seq<Step>, o: nat, d: nat, n: nat, id: string)
    requires S.FreshIds(SessionSteps(cfg, steps)) && o < d < n < |steps|
    requires S.Creates(SessionSteps(cfg, steps), o, id)
    requires steps[d].op == Store(S.Delete(id)) && steps[n].op == Store(S.Look(id))
    ensures !LookUp(Before(cfg, steps, n).sessions, id, steps[n].now).Hit?
  {
    hide Before, S.Before;
    var sessionSteps := SessionSteps(cfg, steps);
    assert sessionSteps[d] == SessionStep(cfg, steps, d) && sessionSteps[n] == SessionStep(cfg, steps, n);
    StoresSeeTheRun(cfg, steps, n);
    S.DeletedStaysDeleted(sessionSteps, o, d, n, id);
  }
}
