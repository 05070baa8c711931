/** The authentication service over the two stores (internal/authn/service_impl.go).  Answers
    of the identity provider are parameters, and so is every reading of the clock. */
module AuthnService {
  import opened SessionStore
  import L = LoginStates
  import LoginRuns
  import opened Text
  import opened Wrappers

  datatype UserInfo = UserInfo(id: string, owner: string, name: string)

  /** FromCasdoorUser's subject id: the user's id, else owner/name, marked human unless typed. */
  function SubjectId(fallbackOwner: string, u: UserInfo): string {
    var owner := if u.owner != "" then u.owner else fallbackOwner;
    var parts := if u.name == "" then SplitOnce(u.id) else None;
    var name := if parts.Some? then parts.value.1 else u.name;
    var owner' := if owner == "" && parts.Some? then parts.value.0 else owner;
    var subject := if u.id != "" then u.id
                   else if owner' != "" && name != "" then owner' + "/" + name
                   else "";
    if subject != "" && ':' !in subject then "human:" + subject else subject
  }

  /** A user is known by the id if there is one, else by owner and name if both are there, marked
      human unless the text has a mark of its own; taking an id apart at its slash does not matter. */
  lemma SubjectIdIs(fallbackOwner: string, u: UserInfo)
    ensures var owner := if u.owner != "" then u.owner else fallbackOwner;
            var known := if u.id != "" then u.id else if owner != "" && u.name != "" then owner + "/" + u.name else "";
            SubjectId(fallbackOwner, u) == if known == "" || ':' in known then known else "human:" + known
  {
  }

  /** Two users with ids are taken for one exactly if their ids are equal, or one id is the other
      one's marked human. */
  lemma SameSubjectIff(fallbackOwner: string, u: UserInfo, v: UserInfo)
    requires u.id != "" && v.id != ""
    ensures SubjectId(fallbackOwner, u) == SubjectId(fallbackOwner, v) <==>
      u.id == v.id || (':' !in u.id && v.id == "human:" + u.id) || (':' !in v.id && u.id == "human:" + v.id)
  {
    SubjectIdIs(fallbackOwner, u);
    SubjectIdIs(fallbackOwner, v);
    hide SubjectId;
    assert ("human:" + u.id)[5] == ':' && ("human:" + v.id)[5] == ':';
    assert ("human:" + u.id)[6..] == u.id && ("human:" + v.id)[6..] == v.id;
  }

  /** strings.SplitN(s, "/", 2), when there is a slash. */
  function SplitOnce(s: string): Option<(string, string)> {
    if s == "" then None
    else if s[0] == '/' then Some(("", s[1..]))
    else match SplitOnce(s[1..]) case None => None case Some((a, b)) => Some(([s[0]] + a, b))
  }

  /** The session that HandleCallback asks the store to create; the store moves its deadline to
      what is left of the lifetime then. */
  function NewSession(owner: string, ttl: int, login: L.LoginState, user: UserInfo, id: string, decided: int): Session {
    Session(id, Some(Principal(SubjectId(owner, user), login.app)), decided, decided, decided + ttl)
  }

  /** The session, if its deadline has passed neither when looked up nor when checked again. */
  function Live(m: Sessions, id: string, looked: int, checked: int): Option<Session> {
    var found := LookUp(m, id, looked);
    if found.Hit? && !(checked > found.session.expiresAt) then Some(found.session) else None
  }

  datatype CallbackResult =
    | Opened(sessionId: string, redirect: string, principal: Principal)
    | BadState
    | ProviderFailed
    | SessionFailed(reason: CreateResult)

  class DefaultService {
    const sessions: MemoryStore
    const states: L.MemoryStateStore
    const ttl: int
    const sliding: bool
    const owner: string

    constructor (sessions: MemoryStore, states: L.MemoryStateStore, ttl: int, sliding: bool, owner: string)
      ensures this.sessions == sessions && this.states == states
      ensures this.ttl == ttl && this.sliding == sliding && this.owner == owner
    {
      this.sessions, this.states, this.ttl, this.sliding, this.owner := sessions, states, ttl, sliding, owner;
    }

    /** Stores a fresh state: one Login step of LoginRuns. */
    method LoginURL(state: string, app: string, redirect: string, now: int) returns (r: L.CreateResult)
      modifies states
      ensures var step := LoginRuns.Step(now, LoginRuns.Login(state, app, redirect));
              states.items == LoginRuns.After(old(states.items), step)
      ensures r == L.CreateOutcome(old(states.items), LoginRuns.Stored(LoginRuns.Step(now, LoginRuns.Login(state, app, redirect))), now)
    {
      var a := TrimSpace(app);
      if a == "" {
        a := "portal";
      }
      r := states.Create(L.LoginState(state, a, redirect, now), LoginRuns.STATE_TTL, now);
    }

    /** Consumes the state, then opens a session for the user.  The times are those of the
        consumption, of the deadline, of the remaining-time computation and of the store. */
    method HandleCallback(state: string, user: Option<UserInfo>, id: string,
                          consumed: int, decided: int, measured: int, stored: int) returns (r: CallbackResult)
      modifies states, sessions
      ensures states.items == L.AfterConsume(old(states.items), state)
      ensures r.BadState? <==> L.Consumed(old(states.items), state, consumed).None?
      ensures !r.BadState? ==> (r.ProviderFailed? <==> user.None?)
      ensures r.BadState? || r.ProviderFailed? ==> sessions.sessions == old(sessions.sessions)
      ensures r.Opened? || r.SessionFailed? ==>
        var login := L.Consumed(old(states.items), state, consumed);
        && login.Some? && user.Some?
        && var sess := NewSession(owner, ttl, login.value, user.value, id, decided);
           sessions.sessions == AfterCreate(old(sessions.sessions), sess, sess.expiresAt - measured, stored)
           && var outcome := CreateOutcome(old(sessions.sessions), sess, stored);
              r == if outcome.Created? then Opened(id, login.value.redirect, sess.principal.value) else SessionFailed(outcome)
      ensures r.Opened? ==>
        && r.sessionId == id && id in sessions.sessions && sessions.sessions[id].principal == Some(r.principal)
        && sessions.sessions[id].expiresAt == stored + (decided + ttl - measured)
        && sessions.sessions[id].updatedAt == stored && (decided != 0 ==> sessions.sessions[id].createdAt == decided)
    {
      if |state| == 0 || |state| > 128 {
        return BadState;
      }
      var login := states.Consume(state, consumed);
      if login.None? {
        return BadState;
      }
      if user.None? {
        return ProviderFailed;
      }
      var p := Principal(SubjectId(owner, user.value), login.value.app);
      var expiresAt := decided + ttl;
      var created := sessions.Create(Some(Session(id, Some(p), decided, decided, expiresAt)), expiresAt - measured, stored);
      if created != Created {
        return SessionFailed(created);
      }
      return Opened(id, login.value.redirect, p);
    }

    /** Looks the session up, rechecks its deadline and touches it when sessions slide: three
        lock sections at three times. */
    method Current(id: string, looked: int, checked: int, touched: int) returns (r: Option<Session>)
      modifies sessions
      ensures r == Live(old(sessions.sessions), id, looked, checked)
      ensures sessions.sessions == (if r.None? then old(sessions.sessions) - {id}
                                    else if sliding then AfterTouch(old(sessions.sessions), id, ttl, touched)
                                    else old(sessions.sessions))
      ensures r.Some? <==>
        id in old(sessions.sessions) && looked <= old(sessions.sessions)[id].expiresAt && checked <= old(sessions.sessions)[id].expiresAt
      ensures r.Some? ==> r == Some(old(sessions.sessions)[id]) && id in sessions.sessions
                          && sessions.sessions[id].expiresAt == if sliding then touched + ttl else r.value.expiresAt
    {
      r := sessions.Get(id, looked);
      if r.None? {
        return;
      }
      if checked > r.value.expiresAt {
        sessions.Delete(id);
        return None;
      }
      if sliding {
        var found := sessions.Touch(id, ttl, touched);
      }
    }

    method Logout(id: string)
      modifies sessions
      ensures sessions.sessions == if TrimSpace(id) == "" then old(sessions.sessions) else old(sessions.sessions) - {id}
    {
      if TrimSpace(id) == "" {
        return;
      }
      sessions.Delete(id);
    }
  }
}
