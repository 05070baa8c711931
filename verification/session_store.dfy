/** The in-memory session store (internal/session/memory_store.go).  Each operation is one
    section under the store's lock and takes the time at which that section runs. */
module SessionStore {
  import opened Wrappers

  const MAX_SESSIONS := 10000

  datatype Principal = Principal(subjectId: string, app: string)

  /** createdAt 0 is the zero time. */
  datatype Session = Session(id: string, principal: Option<Principal>, createdAt: int, updatedAt: int, expiresAt: int)

  type Sessions = map<string, Session>

  datatype CreateResult = Created | IdRequired | StoreFull

  /** What Get sees under the read lock. */
  datatype Look = Hit(session: Session) | Expired | Missing

  function DropExpired(m: Sessions, now: int): Sessions {
    map id | id in m && !(now > m[id].expiresAt) :: m[id]
  }

  function Stamped(s: Session, ttl: int, now: int): Session {
    s.(createdAt := if s.createdAt == 0 then now else s.createdAt, updatedAt := now, expiresAt := now + ttl)
  }

  /** The map Create works on once it has made room. */
  function MakeRoom(m: Sessions, now: int): Sessions {
    if |m| >= MAX_SESSIONS then DropExpired(m, now) else m
  }

  function CreateOutcome(m: Sessions, s: Session, now: int): CreateResult {
    if s.id == "" then IdRequired
    else if |MakeRoom(m, now)| >= MAX_SESSIONS then StoreFull
    else Created
  }

  function AfterCreate(m: Sessions, s: Session, ttl: int, now: int): Sessions {
    if s.id == "" then m
    else if |MakeRoom(m, now)| >= MAX_SESSIONS then MakeRoom(m, now)
    else MakeRoom(m, now)[s.id := Stamped(s, ttl, now)]
  }

  function LookUp(m: Sessions, id: string, now: int): Look {
    if id !in m then Missing else if now > m[id].expiresAt then Expired else Hit(m[id])
  }

  function AfterTouch(m: Sessions, id: string, ttl: int, now: int): Sessions {
    if id in m then m[id := m[id].(updatedAt := now, expiresAt := now + ttl)] else m
  }

  predicate HasSubject(s: Session, subject: string) {
    s.principal.Some? && s.principal.value.subjectId == subject
  }

  function AfterDeleteBySubject(m: Sessions, subject: string): Sessions {
    if subject == "" then m else map id | id in m && !HasSubject(m[id], subject) :: m[id]
  }

  class MemoryStore {
    var sessions: Sessions

    constructor ()
      ensures sessions == map[]
    {
      sessions := map[];
    }

    method Create(sess: Option<Session>, ttl: int, now: int) returns (r: CreateResult)
      modifies this
      ensures sess.None? ==> r == IdRequired && sessions == old(sessions)
      ensures sess.Some? ==> r == CreateOutcome(old(sessions), sess.value, now)
      ensures sess.Some? ==> sessions == AfterCreate(old(sessions), sess.value, ttl, now)
    {
      if sess.None? || sess.value.id == "" {
        return IdRequired;
      }
      if |sessions| >= MAX_SESSIONS {
        var removed := CleanupExpired(now);
      }
      if |sessions| >= MAX_SESSIONS {
        return StoreFull;
      }
      var copy := sess.value;
      if copy.createdAt == 0 {
        copy := copy.(createdAt := now);
      }
      copy := copy.(updatedAt := now, expiresAt := now + ttl);
      sessions := sessions[copy.id := copy];
      return Created;
    }

    /** Get: the read section, and the separate delete section when the session has expired. */
    method Get(id: string, now: int) returns (r: Option<Session>)
      modifies this
      ensures r == match LookUp(old(sessions), id, now) case Hit(s) => Some(s) case _ => None
      ensures sessions == if LookUp(old(sessions), id, now).Expired? then old(sessions) - {id} else old(sessions)
    {
      if id !in sessions || now > sessions[id].expiresAt {
        if id in sessions {
          Delete(id);
        }
        return None;
      }
      r := Some(sessions[id]);
    }

    method Delete(id: string)
      modifies this
      ensures sessions == old(sessions) - {id}
    {
      sessions := sessions - {id};
    }

    method Touch(id: string, ttl: int, now: int) returns (found: bool)
      modifies this
      ensures found <==> id in old(sessions)
      ensures sessions == AfterTouch(old(sessions), id, ttl, now)
    {
      if id !in sessions {
        return false;
      }
      sessions := sessions[id := sessions[id].(updatedAt := now, expiresAt := now + ttl)];
      return true;
    }

    method DeleteBySubject(subject: string)
      modifies this
      ensures sessions == AfterDeleteBySubject(old(sessions), subject)
    {
      if subject == "" {
        return;
      }
      var todo := sessions.Keys;
      while todo != {}
        invariant todo <= sessions.Keys <= old(sessions).Keys
        invariant forall id :: id in sessions ==> sessions[id] == old(sessions)[id]
        invariant forall id :: id in old(sessions) && id !in todo ==>
          (id in sessions <==> !HasSubject(old(sessions)[id], subject))
        decreases todo
      {
        var id :| id in todo;
        if HasSubject(sessions[id], subject) {
          sessions := sessions - {id};
        }
        todo := todo - {id};
      }
    }

    method CleanupExpired(now: int) returns (removed: nat)
      modifies this
      ensures sessions == DropExpired(old(sessions), now)
      ensures removed == |old(sessions)| - |sessions|
    {
      removed := 0;
      var todo := sessions.Keys;
      while todo != {}
        invariant todo <= sessions.Keys <= old(sessions).Keys
        invariant forall id :: id in sessions ==> sessions[id] == old(sessions)[id]
        invariant forall id :: id in old(sessions) && id !in todo ==>
          (id in sessions <==> !(now > old(sessions)[id].expiresAt))
        invariant removed == |old(sessions)| - |sessions|
        decreases todo
      {
        var id :| id in todo;
        if now > sessions[id].expiresAt {
          assert (sessions - {id}).Keys == sessions.Keys - {id};
          assert |sessions - {id}| == |sessions.Keys - {id}|;
          sessions := sessions - {id};
          removed := removed + 1;
        }
        todo := todo - {id};
      }
    }
  }
}

/** Every interleaving of the store's lock sections.  A run is any sequence of sections, in
    any order: this covers Current's Get followed by Touch, the delete that Get defers to a
    second section, Logout, expiry sweeps and DeleteBySubject from any number of callers. */
module SessionRuns {
  import opened SessionStore
  import opened Sizes
  import opened Wrappers

  datatype Op =
    | Create(session: Session, ttl: int)
    | Look(id: string)
    | Delete(id: string)
    | Touch(id: string, ttl: int)
    | DeleteBySubject(subject: string)
    | Sweep

  datatype Step = Step(now: int, op: Op)

  function After(m: Sessions, s: Step): Sessions {
    match s.op
    case Create(session, ttl) => AfterCreate(m, session, ttl, s.now)
    case Look(_) => m
    case Delete(id) => m - {id}
    case Touch(id, ttl) => AfterTouch(m, id, ttl, s.now)
    case DeleteBySubject(subject) => AfterDeleteBySubject(m, subject)
    case Sweep => DropExpired(m, s.now)
  }

  /** The store before step n of a run that starts empty. */
  function Before(steps: seq<Step>, n: nat): Sessions
    requires n <= |steps|
  {
    if n == 0 then map[] else After(Before(steps, n - 1), steps[n - 1])
  }

  /** Step n looks a session up and finds it. */
  predicate Hits(steps: seq<Step>, n: nat, id: string)
    requires n < |steps|
  {
    steps[n].op == Look(id) && LookUp(Before(steps, n), id, steps[n].now).Hit?
  }

  predicate Creates(steps: seq<Step>, n: nat, id: string)
    requires n < |steps|
  {
    var op := steps[n].op;
    op.Create? && op.session.id == id && CreateOutcome(Before(steps, n), op.session, steps[n].now).Created?
  }

  predicate Touches(steps: seq<Step>, n: nat, id: string)
    requires n < |steps|
  {
    steps[n].op.Touch? && steps[n].op.id == id
  }

  /** Step n deletes the session with this id and this principal. */
  predicate Deletes(steps: seq<Step>, n: nat, id: string, principal: Option<Principal>)
    requires n < |steps|
  {
    var op := steps[n].op;
    || (op.Delete? && op.id == id)
    || (op.DeleteBySubject? && op.subject != "" && principal.Some? && principal.value.subjectId == op.subject)
  }

  predicate Grants(steps: seq<Step>, n: nat, id: string)
    requires n < |steps|
  {
    Creates(steps, n, id) || Touches(steps, n, id)
  }

  /** The deadline that a creating or touching step sets. */
  function Deadline(s: Step): int
    requires s.op.Create? || s.op.Touch?
  {
    s.now + s.op.ttl
  }

  /** Session `s` stands in the store before step n because step c created it, nothing has
      deleted it since, and step g was the last to grant it a deadline. */
  predicate Justified(steps: seq<Step>, n: nat, s: Session, id: string, c: nat, g: nat)
    requires n <= |steps|
  {
    && c <= g < n
    && Creates(steps, c, id) && Grants(steps, g, id)
    && s.principal == steps[c].op.session.principal
    && s.expiresAt == Deadline(steps[g])
    && (forall j :: c <= j < n ==> !Deletes(steps, j, id, s.principal))
    && (forall j :: c < j < n ==> !Creates(steps, j, id))
    && (forall j :: g < j < n ==> !Grants(steps, j, id))
  }

  /** A session that a step leaves behind without creating it was there before, with the same
      principal, and with the same deadline unless the step touched it. */
  lemma StepKeeps(steps: seq<Step>, n: nat, id: string)
    requires n < |steps| && id in After(Before(steps, n), steps[n]) && !Creates(steps, n, id)
    ensures id in Before(steps, n)
    ensures var before, after := Before(steps, n)[id], After(Before(steps, n), steps[n])[id];
            && after.principal == before.principal && !Deletes(steps, n, id, before.principal)
            && after.expiresAt == if Touches(steps, n, id) then Deadline(steps[n]) else before.expiresAt
  {
    hide Before;
  }

  lemma CreateStamps(steps: seq<Step>, n: nat, id: string)
    requires n < |steps| && Creates(steps, n, id)
    ensures id in After(Before(steps, n), steps[n])
    ensures var after := After(Before(steps, n), steps[n])[id];
            after.principal == steps[n].op.session.principal && after.expiresAt == Deadline(steps[n])
  {
    hide Before;
  }

  lemma {:induction false} SessionsAreJustified(steps: seq<Step>, n: nat, id: string) returns (c: nat, g: nat)
    requires n <= |steps| && id in Before(steps, n)
    ensures Justified(steps, n, Before(steps, n)[id], id, c, g)
  {
    hide After, Creates, Touches;
    var m := n - 1;
    if Creates(steps, m, id) {
      CreateStamps(steps, m, id);
      CreateDeletesNothing(steps, m, id);
      c, g := m, m;
    } else {
      StepKeeps(steps, m, id);
      c, g := SessionsAreJustified(steps, m, id);
      if Touches(steps, m, id) {
        g := m;
      }
    }
  }

  lemma CreateDeletesNothing(steps: seq<Step>, n: nat, id: string)
    requires n < |steps| && Creates(steps, n, id)
    ensures steps[n].op.Create? && forall p :: !Deletes(steps, n, id, p)
  {
  }

  /** Revocation: a lookup that succeeds at time t was created earlier, has not been deleted
      since, and t is within the last deadline a Create or Touch gave it. */
  lemma HitIsLive(steps: seq<Step>, n: nat, id: string) returns (c: nat, g: nat)
    requires n < |steps| && Hits(steps, n, id)
    ensures Justified(steps, n, Before(steps, n)[id], id, c, g)
    ensures steps[n].now <= Deadline(steps[g])
  {
    c, g := SessionsAreJustified(steps, n, id);
  }

  /** Session ids are random: no id is created twice. */
  ghost predicate FreshIds(steps: seq<Step>) {
    forall i, j, id :: 0 <= i < j < |steps| && Creates(steps, i, id) ==> !Creates(steps, j, id)
  }

  /** Once deleted, a session is never found again: no Touch, Get or sweep that was under way
      brings it back. */
  lemma DeletedStaysDeleted(steps: seq<Step>, c: nat, d: nat, n: nat, id: string)
    requires FreshIds(steps) && c < d < n < |steps|
    requires Creates(steps, c, id) && Deletes(steps, d, id, steps[c].op.session.principal)
    ensures !Hits(steps, n, id)
  {
    if Hits(steps, n, id) {
      var c', g := HitIsLive(steps, n, id);
    }
  }

  // ----- The exact condition.

  /** The deadline of the session that step c created, before step n: a Touch sets it anew. */
  function Until(steps: seq<Step>, c: nat, n: nat, id: string): int
    requires c < n <= |steps| && steps[c].op.Create?
  {
    if n == c + 1 then steps[c].now + steps[c].op.ttl
    else
      var op := steps[n - 1].op;
      if op.Touch? && op.id == id then steps[n - 1].now + op.ttl else Until(steps, c, n - 1, id)
  }

  /** Step n drops what has expired: a sweep, or a Create that finds 10000 sessions. */
  predicate Sweeps(steps: seq<Step>, n: nat)
    requires n < |steps|
  {
    var op := steps[n].op;
    op.Sweep? || (op.Create? && op.session.id != "" && |Before(steps, n)| >= 10000)
  }

  /** Step j takes away the session that step c created: it deletes it, or drops what has
      expired after the session's deadline. */
  predicate TakesAway(steps: seq<Step>, c: nat, j: nat, id: string)
    requires c < j < |steps| && steps[c].op.Create?
  {
    var op, principal := steps[j].op, steps[c].op.session.principal;
    || (op.Delete? && op.id == id)
    || (op.DeleteBySubject? && op.subject != "" && principal.Some? && principal.value.subjectId == op.subject)
    || (Sweeps(steps, j) && steps[j].now > Until(steps, c, j, id))
  }

  /** The session stands before step n as step c and later Touches have left it. */
  predicate Stands(steps: seq<Step>, c: nat, n: nat, id: string)
    requires c < n <= |steps| && steps[c].op.Create?
  {
    var m := Before(steps, n);
    id in m && m[id].id == id && m[id].principal == steps[c].op.session.principal && m[id].expiresAt == Until(steps, c, n, id)
  }

  lemma StepOnStored(steps: seq<Step>, m: nat, id: string)
    requires m < |steps| && id in Before(steps, m) && !Creates(steps, m, id)
    ensures var before, after, op := Before(steps, m)[id], After(Before(steps, m), steps[m]), steps[m].op;
      && (id !in after <==>
            || (op.Delete? && op.id == id)
            || (op.DeleteBySubject? && op.subject != "" && before.principal.Some? && before.principal.value.subjectId == op.subject)
            || (Sweeps(steps, m) && steps[m].now > before.expiresAt))
      && (id in after ==> after[id].id == before.id && after[id].principal == before.principal
                          && after[id].expiresAt == if op.Touch? && op.id == id then steps[m].now + op.ttl else before.expiresAt)
  {
    hide Before;
  }

  lemma CreatedStands(steps: seq<Step>, c: nat, id: string)
    requires c < |steps| && Creates(steps, c, id)
    ensures Stands(steps, c, c + 1, id)
  {
    var m := Before(steps, c);
    assert Before(steps, c + 1) == After(m, steps[c]);
    hide Before;
  }

  lemma OnlyCreatesAdd(steps: seq<Step>, m: nat, id: string)
    requires m < |steps| && id !in Before(steps, m) && !Creates(steps, m, id)
    ensures id !in After(Before(steps, m), steps[m])
  {
    hide Before;
  }

  /** A created session stands exactly as long as no step has taken it away, at any times. */
  lemma {:induction false} StandsIff(steps: seq<Step>, c: nat, n: nat, id: string)
    requires c < n <= |steps| && Creates(steps, c, id) && forall j :: c < j < n ==> !Creates(steps, j, id)
    ensures id in Before(steps, n) <==> forall j :: c < j < n ==> !TakesAway(steps, c, j, id)
    ensures id in Before(steps, n) ==> Stands(steps, c, n, id)
    decreases n
  {
    hide After, Creates, Sweeps, TakesAway;
    var m := n - 1;
    CreatesIsCreate(steps, c, id);
    if m == c {
      CreatedStands(steps, c, id);
    } else {
      StandsIff(steps, c, m, id);
      assert !Creates(steps, m, id);
      if id in Before(steps, m) {
        StepOnStored(steps, m, id);
        RemovalIs(steps, c, m, id);
      } else {
        OnlyCreatesAdd(steps, m, id);
      }
    }
  }

  lemma RemovalIs(steps: seq<Step>, c: nat, m: nat, id: string)
    requires c < m < |steps| && steps[c].op.Create? && Stands(steps, c, m, id)
    ensures var before, op := Before(steps, m)[id], steps[m].op;
      TakesAway(steps, c, m, id) <==>
        || (op.Delete? && op.id == id)
        || (op.DeleteBySubject? && op.subject != "" && before.principal.Some? && before.principal.value.subjectId == op.subject)
        || (Sweeps(steps, m) && steps[m].now > before.expiresAt)
  {
    hide Before;
  }

  lemma CreatesIsCreate(steps: seq<Step>, c: nat, id: string)
    requires c < |steps| && Creates(steps, c, id)
    ensures steps[c].op.Create?
  {
  }

  /** Step c created the session that a lookup finds. */
  predicate FoundFrom(steps: seq<Step>, c: nat, n: nat, id: string)
    requires n < |steps|
  {
    && c < n && Creates(steps, c, id) && (forall j :: c < j < n ==> !Creates(steps, j, id))
    && steps[c].op.Create? && (forall j :: c < j < n ==> !TakesAway(steps, c, j, id))
    && steps[n].now <= Until(steps, c, n, id)
  }

  /** The exact condition, for every run and any clock: a lookup finds a session if and only if
      it was created, no step has taken it away since, and its last deadline has not passed. */
  lemma FoundIff(steps: seq<Step>, n: nat, id: string)
    requires n < |steps| && steps[n].op == Look(id)
    ensures Hits(steps, n, id) <==> exists c: nat :: FoundFrom(steps, c, n, id)
  {
    hide Before, Creates, TakesAway, Deletes, Touches;
    if id in Before(steps, n) {
      var c, g := SessionsAreJustified(steps, n, id);
      CreatesIsCreate(steps, c, id);
      StandsIff(steps, c, n, id);
      if Hits(steps, n, id) { assert FoundFrom(steps, c, n, id); }
    }
    if c: nat :| FoundFrom(steps, c, n, id) {
      StandsIff(steps, c, n, id);
    }
  }

  // ----- Room.

  lemma DroppedSize(m: Sessions, now: int)
    ensures |DropExpired(m, now)| <= |m|
    ensures |DropExpired(m, now)| == |m| <==> forall id :: id in m ==> now <= m[id].expiresAt
  {
    var kept := DropExpired(m, now);
    SubsetSize(kept.Keys, m.Keys);
    assert |kept.Keys| == |kept| && |m.Keys| == |m|;
    assert kept.Keys == m.Keys <==> forall id :: id in m ==> id in kept.Keys;
  }

  lemma StepSize(m: Sessions, s: Step)
    requires |m| <= 10000
    ensures |After(m, s)| <= 10000
  {
    hide Stamped;
    DroppedSize(m, s.now);
    match s.op
    case Create(session, ttl) => InsertSize(MakeRoom(m, s.now), session.id, Stamped(session, ttl, s.now));
    case Delete(id) => RemoveSize(m, id);
    case Touch(id, ttl) => TouchKeepsKeys(m, id, ttl, s.now);
    case DeleteBySubject(subject) => DeleteBySubjectSize(m, subject);
    case _ =>
  }

  lemma TouchKeepsKeys(m: Sessions, id: string, ttl: int, now: int)
    ensures |AfterTouch(m, id, ttl, now)| == |m|
  {
    assert AfterTouch(m, id, ttl, now).Keys == m.Keys;
    assert |AfterTouch(m, id, ttl, now).Keys| == |AfterTouch(m, id, ttl, now)| && |m.Keys| == |m|;
  }

  lemma DeleteBySubjectSize(m: Sessions, subject: string)
    ensures |AfterDeleteBySubject(m, subject)| <= |m|
  {
    var after := AfterDeleteBySubject(m, subject);
    SubsetSize(after.Keys, m.Keys);
    assert |after.Keys| == |after| && |m.Keys| == |m|;
  }

  /** The store never holds more than 10000 sessions ... */
  lemma {:induction false} SizeIsBounded(steps: seq<Step>, n: nat)
    requires n <= |steps|
    ensures |Before(steps, n)| <= 10000
  {
    if n > 0 {
      SizeIsBounded(steps, n - 1);
      StepSize(Before(steps, n - 1), steps[n - 1]);
    }
  }

  /** ... and refuses a session with an id exactly when it holds 10000 that are all unexpired. */
  lemma FullIff(steps: seq<Step>, n: nat)
    requires n < |steps| && steps[n].op.Create? && steps[n].op.session.id != ""
    ensures !Creates(steps, n, steps[n].op.session.id) <==>
            |Before(steps, n)| == 10000 && forall id :: id in Before(steps, n) ==> steps[n].now <= Before(steps, n)[id].expiresAt
  {
    SizeIsBounded(steps, n);
    DroppedSize(Before(steps, n), steps[n].now);
    hide Before, DropExpired;
  }
}
