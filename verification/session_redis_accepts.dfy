/** When Get answers with a session, in terms of the steps of a run alone. */
module RedisAcceptance {
  import opened RedisRuns
  import opened RedisSessions
  import opened Text

  // ----- Delete.

  /** Whether Delete, asked to delete `x`, means the session `id`. */
  predicate Means(x: string, id: string) {
    TrimSpace(x) == id && id != ""
  }

  /** What one Delete does to whom Get would accept, at any time: the session it means is gone,
      and every other session is as acceptable as it was. */
  lemma DeleteTakesOne(steps: seq<Step>, d: nat, id: string, now: int)
    requires d < |steps| && steps[d].op.Delete?
    ensures Accepts(Before(steps, d + 1), id, now) <==> Accepts(Before(steps, d), id, now) && !Means(steps[d].op.id, id)
  {
    hide TrimSpace, Before;
    assert Before(steps, d + 1) == After(Before(steps, d), steps[d]) by { BeforeNext(steps, d); }
  }

  lemma BeforeNext(steps: seq<Step>, n: nat)
    requires n < |steps|
    ensures Before(steps, n + 1) == After(Before(steps, n), steps[n])
  {
  }

  lemma OnlyCreateAdds(db: Db, s: Step, id: string)
    requires id !in db.sessions && !(s.op.Create? && s.op.id == id != "")
    ensures id !in After(db, s).sessions
  {
    hide TrimSpace;
  }

  lemma {:induction false} AbsentStays(steps: seq<Step>, d: nat, n: nat, id: string)
    requires d <= n <= |steps| && id !in Before(steps, d).sessions
    requires forall i :: d <= i < n ==> !CreatesId(steps, i, id)
    ensures id !in Before(steps, n).sessions
  {
    hide After;
    if n > d {
      AbsentStays(steps, d, n - 1, id);
      assert !CreatesId(steps, n - 1, id);
      OnlyCreateAdds(Before(steps, n - 1), steps[n - 1], id);
    }
  }

  lemma DeleteRemoves(db: Db, s: Step, id: string)
    requires s.op.Delete? && Means(s.op.id, id)
    ensures id !in After(db, s).sessions
  {
    hide TrimSpace;
  }

  /** In every run, after a Delete of a session no Get accepts it until it is created again,
      whatever is under way. */
  lemma DeletedStaysOut(steps: seq<Step>, d: nat, n: nat, id: string, now: int)
    requires d < n <= |steps| && steps[d].op.Delete? && Means(steps[d].op.id, id)
    requires forall i :: d < i < n ==> !CreatesId(steps, i, id)
    ensures !Accepts(Before(steps, n), id, now)
  {
    hide TrimSpace, Before;
    BeforeNext(steps, d);
    DeleteRemoves(Before(steps, d), steps[d], id);
    AbsentStays(steps, d + 1, n, id);
  }

  /** The subject's set that is stored under its key, dead or alive. */
  function StoredSet(db: Db, subject: string): set<string> {
    if subject in db.subjects then db.subjects[subject].value else {}
  }

  lemma {:induction false} UnindexedStays(steps: seq<Step>, d: nat, n: nat, subject: string, id: string)
    requires d <= n <= |steps| && id !in StoredSet(Before(steps, d), subject)
    requires forall i :: d <= i < n ==> !CreatesId(steps, i, id)
    ensures id !in StoredSet(Before(steps, n), subject)
  {
    hide After;
    if n > d {
      UnindexedStays(steps, d, n - 1, subject, id);
      assert !CreatesId(steps, n - 1, id);
      if id in StoredSet(Before(steps, n), subject) { StepMembers(Before(steps, n - 1), steps[n - 1], subject, id); }
    }
  }

  lemma DeleteUnindexes(db: Db, s: Step, id: string)
    requires s.op.Delete? && Means(s.op.id, id) && HasSession(db, id, s.now) && db.sessions[id].value.subject != ""
    ensures id !in StoredSet(After(db, s), db.sessions[id].value.subject)
  {
    hide TrimSpace;
  }

  /** Deleting a live session takes it out of its subject's set, and it stays out until it is
      created again. */
  lemma DeletedIsUnindexed(steps: seq<Step>, d: nat, n: nat, id: string)
    requires d < n <= |steps| && steps[d].op.Delete? && Means(steps[d].op.id, id)
    requires HasSession(Before(steps, d), id, steps[d].now) && Before(steps, d).sessions[id].value.subject != ""
    requires forall i :: d < i < n ==> !CreatesId(steps, i, id)
    ensures id !in StoredSet(Before(steps, n), Before(steps, d).sessions[id].value.subject)
  {
    hide TrimSpace, Before;
    BeforeNext(steps, d);
    DeleteUnindexes(Before(steps, d), steps[d], id);
    UnindexedStays(steps, d + 1, n, Before(steps, d).sessions[id].value.subject, id);
  }

  /** A Delete of an acceptable session's own id makes it unacceptable exactly when the id has no
      blanks around it: Create and Get take the id as it is, and Delete trims it. */
  lemma DeleteWorksIff(db: Db, id: string, deleted: int, now: int)
    requires Accepts(db, id, now)
    ensures !Accepts(AfterDelete(db, id, deleted), id, now) <==> TrimSpace(id) == id
  {
    hide TrimSpace;
  }

  // ----- The exact condition.

  /** The time after which the key of the session that step c created is gone, before step n:
      each Touch that finds the key sets it anew. */
  function KeyUntil(steps: seq<Step>, c: nat, n: nat, id: string): int
    requires c < n <= |steps| && steps[c].op.Create?
  {
    if n == c + 1 then steps[c].now + steps[c].op.ttl
    else
      var until, s := KeyUntil(steps, c, n - 1, id), steps[n - 1];
      if s.op.Touch? && s.op.id == id && s.now <= until then s.now + s.op.ttl else until
  }

  /** Step j, after step c created the session, takes it away: a Delete that means it, a
      DeleteBySubject of its subject while the index covers it, the second command of one that had
      read its id, or a Get that finds a session expired whose id is this one with blanks around. */
  predicate TakesAway(steps: seq<Step>, c: nat, j: nat, id: string)
    requires c < j < |steps| && steps[c].op.Create?
  {
    var op := steps[j].op;
    || (op.Delete? && Means(op.id, id))
    || (op.DeleteBySubject? && op.subject == steps[c].op.subject && TrimSpace(op.subject) != "" && Covered(steps, c, j, steps[j].now))
    || (op.Drop? && id in op.ids)
    || (op.Get? && op.id != id && Means(op.id, id) && FindsExpired(steps, j, op.id))
  }

  predicate FindsExpired(steps: seq<Step>, j: nat, id: string)
    requires j < |steps|
  {
    var db := Before(steps, j);
    HasSession(db, id, steps[j].now) && steps[j].now > db.sessions[id].value.expiresAt
  }

  /** Step j is a Get of the session itself that finds it expired. */
  predicate ExpiresAt(steps: seq<Step>, j: nat, id: string)
    requires j < |steps|
  {
    steps[j].op == Get(id) && Means(id, id) && FindsExpired(steps, j, id)
  }

  /** The session that step c created is stored before step n with what c gave it. */
  predicate Stands(steps: seq<Step>, c: nat, n: nat, id: string)
    requires c < n <= |steps| && steps[c].op.Create?
  {
    var db := Before(steps, n);
    && id in db.sessions
    && db.sessions[id] == Keyed(Payload(steps[c].op.subject, steps[c].now + steps[c].op.ttl), KeyUntil(steps, c, n, id))
  }

  /** What each step that does not create the session does to it. */
  lemma StepOnStored(db: Db, s: Step, id: string)
    requires id in db.sessions && TrimSpace(id) != "" && !(s.op.Create? && s.op.id == id)
    ensures id !in After(db, s).sessions <==>
      || (s.op.Delete? && Means(s.op.id, id))
      || (s.op.DeleteBySubject? && TrimSpace(s.op.subject) != "" && id in Members(db, s.op.subject, s.now))
      || (s.op.Drop? && id in s.op.ids)
      || (s.op.Get? && Means(s.op.id, id) && HasSession(db, s.op.id, s.now) && s.now > db.sessions[s.op.id].value.expiresAt)
    ensures id in After(db, s).sessions ==>
      After(db, s).sessions[id]
      == if s.op.Touch? && s.op.id == id && s.now <= db.sessions[id].until then db.sessions[id].(until := s.now + s.op.ttl) else db.sessions[id]
  {
    TrimmedNotEmpty(id);
    hide TrimSpace, Members;
  }

  lemma TrimmedNotEmpty(id: string)
    requires TrimSpace(id) != ""
    ensures id != ""
  {
    NotBlankIsNotEmpty(id);
  }

  /** What takes the session away, in terms of the run. */
  lemma RemovalIs(steps: seq<Step>, c: nat, m: nat, id: string)
    requires m < |steps| && ClockNeverGoesBack(steps) && OneSubject(steps) && LastCreated(steps, c, m, id) && Stands(steps, c, m, id)
    requires TrimSpace(id) != ""
    ensures var db, s := Before(steps, m), steps[m];
      ( || (s.op.Delete? && Means(s.op.id, id))
        || (s.op.DeleteBySubject? && TrimSpace(s.op.subject) != "" && id in Members(db, s.op.subject, s.now))
        || (s.op.Drop? && id in s.op.ids)
        || (s.op.Get? && Means(s.op.id, id) && HasSession(db, s.op.id, s.now) && s.now > db.sessions[s.op.id].value.expiresAt) )
      <==> TakesAway(steps, c, m, id) || ExpiresAt(steps, m, id)
  {
    hide TrimSpace, Covered, Members, Before;
    var op := steps[m].op;
    if op.DeleteBySubject? && TrimSpace(op.subject) != "" {
      TrimmedNotEmpty(op.subject);
      MembersAreSubject(steps, m, op.subject, steps[m].now, id);
      assert IsCovered(steps, m, id, steps[m].now) <==> Covered(steps, c, m, steps[m].now);
    }
  }

  lemma CreateSets(db: Db, s: Step, id: string)
    requires s.op.Create? && s.op.id == id != ""
    ensures id in After(db, s).sessions
    ensures After(db, s).sessions[id] == Keyed(Payload(s.op.subject, s.now + s.op.ttl), s.now + s.op.ttl)
  {
  }

  /** The session is stored exactly as long as no step has taken it away. */
  lemma {:induction false} StandsIff(steps: seq<Step>, c: nat, n: nat, id: string)
    requires n <= |steps| && ClockNeverGoesBack(steps) && OneSubject(steps) && LastCreated(steps, c, n, id) && TrimSpace(id) != ""
    ensures id in Before(steps, n).sessions ==> Stands(steps, c, n, id)
    ensures id in Before(steps, n).sessions <==> forall j :: c < j < n ==> !TakesAway(steps, c, j, id) && !ExpiresAt(steps, j, id)
    decreases n
  {
    hide TrimSpace, After, TakesAway, ExpiresAt;
    var m := n - 1;
    var db, s := Before(steps, m), steps[m];
    if c == m {
      CreateSets(db, s, id);
    } else {
      StandsIff(steps, c, m, id);
      TrimmedNotEmpty(id);
      assert !CreatesId(steps, m, id);
      if id in db.sessions {
        StepOnStored(db, s, id);
        RemovalIs(steps, c, m, id);
      } else {
        OnlyCreateAdds(db, s, id);
      }
    }
  }

  /** Step c created the session that Get accepts: no step has taken it away since, and neither
      the deadline that c set nor the key's own has passed. */
  predicate AcceptedFrom(steps: seq<Step>, c: nat, n: nat, id: string, now: int)
    requires n <= |steps|
  {
    && LastCreated(steps, c, n, id)
    && now <= steps[c].now + steps[c].op.ttl && now <= KeyUntil(steps, c, n, id)
    && forall j :: c < j < n ==> !TakesAway(steps, c, j, id)
  }

  lemma NotExpiredBefore(steps: seq<Step>, c: nat, n: nat, id: string, now: int)
    requires n <= |steps| && ClockNeverGoesBack(steps) && OneSubject(steps) && (n > 0 ==> steps[n - 1].now <= now)
    requires TrimSpace(id) != "" && AcceptedFrom(steps, c, n, id, now)
    ensures forall j :: c < j < n ==> !ExpiresAt(steps, j, id)
  {
    hide TrimSpace, TakesAway, Before, KeyUntil;
    forall j | c < j < n ensures !ExpiresAt(steps, j, id) {
      assert LastCreated(steps, c, j, id);
      StandsIff(steps, c, j, id);
      assert steps[j].now <= steps[n - 1].now;
    }
  }

  /** The exact condition: Get accepts a session if and only if its last Create and what came
      since say so.  A Touch can shorten its life but never lengthens it beyond the deadline
      that its Create set. */
  lemma AcceptsIff(steps: seq<Step>, n: nat, id: string, now: int)
    requires n <= |steps| && ClockNeverGoesBack(steps) && OneSubject(steps) && (n > 0 ==> steps[n - 1].now <= now)
    ensures Accepts(Before(steps, n), id, now) <==> TrimSpace(id) != "" && exists c: nat :: AcceptedFrom(steps, c, n, id, now)
  {
    hide TrimSpace, TakesAway, Before, KeyUntil, ExpiresAt;
    if TrimSpace(id) != "" {
      if id in Before(steps, n).sessions {
        var c := SessionsAreTracked(steps, n, id, now);
        StandsIff(steps, c, n, id);
        if Accepts(Before(steps, n), id, now) { assert AcceptedFrom(steps, c, n, id, now); }
      }
      if c: nat :| AcceptedFrom(steps, c, n, id, now) {
        NotExpiredBefore(steps, c, n, id, now);
        StandsIff(steps, c, n, id);
      }
    }
  }
}
