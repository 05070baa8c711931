/** The Redis session store (internal/session/redis_store.go) over a Redis with expiring keys.
    Session keys and subject-set keys never coincide (KeysApart), so each has its own map. */
module RedisSessions {
  import opened Text
  import opened Wrappers

  function SessionKey(prefix: string, id: string): string { prefix + ":session:" + id }

  function SubjectKey(prefix: string, subject: string): string { prefix + ":session_subject:" + subject }

  lemma KeysApart(prefix: string, id: string, id': string, subject: string, subject': string)
    ensures SessionKey(prefix, id) != SubjectKey(prefix, subject)
    ensures SessionKey(prefix, id) == SessionKey(prefix, id') ==> id == id'
    ensures SubjectKey(prefix, subject) == SubjectKey(prefix, subject') ==> subject == subject'
  {
    var n := |prefix|;
    assert SessionKey(prefix, id)[n + 8] == ':' && SubjectKey(prefix, subject)[n + 8] == '_';
    assert SessionKey(prefix, id)[n + 9..] == id && SessionKey(prefix, id')[n + 9..] == id';
    assert SubjectKey(prefix, subject)[n + 17..] == subject && SubjectKey(prefix, subject')[n + 17..] == subject';
  }

  /** A session's payload; subject "" stands for a session without one. */
  datatype Payload = Payload(subject: string, expiresAt: int)

  /** A key's value and the time after which Redis no longer has it. */
  datatype Keyed<T> = Keyed(value: T, until: int)

  datatype Db = Db(sessions: map<string, Keyed<Payload>>, subjects: map<string, Keyed<set<string>>>)

  predicate HasSession(db: Db, id: string, now: int) {
    id in db.sessions && now <= db.sessions[id].until
  }

  /** SMEMBERS. */
  function Members(db: Db, subject: string, now: int): set<string> {
    if subject in db.subjects && now <= db.subjects[subject].until then db.subjects[subject].value else {}
  }

  function AfterCreate(db: Db, id: string, subject: string, ttl: int, now: int): Db {
    if id == "" then db
    else Db(db.sessions[id := Keyed(Payload(subject, now + ttl), now + ttl)],
            if subject == "" then db.subjects
            else db.subjects[subject := Keyed(Members(db, subject, now) + {id}, now + ttl)])
  }

  /** The delete script. */
  function AfterScript(db: Db, id: string, now: int): Db {
    var subject := if HasSession(db, id, now) then db.sessions[id].value.subject else "";
    Db(db.sessions - {id},
       if subject != "" && subject in db.subjects
       then db.subjects[subject := db.subjects[subject].(value := db.subjects[subject].value - {id})]
       else db.subjects)
  }

  function AfterDelete(db: Db, id: string, now: int): Db {
    if TrimSpace(id) == "" then db else AfterScript(db, TrimSpace(id), now)
  }

  /** Get answers with a session. */
  predicate Accepts(db: Db, id: string, now: int) {
    TrimSpace(id) != "" && HasSession(db, id, now) && now <= db.sessions[id].value.expiresAt
  }

  function AfterGet(db: Db, id: string, now: int): Db {
    if TrimSpace(id) != "" && HasSession(db, id, now) && now > db.sessions[id].value.expiresAt
    then AfterDelete(db, id, now) else db
  }

  function AfterTouch(db: Db, id: string, ttl: int, now: int): Db {
    if TrimSpace(id) != "" && HasSession(db, id, now)
    then db.(sessions := db.sessions[id := db.sessions[id].(until := now + ttl)]) else db
  }

  /** The pipeline of DeleteBySubject, for ids that it has read from the subject's set. */
  function AfterDrop(db: Db, subject: string, ids: set<string>): Db {
    Db(db.sessions - ids, db.subjects - {subject})
  }

  /** DeleteBySubject with nothing between reading the set and the pipeline. */
  function AfterDeleteBySubject(db: Db, subject: string, now: int): Db {
    if TrimSpace(subject) == "" then db else AfterDrop(db, subject, Members(db, subject, now))
  }

  class RedisStore {
    var db: Db

    constructor ()
      ensures db == Db(map[], map[])
    {
      db := Db(map[], map[]);
    }

    method Create(id: string, subject: string, ttl: int, now: int) returns (ok: bool)
      modifies this
      ensures ok <==> id != ""
      ensures db == AfterCreate(old(db), id, subject, ttl, now)
    {
      if id == "" {
        return false;
      }
      var members := Members(db, subject, now);
      db := db.(sessions := db.sessions[id := Keyed(Payload(subject, now + ttl), now + ttl)]);
      if subject != "" {
        db := db.(subjects := db.subjects[subject := Keyed(members + {id}, now + ttl)]);
      }
      return true;
    }

    method Get(id: string, now: int) returns (r: Option<Payload>)
      modifies this
      ensures r.Some? <==> Accepts(old(db), id, now)
      ensures r.Some? ==> r.value == old(db).sessions[id].value
      ensures db == AfterGet(old(db), id, now)
    {
      if TrimSpace(id) == "" || !HasSession(db, id, now) {
        return None;
      }
      var sess := db.sessions[id].value;
      if now > sess.expiresAt {
        Delete(id, now);
        return None;
      }
      return Some(sess);
    }

    method Delete(id: string, now: int)
      modifies this
      ensures db == AfterDelete(old(db), id, now)
    {
      var key := TrimSpace(id);
      if key == "" {
        return;
      }
      if HasSession(db, key, now) {
        var subject := db.sessions[key].value.subject;
        if subject != "" && subject in db.subjects {
          var members := db.subjects[subject];
          db := db.(subjects := db.subjects[subject := members.(value := members.value - {key})]);
        }
      }
      db := db.(sessions := db.sessions - {key});
    }

    method Touch(id: string, ttl: int, now: int) returns (found: bool)
      modifies this
      ensures found <==> TrimSpace(id) != "" && HasSession(old(db), id, now)
      ensures db == AfterTouch(old(db), id, ttl, now)
    {
      if TrimSpace(id) == "" || !HasSession(db, id, now) {
        return false;
      }
      db := db.(sessions := db.sessions[id := db.sessions[id].(until := now + ttl)]);
      return true;
    }

    /** The second command of DeleteBySubject. */
    method Drop(subject: string, ids: set<string>)
      modifies this
      ensures db == AfterDrop(old(db), subject, ids)
    {
      var todo := ids;
      while todo != {}
        invariant todo <= ids
        invariant db == old(db).(sessions := old(db).sessions - (ids - todo))
        decreases todo
      {
        var id :| id in todo;
        db := db.(sessions := db.sessions - {id});
        todo := todo - {id};
      }
      db := db.(subjects := db.subjects - {subject});
    }

    method DeleteBySubject(subject: string, now: int)
      modifies this
      ensures db == AfterDeleteBySubject(old(db), subject, now)
    {
      if TrimSpace(subject) == "" {
        return;
      }
      var ids := Members(db, subject, now);
      Drop(subject, ids);
    }
  }
}

/** The subject index over runs of the store. */
module RedisRuns {
  import opened RedisSessions
  import opened Text
  import opened Wrappers
  import Memory = SessionStore

  datatype Op =
    | Create(id: string, subject: string, ttl: int)
    | Get(id: string)
    | Delete(id: string)
    | Touch(id: string, ttl: int)
    | DeleteBySubject(subject: string)                  // reading the set and deleting as one step
    | Drop(subject: string, ids: set<string>)           // deleting what an earlier step has read

  datatype Step = Step(now: int, op: Op)

  function After(db: Db, s: Step): Db {
    match s.op
    case Create(id, subject, ttl) => AfterCreate(db, id, subject, ttl, s.now)
    case Get(id) => AfterGet(db, id, s.now)
    case Delete(id) => AfterDelete(db, id, s.now)
    case Touch(id, ttl) => AfterTouch(db, id, ttl, s.now)
    case DeleteBySubject(subject) => AfterDeleteBySubject(db, subject, s.now)
    case Drop(subject, ids) => AfterDrop(db, subject, ids)
  }

  function Before(steps: seq<Step>, n: nat): Db
    requires n <= |steps|
  {
    if n == 0 then Db(map[], map[]) else After(Before(steps, n - 1), steps[n - 1])
  }

  predicate ClockNeverGoesBack(steps: seq<Step>) {
    forall i, j :: 0 <= i < j < |steps| ==> steps[i].now <= steps[j].now
  }

  /** An id always belongs to one subject. */
  predicate OneSubject(steps: seq<Step>) {
    forall i, j :: 0 <= i < j < |steps| && steps[i].op.Create? && steps[j].op.Create? && steps[i].op.id == steps[j].op.id ==>
      steps[i].op.subject == steps[j].op.subject
  }

  /** No Create sets an earlier deadline than an earlier Create for the same subject. */
  predicate SteadyDeadlines(steps: seq<Step>) {
    forall i, j :: 0 <= i < j < |steps| && steps[i].op.Create? && steps[j].op.Create? ==>
      steps[i].op.subject == steps[j].op.subject ==> Deadline(steps[i]) <= Deadline(steps[j])
  }

  /** The deadline that a creating step sets. */
  function Deadline(s: Step): int
    requires s.op.Create?
  {
    s.now + s.op.ttl
  }

  predicate CreatesId(steps: seq<Step>, i: nat, id: string)
    requires i < |steps|
  {
    steps[i].op.Create? && steps[i].op.id == id != ""
  }

  predicate CreatesFor(steps: seq<Step>, i: nat, subject: string)
    requires i < |steps|
  {
    steps[i].op.Create? && steps[i].op.subject == subject && steps[i].op.id != ""
  }

  /** The deadline that the last Create for a subject with index in [c, n) set. */
  function LastDeadline(steps: seq<Step>, c: nat, n: nat): int
    requires c < n <= |steps| && steps[c].op.Create?
  {
    if n == c + 1 then Deadline(steps[c])
    else if CreatesFor(steps, n - 1, steps[c].op.subject) then Deadline(steps[n - 1])
    else LastDeadline(steps, c, n - 1)
  }

  /** Each later Create for the subject of step c came no later than the deadline that the
      one before it had set. */
  predicate Unbroken(steps: seq<Step>, c: nat, n: nat)
    requires c < n <= |steps| && steps[c].op.Create?
  {
    forall i :: c < i < n && CreatesFor(steps, i, steps[c].op.subject) ==> steps[i].now <= LastDeadline(steps, c, i)
  }

  /** No second command of a DeleteBySubject has dropped the set of step c's subject.  One that
      had read the session's id has deleted the session with it. */
  predicate Undropped(steps: seq<Step>, c: nat, n: nat)
    requires c < n <= |steps| && steps[c].op.Create?
  {
    forall i :: c < i < n && steps[i].op.Drop? ==> steps[i].op.subject != steps[c].op.subject
  }

  /** At a time after step n - 1, the index covers a session that step c created. */
  predicate Covered(steps: seq<Step>, c: nat, n: nat, now: int)
    requires c < n <= |steps| && steps[c].op.Create?
  {
    Unbroken(steps, c, n) && now <= LastDeadline(steps, c, n) && Undropped(steps, c, n)
  }

  /** Step c was the last to create the session `id` before step n. */
  predicate LastCreated(steps: seq<Step>, c: nat, n: nat, id: string)
    requires n <= |steps|
  {
    c < n && CreatesId(steps, c, id) && forall i :: c < i < n ==> !CreatesId(steps, i, id)
  }

  /** Step c stored the session that stands before step n, and the session is in its
      subject's live set exactly if the index covers it. */
  ghost predicate Tracked(steps: seq<Step>, c: nat, n: nat, id: string, db: Db, now: int)
    requires n <= |steps| && id in db.sessions
  {
    && LastCreated(steps, c, n, id)
    && db.sessions[id].value == Payload(steps[c].op.subject, Deadline(steps[c]))
    && (steps[c].op.subject != "" ==> (id in Members(db, steps[c].op.subject, now) <==> Covered(steps, c, n, now)))
  }

  lemma CoveredNext(steps: seq<Step>, c: nat, n: nat, now: int)
    requires c < n < |steps| && steps[c].op.Create?
    ensures Covered(steps, c, n + 1, now) <==>
            if CreatesFor(steps, n, steps[c].op.subject)
            then Covered(steps, c, n, steps[n].now) && now <= Deadline(steps[n])
            else Covered(steps, c, n, now) && !(steps[n].op.Drop? && steps[n].op.subject == steps[c].op.subject)
  {
  }

  lemma CoveredAtOnce(steps: seq<Step>, c: nat, now: int)
    requires c < |steps| && steps[c].op.Create?
    ensures Covered(steps, c, c + 1, now) <==> now <= Deadline(steps[c])
  {
  }

  /** A Create puts its own session into the set, and drops the others exactly if the set has died. */
  lemma CreateMembers(db: Db, s: Step, id: string, subject: string, now: int)
    requires s.op.Create? && s.op.id != "" && subject != "" && s.now <= now
    ensures id in Members(After(db, s), subject, now) <==>
            if s.op.subject == subject then now <= Deadline(s) && (id == s.op.id || id in Members(db, subject, s.now))
            else id in Members(db, subject, now)
  {
  }

  /** Any other step leaves a session that it keeps in the set, or out of it. */
  lemma OtherMembers(db: Db, s: Step, id: string, subject: string, now: int)
    requires !s.op.Create? && s.now <= now && id in After(db, s).sessions && subject != ""
    requires !(s.op.Drop? && s.op.subject == subject)
    ensures id in db.sessions && After(db, s).sessions[id].value == db.sessions[id].value
    ensures id in Members(db, subject, now) ==> id in Members(After(db, s), subject, now)
    ensures id in Members(After(db, s), subject, now) ==> id in Members(db, subject, now)
  {
    hide TrimSpace;
  }

  lemma DropEmpties(db: Db, s: Step, now: int)
    requires s.op.Drop?
    ensures Members(After(db, s), s.op.subject, now) == {}
  {
  }

  /** In every run each stored session stems from its last Create and is indexed exactly if
      covered. */
  lemma {:induction false} SessionsAreTracked(steps: seq<Step>, n: nat, id: string, now: int) returns (c: nat)
    requires n <= |steps| && ClockNeverGoesBack(steps) && id in Before(steps, n).sessions
    requires n > 0 ==> steps[n - 1].now <= now
    ensures Tracked(steps, c, n, id, Before(steps, n), now)
  {
    hide After, Members, Covered;
    var m := n - 1;
    var db, s := Before(steps, m), steps[m];
    if CreatesId(steps, m, id) {
      c := m;
      CoveredAtOnce(steps, m, now);
      CreateStores(db, s, id);
      if s.op.subject != "" { CreateMembers(db, s, id, s.op.subject, now); }
    } else {
      OthersStay(db, s, id);
      c := SessionsAreTracked(steps, m, id, now);
      var subject := steps[c].op.subject;
      CoveredNext(steps, c, m, now);
      if subject != "" {
        if s.op.Create? {
          var c' := SessionsAreTracked(steps, m, id, s.now);
          assert c' == c;
          if s.op.id != "" { CreateMembers(db, s, id, subject, now); } else { EmptyIdChangesNothing(db, s); }
        } else if s.op.Drop? && s.op.subject == subject {
          DropEmpties(db, s, now);
        } else {
          OtherMembers(db, s, id, subject, now);
        }
      }
    }
  }

  lemma CreateStores(db: Db, s: Step, id: string)
    requires s.op.Create? && s.op.id == id != ""
    ensures id in After(db, s).sessions && After(db, s).sessions[id].value == Payload(s.op.subject, Deadline(s))
  {
  }

  lemma OthersStay(db: Db, s: Step, id: string)
    requires id in After(db, s).sessions && !(s.op.Create? && s.op.id == id != "")
    ensures id in db.sessions && After(db, s).sessions[id].value == db.sessions[id].value
  {
    hide TrimSpace;
  }

  lemma EmptyIdChangesNothing(db: Db, s: Step)
    requires s.op.Create? && s.op.id == ""
    ensures After(db, s) == db
  {
  }

  lemma NotBlankIsNotEmpty(subject: string)
    requires TrimSpace(subject) != ""
    ensures subject != ""
  {
    assert TrimSpace("") == "";
  }

  /** In every run, DeleteBySubject removes an acceptable session of its subject if and only if
      each Create for the subject since the session's own came before the deadline that the
      previous one had set, the last of these deadlines has not passed, and no drop of the
      subject's set came since without having read the session's id. */
  lemma DeletedIffCovered(steps: seq<Step>, n: nat, id: string, now: int) returns (c: nat)
    requires n <= |steps| && ClockNeverGoesBack(steps) && (n > 0 ==> steps[n - 1].now <= now)
    requires Accepts(Before(steps, n), id, now) && TrimSpace(Before(steps, n).sessions[id].value.subject) != ""
    ensures LastCreated(steps, c, n, id)
    ensures Before(steps, n).sessions[id].value == Payload(steps[c].op.subject, Deadline(steps[c]))
    ensures !Accepts(AfterDeleteBySubject(Before(steps, n), steps[c].op.subject, now), id, now) <==> Covered(steps, c, n, now)
  {
    c := SessionsAreTracked(steps, n, id, now);
    NotBlankIsNotEmpty(steps[c].op.subject);
    hide TrimSpace, Members, Covered, Before;
  }

  lemma {:induction false} LastDeadlineIsLate(steps: seq<Step>, c: nat, n: nat)
    requires SteadyDeadlines(steps) && c < n <= |steps| && steps[c].op.Create?
    ensures Deadline(steps[c]) <= LastDeadline(steps, c, n)
  {
    if n > c + 1 {
      LastDeadlineIsLate(steps, c, n - 1);
    }
  }

  /** When deadlines do not decrease, a session is covered up to its own deadline. */
  lemma SteadyIsCovered(steps: seq<Step>, c: nat, n: nat, now: int)
    requires ClockNeverGoesBack(steps) && SteadyDeadlines(steps) && c < n <= |steps| && steps[n - 1].now <= now
    requires steps[c].op.Create? && now <= Deadline(steps[c]) && Undropped(steps, c, n)
    ensures Covered(steps, c, n, now)
  {
    hide LastDeadline, SteadyDeadlines;
    forall i | c < i <= n ensures Deadline(steps[c]) <= LastDeadline(steps, c, i) {
      LastDeadlineIsLate(steps, c, i);
    }
  }

  /** Deadlines do not decrease, and nothing comes between the two commands of DeleteBySubject. */
  predicate ValidRun(steps: seq<Step>) {
    && ClockNeverGoesBack(steps) && OneSubject(steps) && SteadyDeadlines(steps)
    && forall i :: 0 <= i < |steps| ==> !steps[i].op.Drop?
  }

  /** In every state of such a run each acceptable session is in its subject's live set,
      although Touch extends only the session's own key. */
  lemma AcceptableIsIndexed(steps: seq<Step>, n: nat, id: string, now: int)
    requires n <= |steps| && ValidRun(steps) && (n > 0 ==> steps[n - 1].now <= now)
    requires Accepts(Before(steps, n), id, now)
    ensures var subject := Before(steps, n).sessions[id].value.subject;
            subject != "" ==> id in Members(Before(steps, n), subject, now)
  {
    hide TrimSpace, Members, Covered, Before;
    var c := SessionsAreTracked(steps, n, id, now);
    SteadyIsCovered(steps, c, n, now);
  }

  // ----- The index against a scan of all sessions.

  predicate MemberCreated(steps: seq<Step>, n: nat, subject: string, id: string)
    requires n <= |steps|
  {
    exists i :: 0 <= i < n && CreatesId(steps, i, id) && steps[i].op.subject == subject
  }

  lemma StepMembers(db: Db, s: Step, subject: string, id: string)
    requires subject in After(db, s).subjects && id in After(db, s).subjects[subject].value
    ensures (s.op.Create? && s.op.id == id != "" && s.op.subject == subject)
         || (subject in db.subjects && id in db.subjects[subject].value)
  {
    hide TrimSpace;
  }

  lemma {:induction false} MembersAreCreated(steps: seq<Step>, n: nat, subject: string, id: string)
    requires n <= |steps| && subject in Before(steps, n).subjects && id in Before(steps, n).subjects[subject].value
    ensures MemberCreated(steps, n, subject, id)
  {
    hide After;
    var m := n - 1;
    StepMembers(Before(steps, m), steps[m], subject, id);
    if !(CreatesId(steps, m, id) && steps[m].op.subject == subject) {
      MembersAreCreated(steps, m, subject, id);
    }
  }

  /** The acceptable sessions at a time, as the in-memory store would hold them. */
  function AsMemory(db: Db, now: int): Memory.Sessions {
    map id | id in db.sessions && Accepts(db, id, now) ::
      Memory.Session(id, Some(Memory.Principal(db.sessions[id].value.subject, "")), 0, 0, db.sessions[id].value.expiresAt)
  }

  /** The index covers the session `id` that stands before step n. */
  ghost predicate IsCovered(steps: seq<Step>, n: nat, id: string, now: int)
    requires n <= |steps|
  {
    exists c: nat :: LastCreated(steps, c, n, id) && Covered(steps, c, n, now)
  }

  lemma MembersAreSubject(steps: seq<Step>, n: nat, subject: string, now: int, id: string)
    requires n <= |steps| && ClockNeverGoesBack(steps) && OneSubject(steps) && (n > 0 ==> steps[n - 1].now <= now)
    requires subject != "" && id in Before(steps, n).sessions
    ensures id in Members(Before(steps, n), subject, now) <==>
            Before(steps, n).sessions[id].value.subject == subject && IsCovered(steps, n, id, now)
  {
    hide Covered, Before;
    var db := Before(steps, n);
    var c := SessionsAreTracked(steps, n, id, now);
    if id in Members(db, subject, now) {
      MembersAreCreated(steps, n, subject, id);
    }
  }

  predicate AcceptableOf(db: Db, subject: string, id: string, now: int) {
    id in db.sessions && Accepts(db, id, now) && db.sessions[id].value.subject == subject
  }

  lemma AcceptsAfterDelete(db: Db, subject: string, now: int, id: string, later: int)
    requires TrimSpace(subject) != ""
    ensures Accepts(AfterDeleteBySubject(db, subject, now), id, later) <==>
            Accepts(db, id, later) && id !in Members(db, subject, now)
  {
    hide TrimSpace;
  }

  lemma DeleteMembersIsScan(db: Db, subject: string, now: int, later: int)
    requires TrimSpace(subject) != ""
    ensures AsMemory(AfterDeleteBySubject(db, subject, now), later) == Memory.AfterDeleteBySubject(AsMemory(db, later), subject)
       <==> forall id :: id in db.sessions && Accepts(db, id, later) ==>
              (id in Members(db, subject, now) <==> db.sessions[id].value.subject == subject)
  {
    NotBlankIsNotEmpty(subject);
    hide TrimSpace, Members, Accepts;
    var byIndex, byScan := AsMemory(AfterDeleteBySubject(db, subject, now), later),
                           Memory.AfterDeleteBySubject(AsMemory(db, later), subject);
    forall id ensures id in byIndex <==> id in db.sessions && Accepts(db, id, later) && id !in Members(db, subject, now) {
      AcceptsAfterDelete(db, subject, now, id, later);
    }
    forall id ensures id in byScan <==> id in db.sessions && Accepts(db, id, later) && db.sessions[id].value.subject != subject {
    }
  }

  /** DeleteBySubject through the index leaves, now or at a later time, exactly the acceptable
      sessions that a scan of all sessions would leave, if and only if the index covers each
      acceptable session of the subject. */
  lemma ScanIff(steps: seq<Step>, n: nat, subject: string, now: int, later: int)
    requires n <= |steps| && ClockNeverGoesBack(steps) && OneSubject(steps) && (n > 0 ==> steps[n - 1].now <= now)
    requires TrimSpace(subject) != ""
    ensures AsMemory(AfterDeleteBySubject(Before(steps, n), subject, now), later)
         == Memory.AfterDeleteBySubject(AsMemory(Before(steps, n), later), subject)
       <==> forall id :: AcceptableOf(Before(steps, n), subject, id, later) ==> IsCovered(steps, n, id, now)
  {
    NotBlankIsNotEmpty(subject);
    DeleteMembersIsScan(Before(steps, n), subject, now, later);
    hide TrimSpace, Members, IsCovered, Before, AfterDeleteBySubject, AsMemory;
    forall id | id in Before(steps, n).sessions {
      MembersAreSubject(steps, n, subject, now, id);
    }
  }

  /** When deadlines do not decrease, the index and the scan agree at any later time. */
  lemma DeleteBySubjectIsScan(steps: seq<Step>, n: nat, subject: string, now: int, later: int)
    requires n <= |steps| && ValidRun(steps) && (n > 0 ==> steps[n - 1].now <= now) && now <= later
    requires TrimSpace(subject) != ""
    ensures AsMemory(AfterDeleteBySubject(Before(steps, n), subject, now), later)
         == Memory.AfterDeleteBySubject(AsMemory(Before(steps, n), later), subject)
  {
    ScanIff(steps, n, subject, now, later);
    hide TrimSpace, Members, Covered, Before, AsMemory, AfterDeleteBySubject;
    forall id | id in Before(steps, n).sessions && Accepts(Before(steps, n), id, later) ensures IsCovered(steps, n, id, now) {
      var c := SessionsAreTracked(steps, n, id, now);
      SteadyIsCovered(steps, c, n, now);
    }
  }

  /** Two sessions of one subject: the first, while still acceptable, is removed exactly if the
      second one's deadline has not passed either. */
  lemma EarlierDeadlineIff(subject: string, a: string, b: string, first: int, second: int, created: int, now: int)
    requires TrimSpace(subject) != "" && TrimSpace(a) != "" && b != "" && a != b
    requires 0 <= created <= now <= first
    ensures var db := Before([Step(0, Create(a, subject, first)), Step(created, Create(b, subject, second))], 2);
            Accepts(db, a, now)
            && (!Accepts(AfterDeleteBySubject(db, subject, now), a, now) <==> now <= created + second)
  {
    NotBlankIsNotEmpty(subject);
    NotBlankIsNotEmpty(a);
    hide TrimSpace;
    var steps := [Step(0, Create(a, subject, first)), Step(created, Create(b, subject, second))];
    assert Before(steps, 1) == After(Before(steps, 0), steps[0]);
    assert Before(steps, 2) == After(Before(steps, 1), steps[1]);
    var c := DeletedIffCovered(steps, 2, a, now);
    assert c == 0;
    CoveredAtOnce(steps, 0, created);
    CoveredNext(steps, 0, 1, now);
  }

  /** A Create between the two commands of DeleteBySubject: the first command reads the set of
      session a alone, b is created, and the second drops the set.  Session b is acceptable, and
      no later DeleteBySubject removes it. */
  lemma CreateBetweenIsMissed(subject: string, a: string, b: string, ttl: int, now: int)
    requires TrimSpace(subject) != "" && TrimSpace(b) != "" && a != "" && a != b && 0 <= now <= ttl
    ensures var read := Before([Step(0, Create(a, subject, ttl))], 1);
            var steps := [Step(0, Create(a, subject, ttl)), Step(0, Create(b, subject, ttl)), Step(0, Drop(subject, {a}))];
            && Members(read, subject, 0) == {a}
            && Accepts(Before(steps, 3), b, now) && Accepts(AfterDeleteBySubject(Before(steps, 3), subject, now), b, now)
  {
    NotBlankIsNotEmpty(subject);
    NotBlankIsNotEmpty(b);
    hide TrimSpace;
    var first := [Step(0, Create(a, subject, ttl))];
    assert Before(first, 0) == Db(map[], map[]);
    assert Before(first, 1) == After(Before(first, 0), first[0]);
    var steps := [Step(0, Create(a, subject, ttl)), Step(0, Create(b, subject, ttl)), Step(0, Drop(subject, {a}))];
    assert Before(steps, 1) == After(Before(steps, 0), steps[0]);
    assert Before(steps, 2) == After(Before(steps, 1), steps[1]);
    assert Before(steps, 3) == After(Before(steps, 2), steps[2]);
    var c := DeletedIffCovered(steps, 3, b, now);
  }
}
