/** Whom, what and how long a grant allows, in terms of its own fields and the request's. */
module GrantRights {
  import opened GrantOrders
  import opened GrantPatterns
  import opened Grants
  import opened GrantSaving
  import opened Text
  import opened Wrappers

  // ----- How long.

  predicate Unexpired(g: Grant, now: int) {
    g.expiresAt <= 0 || now <= g.expiresAt
  }

  /** A deadline limits a grant to the times up to it, and does nothing else; no deadline never ends. */
  lemma AppliesUntil(g: Grant, req: Request, now: int)
    ensures Applies(g, req, now) <==> Unexpired(g, now) && Applies(g.(expiresAt := 0), req, now)
  {
    SameTargets(g, req);
    hide TargetsResource, TargetsSubject, AllowsAction, Start;
  }

  lemma SameTargets(g: Grant, req: Request)
    ensures var h := g.(expiresAt := 0);
      && (forall app, obj, typ, id :: TargetsResource(g, app, obj, typ, id) == TargetsResource(h, app, obj, typ, id))
      && TargetsSubject(g, req) == TargetsSubject(h, req)
      && (forall action :: AllowsAction(g, action) == AllowsAction(h, action))
  {
    hide ObjectMatch, ContainsAny, HierarchyMatch, Covers, Normalize;
  }

  // ----- Whom.

  /** The request is made in the name `who`. */
  predicate Is(req: Request, who: string) {
    || who == TrimSpace(req.subject)
    || (req.principal.Some? &&
        who in {TrimSpace(req.principal.value.subjectId), TrimSpace(req.principal.value.casdoorSubject), TrimSpace(req.principal.value.username)})
  }

  predicate InOrganization(req: Request, who: string) {
    || who == TrimSpace(req.orgId)
    || (req.principal.Some? && who in {TrimSpace(req.principal.value.orgId), TrimSpace(req.principal.value.organization)})
  }

  predicate InProject(req: Request, who: string) {
    || who == TrimSpace(req.projectId)
    || (req.principal.Some? &&
        ( || (exists i :: 0 <= i < |req.principal.value.projectIds| && TrimSpace(req.principal.value.projectIds[i]) == who)
          || (req.principal.value.claimedProject.Some? && TrimSpace(req.principal.value.claimedProject.value) == who)))
  }

  /** The principal is in the group or in one below it. */
  predicate InGroup(req: Request, group: string) {
    req.principal.Some? &&
    exists i :: 0 <= i < |req.principal.value.groups| &&
      var path := GroupPath(req.principal.value.groups[i]);
      group != "" && path != "" && (path == group || group + "/" <= path)
  }

  lemma SubjectsAre(req: Request, who: string)
    requires who != ""
    ensures ContainsAny(CandidateSubjects(req), who) <==> Is(req, TrimSpace(who)) && TrimSpace(who) != ""
  {
    hide TrimSpace;
    var all := CandidateSubjects(req);
    if req.principal.Some? {
      assert all[0] == req.subject && all[2] == req.principal.value.subjectId;
      assert all[3] == req.principal.value.casdoorSubject && all[4] == req.principal.value.username;
      assert all[1] in {req.principal.value.subjectId, req.principal.value.casdoorSubject};
    } else {
      assert |all| == 1 && all[0] == req.subject;
    }
  }

  lemma OrganizationsAre(req: Request, who: string)
    ensures ContainsAny(Orgs(req), who) <==> InOrganization(req, TrimSpace(who)) && TrimSpace(who) != ""
  {
    hide TrimSpace;
    var all := Orgs(req);
    if req.principal.Some? {
      assert all[0] == req.orgId && all[1] == req.principal.value.orgId && all[2] == req.principal.value.organization;
    } else {
      assert |all| == 1 && all[0] == req.orgId;
    }
  }

  lemma ProjectsAre(req: Request, who: string)
    ensures ContainsAny(Projects(req), who) <==> InProject(req, TrimSpace(who)) && TrimSpace(who) != ""
  {
    hide TrimSpace;
    var all := Projects(req);
    assert all[0] == req.projectId;
    if req.principal.Some? {
      var p := req.principal.value;
      assert forall i :: 0 <= i < |p.projectIds| ==> all[i + 1] == p.projectIds[i];
      if p.claimedProject.Some? {
        assert all[|p.projectIds| + 1] == p.claimedProject.value && |all| == |p.projectIds| + 2;
      } else {
        assert |all| == |p.projectIds| + 1;
      }
      if i :| 0 <= i < |all| && TrimSpace(all[i]) == TrimSpace(who) {
        assert 0 < i <= |p.projectIds| ==> TrimSpace(p.projectIds[i - 1]) == TrimSpace(who);
      }
    } else {
      assert |all| == 1;
    }
  }

  /** Whom a grant is for, by the kind of its subject.  Blanks around names mean nothing; a grant
      of another kind, or without a subject, is for nobody. */
  lemma TargetsSubjectIff(g: Grant, req: Request)
    ensures var kind, who := Normalize(g.subjectType), TrimSpace(g.subjectId);
      TargetsSubject(g, req) <==>
        || kind == "public"
        || (who != "" && kind in {"user", "human", "service", "agent"} && Is(req, who))
        || (who != "" && kind in {"org", "organization"} && InOrganization(req, who))
        || (who != "" && kind == "project" && InProject(req, who))
        || (kind == "group" && InGroup(req, GroupPath(g.subjectId)))
  {
    OrganizationsAre(req, g.subjectId);
    ProjectsAre(req, g.subjectId);
    if g.subjectId == "" {
      assert TrimSpace("") == "";
    } else {
      SubjectsAre(req, g.subjectId);
    }
    hide Normalize, TrimSpace, CandidateSubjects, Orgs, Projects, Is, InOrganization, InProject, GroupPath;
  }

  lemma {:induction false} TrimOnly(s: string, cut: set<char>)
    requires s != "" && s[0] !in cut && s[|s| - 1] !in cut
    ensures Trim(s, cut) == s
  {
  }

  /** Slashes around a group's path mean nothing. */
  lemma SlashesMeanNothing(path: string)
    requires path != "" && path[0] !in GO_SPACE && path[|path| - 1] !in GO_SPACE && path[0] != '/' && path[|path| - 1] != '/'
    ensures GroupPath(path) == path && GroupPath("/" + path) == path && GroupPath(path + "/") == path
  {
    TrimOnly(path, GO_SPACE);
    TrimOnly("/" + path, GO_SPACE);
    TrimOnly(path + "/", GO_SPACE);
    hide GO_SPACE;
    TrimDropsPrefix("/", path, {'/'});
    TrimOnly(path, {'/'});
    TrimRightDrops(path, "/", {'/'});
  }

  // ----- What.

  /** What a role may do. */
  predicate RoleMay(role: string, action: string) {
    var r := Normalize(role);
    if r in {"admin", "owner"} then true
    else if r in {"viewer", "reader"} then action in {"read", "view", "list", "download"}
    else if r in {"runner", "executor"} then action in {"read", "view", "list", "run", "use"}
    else if r in {"editor", "developer", "contributor"} then
      action in {"read", "view", "list", "download", "write", "create", "update", "delete", "publish", "rollback"}
    else if r in {"reviewer", "approver"} then action in {"read", "view", "list", "download", "approve", "reject", "review"}
    else action == "read"
  }

  /** A role covers exactly the actions of its table; an unknown role may read. */
  lemma RoleTable(role: string, action: string)
    ensures Covers(RoleActions(role), action) <==> RoleMay(role, action)
  {
    RoleCoverage(role, action);
    hide Covers, Normalize;
  }

  /** Action patterns: a star covers all, "x:*" what starts with "x:", "write" the six changes,
      "run" also use, and any other pattern itself. */
  lemma PatternTable(pattern: string, x: string, action: string)
    ensures Normalize(pattern) == "*" ==> ActionMatches(pattern, action)
    ensures Normalize(pattern) == x + ":*" && action != x + ":*" ==> (ActionMatches(pattern, action) <==> x + ":" <= action)
    ensures Normalize(pattern) == "write" ==>
      (ActionMatches(pattern, action) <==> action in {"create", "update", "delete", "write", "publish", "rollback"})
    ensures Normalize(pattern) == "run" ==> (ActionMatches(pattern, action) <==> action in {"run", "use"})
    ensures Normalize(pattern) == x && x !in {"*", "write", "run"} && !HasSuffix(x, ":*") ==> (ActionMatches(pattern, action) <==> action == x)
  {
    hide Normalize;
    var p := x + ":*";
    assert p[|p| - 2..] == ":*" && p[..|p| - 1] == x + ":";
    assert p[|p| - 2] == ':' && "*"[0] != ':' && "write"[3] == 't' && "run"[1] == 'u';
    assert "run"[1..] == "un" && "run"[1..][0] == 'u';
  }

  // ----- Which resource.

  lemma PrintedPrefix(app: string, typ: string, app': string, typ': string, id: string)
    requires ':' !in app && ':' !in typ && ':' !in app' && ':' !in typ'
    ensures app + ":" + typ + ":" <= PrintObject(app', typ', id) <==> app == app' && typ == typ'
  {
    var front, o := app + ":" + typ + ":", PrintObject(app', typ', id);
    SplitField(app', typ' + [':'] + id, ':');
    SplitField(typ', id, ':');
    hide Split;
    assert o == app' + [':'] + (typ' + [':'] + id);
    if front <= o {
      var rest := o[|front|..];
      assert o == front + rest == app + [':'] + (typ + [':'] + rest);
      SplitField(app, typ + [':'] + rest, ':');
      SplitField(typ, rest, ':');
      assert Split(o, ':')[0] == app && Split(o, ':')[1] == typ;
    }
  }

  /** A printed pattern covers the printed objects of its own app and type, and no others. */
  lemma PatternCoversIff(app: string, typ: string, app': string, typ': string, id: string)
    requires ':' !in app && ':' !in typ && ':' !in app' && ':' !in typ'
    ensures PrefixMatch(PrintObject(app, typ, "*"), PrintObject(app', typ', id)) <==> app == app' && typ == typ'
  {
    PrintedPrefix(app, typ, app', typ', id);
    var p := PrintObject(app, typ, "*");
    assert p[|p| - 2..] == ":*" && p[..|p| - 1] == app + ":" + typ + ":";
  }

  /** A grant on one resource is for a request without an object exactly if the request names no
      other app, type or id; with an object, if it names no other app and the object is the grant's. */
  lemma TargetsOneIff(g: Grant, app: string, obj: string, typ: string, id: string)
    requires g.app != "" && g.app != "*" && g.resourceType != "" && g.resourceId != "" && g.resourceId != "*"
    requires g.obj == PrintObject(g.app, g.resourceType, g.resourceId) && TrimSpace(g.obj) == g.obj && !HasSuffix(g.obj, ":*")
    ensures TargetsResource(g, app, obj, typ, id) <==>
      && (app == "" || app == g.app)
      && (if obj == "" then (typ == "" || typ == g.resourceType) && (id == "" || id == g.resourceId) else TrimSpace(obj) == g.obj)
  {
    assert g.obj[|g.app|] == ':' && |g.obj| > 1;
    hide TrimSpace;
  }

  /** What a check takes from the printed object it names: the type and the id that the request
      leaves out, and its app unless the request gives app, or type and id both. */
  lemma ObjectFillsIn(req: Request, app: string, typ: string, id: string)
    requires TrimSpace(req.obj) == PrintObject(app, typ, id)
    requires ParseObject(PrintObject(app, typ, id)) == (app, typ, id)
    ensures var d, given := Start(req), Normalize(req.resourceType) != "" && TrimSpace(req.resourceId) != "";
      && d.obj == PrintObject(app, typ, id)
      && d.app == (if Normalize(req.app) != "" then Normalize(req.app) else if given then "" else app)
      && d.resourceType == (if Normalize(req.resourceType) != "" then Normalize(req.resourceType) else typ)
      && d.resourceId == (if TrimSpace(req.resourceId) != "" then TrimSpace(req.resourceId) else id)
  {
    hide Normalize, TrimSpace, ParseObject, PrintObject;
  }

  // ----- All together.

  /** A grant for one user on one resource, once saved, applies to a check on its printed object
      exactly if it has not expired, the check is made in the user's name, and its role or one of
      its actions covers what is asked. */
  lemma SavedAppliesIff(g: Grant, freshId: string, saved: int, req: Request, now: int)
    requires UserAllow(g)
    requires var s := Prepared(g, freshId, saved);
             TrimSpace(req.obj) == s.obj && (Normalize(req.app) == "" || Normalize(req.app) == s.app)
    ensures Applies(Prepared(g, freshId, saved), req, now) <==>
      && Unexpired(g, now) && Is(req, TrimSpace(g.subjectId)) && Normalize(req.action) != ""
      && ( || RoleMay(if TrimSpace(g.role) == "" then "viewer" else g.role, Normalize(req.action))
           || Covers(NormalizeAll(g.actions), Normalize(req.action)) )
  {
    var s := Prepared(g, freshId, saved);
    PreparedPrints(g, freshId, saved);
    PreparedUser(g, freshId, saved);
    PreparedActions(g, freshId, saved);
    PreparedRole(g, freshId, saved);
    hide Prepared, Trim, Lower, ParseObject, PrintObject, UserAllow;
    UserGrantApplies(s, req, now);
    AllowsIff(s, req.action);
    SameRole(s.role, if TrimSpace(g.role) == "" then "viewer" else g.role, Normalize(req.action));
  }

  lemma SameRole(a: string, b: string, action: string)
    requires Normalize(a) == Normalize(b)
    ensures RoleMay(a, action) == RoleMay(b, action)
  {
  }

  lemma PreparedUser(g: Grant, freshId: string, saved: int)
    requires Normalize(g.subjectType) == "user"
    ensures var s := Prepared(g, freshId, saved);
            Normalize(s.subjectType) == "user" && s.subjectId == TrimSpace(g.subjectId) && TrimSpace(s.subjectId) == s.subjectId
  {
    NormalizeTwice(g.subjectType);
    TrimTwice(g.subjectId, GO_SPACE);
    PreparedSubject(g, freshId, saved);
    hide Prepared, Normalize, Trim;
  }

  lemma AllowsIff(s: Grant, action: string)
    ensures AllowsAction(s, Normalize(action)) <==>
            Normalize(action) != "" && (Covers(s.actions, Normalize(action)) || RoleMay(s.role, Normalize(action)))
  {
    NormalizeTwice(action);
    RoleTable(s.role, Normalize(action));
    hide Normalize, Covers, RoleMay, RoleActions;
  }

  lemma UserGrantApplies(s: Grant, req: Request, now: int)
    requires Normalize(s.subjectType) == "user" && TrimSpace(s.subjectId) == s.subjectId != ""
    requires s.obj == PrintObject(s.app, s.resourceType, s.resourceId) && s.obj != "" && TrimSpace(s.obj) == s.obj
    requires ParseObject(s.obj) == (s.app, s.resourceType, s.resourceId)
    requires TrimSpace(req.obj) == s.obj && (Normalize(req.app) == "" || Normalize(req.app) == s.app)
    ensures Applies(s, req, now) <==> Unexpired(s, now) && Is(req, s.subjectId) && AllowsAction(s, Normalize(req.action))
  {
    TargetsSubjectIff(s, req);
    ObjectTargeted(s, req);
    StartAction(req);
    hide Normalize, TrimSpace, TargetsResource, TargetsSubject, Start, Is, AllowsAction, ParseObject, PrintObject;
  }

  /** A grant without a role is saved as a viewer's. */
  lemma PreparedRole(g: Grant, freshId: string, saved: int)
    ensures Normalize(Prepared(g, freshId, saved).role) == Normalize(if TrimSpace(g.role) == "" then "viewer" else g.role)
  {
    NormalizeTwice(DefaultString(g.role, "viewer"));
    TrimTwice(g.role, GO_SPACE);
    hide Trim, Lower;
  }

  /** A saved grant denies exactly if it was said to, whatever the capitals and blanks. */
  lemma SavedDeniesIff(g: Grant, freshId: string, saved: int)
    ensures Denies(Prepared(g, freshId, saved)) <==> Normalize(g.effect) == "deny"
  {
    var effect := Normalize(DefaultString(g.effect, "allow"));
    NormalizeTwice(DefaultString(g.effect, "allow"));
    TrimTwice(g.effect, GO_SPACE);
    WordIsNormal("allow");
    hide Trim, GO_SPACE;
    assert Prepared(g, freshId, saved).effect == effect;
    hide Prepared;
    assert TrimSpace(g.effect) == "" ==> Normalize(g.effect) == "" && effect == "allow";
    assert TrimSpace(g.effect) != "" ==> effect == Normalize(g.effect);
    hide Lower;
  }

  /** Saving again what was saved changes nothing but the time of the update, and a public grant
      is always saved with a subject. */
  lemma SavedTwice(g: Grant, freshId: string, saved: int, freshId': string, saved': int)
    requires TrimSpace(freshId) == freshId != "" && saved != 0
    ensures var once := Prepared(g, freshId, saved);
      && Prepared(once, freshId', saved') == once.(updatedAt := saved')
      && (once.subjectType == "public" ==> once.subjectId != "")
  {
    var once := Prepared(g, freshId, saved);
    SavedTextsStay(g, freshId, saved);
    SavedNamesStay(g, freshId, saved);
    SavedRightsStay(g, freshId, saved);
    SavedObjectStays(g, freshId, saved);
    hide Normalize, TrimSpace, NormalizeAll, DefaultString, PrintObject;
    assert once.app != "";
  }

  lemma SavedTextsStay(g: Grant, freshId: string, saved: int)
    requires TrimSpace(freshId) == freshId != ""
    ensures var s := Prepared(g, freshId, saved);
      && TrimSpace(s.id) == s.id != "" && TrimSpace(s.orgId) == s.orgId && TrimSpace(s.projectId) == s.projectId
      && TrimSpace(s.resourceId) == s.resourceId && TrimSpace(s.subjectId) == s.subjectId
  {
    TrimTwice(g.id, GO_SPACE);
    TrimTwice(g.orgId, GO_SPACE);
    TrimTwice(g.projectId, GO_SPACE);
    TrimTwice(g.resourceId, GO_SPACE);
    TrimTwice(g.subjectId, GO_SPACE);
    TrimKeepsTrimmed("*", GO_SPACE);
    hide Normalize, Trim, NormalizeAll, DefaultString, PrintObject;
  }

  lemma SavedNamesStay(g: Grant, freshId: string, saved: int)
    ensures var s := Prepared(g, freshId, saved);
      && Normalize(s.app) == s.app != "" && Normalize(s.resourceType) == s.resourceType
      && Normalize(s.subjectType) == s.subjectType
      && (s.subjectType == "public" ==> s.subjectId != "")
  {
    NormalizeTwice(g.app);
    NormalizeTwice(g.resourceType);
    NormalizeTwice(g.subjectType);
    AihubIsNormal();
    hide Normalize, TrimSpace, NormalizeAll, DefaultString, PrintObject;
  }

  lemma SavedRightsStay(g: Grant, freshId: string, saved: int)
    ensures var s := Prepared(g, freshId, saved);
      && Normalize(DefaultString(s.role, "viewer")) == s.role && Normalize(DefaultString(s.effect, "allow")) == s.effect
      && NormalizeAll(s.actions) == s.actions
  {
    DefaultedStays(g.role, "viewer");
    DefaultedStays(g.effect, "allow");
    ActionsStay(g.actions);
    hide Normalize, TrimSpace, NormalizeAll, DefaultString, PrintObject;
  }

  lemma DefaultedStays(value: string, other: string)
    requires Word(other)
    ensures var v := Normalize(DefaultString(value, other)); v != "" && Normalize(DefaultString(v, other)) == v
  {
    WordIsNormal(other);
    NormalizeTwice(DefaultString(value, other));
    TrimTwice(value, GO_SPACE);
    hide Trim;
  }

  lemma ActionsStay(actions: seq<string>)
    ensures NormalizeAll(NormalizeAll(actions)) == NormalizeAll(actions)
  {
    forall i | 0 <= i < |actions| ensures Normalize(Normalize(actions[i])) == Normalize(actions[i]) {
      NormalizeTwice(actions[i]);
    }
    hide Normalize;
  }

  /** A saved object is trimmed, and there is one if type and id are. */
  lemma SavedObjectStays(g: Grant, freshId: string, saved: int)
    ensures var s := Prepared(g, freshId, saved);
            TrimSpace(s.obj) == s.obj && (s.resourceType != "" && s.resourceId != "" ==> s.obj != "")
  {
    TrimTwice(g.obj, GO_SPACE);
    var s := Prepared(g, freshId, saved);
    if s.obj == PrintObject(s.app, s.resourceType, s.resourceId) && TrimSpace(g.obj) == "" && s.resourceId != "" {
      NormalizeTwice(g.app);
      AihubIsNormal();
      TrimIsTrimmed(g.resourceId, GO_SPACE);
      hide Normalize, TrimSpace;
      assert s.app != "" && Normalize(s.app) == s.app;
      PrintedIsTrimmed(s.app, s.resourceType, s.resourceId);
    }
    hide Normalize, Trim;
  }

  lemma PrintedIsTrimmed(app: string, typ: string, id: string)
    requires Normalize(app) == app != "" && Trimmed(id, GO_SPACE) && id != ""
    ensures TrimSpace(PrintObject(app, typ, id)) == PrintObject(app, typ, id)
  {
    NormalizeTwice(app);
    var obj := PrintObject(app, typ, id);
    assert obj[0] == app[0] && obj[|obj| - 1] == id[|id| - 1];
    TrimKeepsTrimmed(obj, GO_SPACE);
  }

  lemma PreparedActions(g: Grant, freshId: string, saved: int)
    ensures Prepared(g, freshId, saved).actions == NormalizeAll(g.actions)
  {
  }

  lemma ObjectTargeted(s: Grant, req: Request)
    requires s.obj == PrintObject(s.app, s.resourceType, s.resourceId) && s.obj != "" && TrimSpace(s.obj) == s.obj
    requires ParseObject(s.obj) == (s.app, s.resourceType, s.resourceId)
    requires TrimSpace(req.obj) == s.obj && (Normalize(req.app) == "" || Normalize(req.app) == s.app)
    ensures var d := Start(req); TargetsResource(s, d.app, d.obj, d.resourceType, d.resourceId)
  {
    hide Normalize, TrimSpace, ParseObject;
  }
}
