/** The layered authorization check (internal/authz/service_impl.go): built-in roles, then
    resource grants, then the decision cache in front of the policy enforcer.  Grants and
    enforcer are functions handed to each call. */
module AuthzService {
  import opened DecisionCache
  import opened Text
  import opened Wrappers

  datatype Principal = Principal(roles: seq<string>, casdoorSubject: string, subjectId: string) {
    function EffectiveSubject(): string {
      if casdoorSubject != "" then casdoorSubject else subjectId
    }
  }

  datatype Request = Request(principal: Option<Principal>, subject: string, obj: string, action: string, app: string,
                             traceId: string, orgId: string, projectId: string, resourceType: string, resourceId: string)

  datatype GrantAnswer = NoAnswer | Answer(allow: bool, reason: string, resourceType: string, resourceId: string,
                                           matchedGrantId: Option<string>)

  datatype EnforceAnswer = Enforced(allow: bool) | EnforceFailed(reason: string)

  datatype Error = MissingPermission | EnforceError(reason: string)

  datatype Checked = Checked(decision: Decision, error: Option<Error>)

  datatype Config = Config(cacheEnabled: bool, cacheTTL: int, failClosed: bool)

  type Grants = Option<Request -> GrantAnswer>

  type Enforcer = (string, string, string) -> EnforceAnswer

  const MINUTE: int := 60_000_000_000

  // ----- Built-in roles.

  function LastPart(s: string): string {
    if '/' in s then var parts := Split(s, '/'); parts[|parts| - 1] else s
  }

  function NormalizeRole(role: string): string {
    LastPart(ReplaceChar(Normalize(role), '-', "_"))
  }

  predicate IsPlatformAdminRole(role: string) {
    role in {"admin", "role_admin", "platform_admin", "role_platform_admin", "platform_super_admin",
             "role_platform_super_admin", "super_admin", "role_super_admin", "aisphere_admin", "role_aisphere_admin"}
  }

  predicate RoleMatchesApp(role: string, app: string, suffix: string) {
    || role == app + "_" + suffix || role == "role_" + app + "_" + suffix || role == app + "_" + suffix + "_role"
    || role == "app_" + suffix || role == "role_app_" + suffix
  }

  predicate IsReadAction(action: string) {
    action in {"read", "view", "list", "download", "admin:read"} || HasSuffix(action, ":read")
  }

  predicate IsEditorAction(action: string) {
    || IsReadAction(action)
    || action in {"write", "create", "update", "delete", "publish", "rollback", "approve", "reject", "review", "run",
                  "cancel", "retry"}
    || HasSuffix(action, ":write")
  }

  /** One normalized role allows an action on an object of an app. */
  predicate RoleAllows(role: string, app: string, obj: string, action: string) {
    role != "" &&
    ( || IsPlatformAdminRole(role)
      || RoleMatchesApp(role, app, "admin")
      || (RoleMatchesApp(role, app, "editor") && IsEditorAction(action))
      || ((RoleMatchesApp(role, app, "viewer") || RoleMatchesApp(role, app, "reader")) && IsReadAction(action))
      || (Contains(role, "admin") && (app + ":" <= obj || (app == "aihub" && "aihub:" <= obj))) )
  }

  function RoleApp(app: string): string {
    if Normalize(app) == "" then "aihub" else Normalize(app)
  }

  /** The first of the principal's roles that allows the request. */
  function FirstAllowing(roles: seq<string>, app: string, obj: string, action: string): Option<string> {
    if roles == [] then None
    else if RoleAllows(NormalizeRole(roles[0]), app, obj, action) then Some(NormalizeRole(roles[0]))
    else FirstAllowing(roles[1..], app, obj, action)
  }

  function BuiltinRole(p: Option<Principal>, app: string, obj: string, action: string): Option<string> {
    if p.None? then None else FirstAllowing(p.value.roles, RoleApp(app), Normalize(obj), Normalize(action))
  }

  method BuiltinRoleAllows(p: Option<Principal>, app: string, obj: string, action: string) returns (r: Option<string>)
    ensures r == BuiltinRole(p, app, obj, action)
  {
    if p.None? {
      return None;
    }
    var a := Normalize(app);
    if a == "" {
      a := "aihub";
    }
    var act, o := Normalize(action), Normalize(obj);
    var roles := p.value.roles;
    for i := 0 to |roles|
      invariant FirstAllowing(roles, a, o, act) == FirstAllowing(roles[i..], a, o, act)
    {
      var role := NormalizeRole(roles[i]);
      assert roles[i..][1..] == roles[i + 1..];
      if role == "" {
        continue;
      }
      if IsPlatformAdminRole(role) {
        return Some(role);
      }
      if RoleMatchesApp(role, a, "admin") {
        return Some(role);
      }
      if RoleMatchesApp(role, a, "editor") {
        if IsEditorAction(act) {
          return Some(role);
        }
      }
      if RoleMatchesApp(role, a, "viewer") || RoleMatchesApp(role, a, "reader") {
        if IsReadAction(act) {
          return Some(role);
        }
      }
      if Contains(role, "admin") && (a + ":" <= o || (a == "aihub" && "aihub:" <= o)) {
        return Some(role);
      }
    }
    return None;
  }

  // ----- One check.

  function SubjectOf(req: Request): string {
    var s := TrimSpace(req.subject);
    if s == "" && req.principal.Some? then req.principal.value.EffectiveSubject() else s
  }

  function ObjectOf(req: Request): string { TrimSpace(req.obj) }

  function ActionOf(req: Request): string { TrimSpace(req.action) }

  /** The decision Check starts from. */
  function Blank(req: Request): Decision {
    Decision(false, "casdoor", "", SubjectOf(req), ObjectOf(req), ActionOf(req), req.traceId, req.app,
             req.orgId, req.projectId, req.resourceType, req.resourceId, "")
  }

  /** The answer, if the layers before the cache give one. */
  function Early(req: Request, grants: Grants): Option<Checked> {
    var d := Blank(req);
    if d.subject == "" || d.obj == "" || d.action == "" then
      Some(Checked(d.(reason := "missing subject/object/action"), Some(MissingPermission)))
    else
      var role := BuiltinRole(req.principal, req.app, d.obj, d.action);
      if role.Some? then
        Some(Checked(d.(allow := true, source := "builtin-role", reason := "matched_builtin_role:" + role.value), None))
      else if grants.None? then None
      else match grants.value(req)
        case NoAnswer => None
        case Answer(true, reason, typ, id, grant) =>
          Some(Checked(d.(allow := true, source := "iam-resource-grant", reason := reason, resourceType := typ,
                          resourceId := id, matchedGrantId := if grant.Some? then grant.value else ""), None))
        case Answer(false, reason, typ, id, Some(grant)) =>
          Some(Checked(d.(source := "iam-resource-grant", reason := reason, matchedGrantId := grant), None))
        case Answer(false, _, _, _, None) => None
  }

  /** The cache's subject: the app and the subject joined with a bar. */
  function CacheSubject(app: string, subject: string): string {
    TrimSpace(app) + "|" + subject
  }

  function RequestKey(req: Request): string {
    Key(CacheSubject(req.app, SubjectOf(req)), ObjectOf(req), ActionOf(req))
  }

  function FromCache(req: Request, d: Decision): Checked {
    Checked(d.(source := "cache", traceId := req.traceId), None)
  }

  function FromEnforcer(req: Request, answer: EnforceAnswer): Checked {
    match answer
    case EnforceFailed(reason) => Checked(Blank(req).(reason := reason), Some(EnforceError(reason)))
    case Enforced(allow) => Checked(Blank(req).(allow := allow, reason := if allow then "" else "casdoor_denied"), None)
  }

  function Ask(req: Request, enforce: Enforcer): EnforceAnswer {
    enforce(SubjectOf(req), ObjectOf(req), ActionOf(req))
  }

  /** The whole check, given what the cache answered. */
  function Decide(req: Request, grants: Grants, enforce: Enforcer, cached: Option<Decision>): Checked {
    var early := Early(req, grants);
    if early.Some? then early.value
    else if cached.Some? then FromCache(req, cached.value)
    else FromEnforcer(req, Ask(req, enforce))
  }

  /** The grant layer's verdict: an allow, a deny by a matched grant, or none. */
  predicate GrantAllows(req: Request, grants: Grants) {
    grants.Some? && grants.value(req).Answer? && grants.value(req).allow
  }

  predicate GrantDenies(req: Request, grants: Grants) {
    grants.Some? && grants.value(req).Answer? && !grants.value(req).allow && grants.value(req).matchedGrantId.Some?
  }

  lemma {:induction false} FirstAllowingFinds(roles: seq<string>, app: string, obj: string, action: string)
    ensures FirstAllowing(roles, app, obj, action).Some? <==>
            exists i :: 0 <= i < |roles| && RoleAllows(NormalizeRole(roles[i]), app, obj, action)
  {
    hide RoleAllows, NormalizeRole;
    if roles != [] {
      FirstAllowingFinds(roles[1..], app, obj, action);
      if FirstAllowing(roles[1..], app, obj, action).Some? {
        var i :| 0 <= i < |roles[1..]| && RoleAllows(NormalizeRole(roles[1..][i]), app, obj, action);
        assert roles[i + 1] == roles[1..][i];
      }
      if i :| 0 < i < |roles| && RoleAllows(NormalizeRole(roles[i]), app, obj, action) {
        assert roles[1..][i - 1] == roles[i];
      }
    }
  }

  /** A complete request is allowed when one of the principal's roles allows it; else when a
      grant does; else, unless a matched grant denies it, when the enforcer does. */
  lemma AllowedIff(req: Request, grants: Grants, enforce: Enforcer)
    ensures Decide(req, grants, enforce, None).decision.allow <==>
      && SubjectOf(req) != "" && ObjectOf(req) != "" && ActionOf(req) != ""
      && ( || (req.principal.Some? &&
               exists i :: 0 <= i < |req.principal.value.roles|
                 && RoleAllows(NormalizeRole(req.principal.value.roles[i]), RoleApp(req.app),
                               Normalize(ObjectOf(req)), Normalize(ActionOf(req))))
           || GrantAllows(req, grants)
           || (!GrantDenies(req, grants) && Ask(req, enforce) == Enforced(true)) )
  {
    hide RoleAllows, NormalizeRole, SubjectOf, ObjectOf, ActionOf, Normalize;
    if req.principal.Some? {
      FirstAllowingFinds(req.principal.value.roles, RoleApp(req.app), Normalize(ObjectOf(req)), Normalize(ActionOf(req)));
    }
  }

  /** Whom and what a check is about: blanks around subject, object and action mean nothing, and
      the principal speaks for itself where no subject is named, as its Casdoor subject if it has
      one.  The check fails for a missing one of the three, or, when no layer before the enforcer
      answers, with the enforcer's own error; a failed check never allows. */
  lemma FailsIff(req: Request, grants: Grants, enforce: Enforcer)
    ensures var p, named, o, a := req.principal, TrimSpace(req.subject), TrimSpace(req.obj), TrimSpace(req.action);
      var s := if named != "" then named
               else if p.None? then ""
               else if p.value.casdoorSubject != "" then p.value.casdoorSubject else p.value.subjectId;
      var r := Decide(req, grants, enforce, None);
      && r.decision.subject == s && r.decision.obj == o && r.decision.action == a && Ask(req, enforce) == enforce(s, o, a)
      && (r.error == Some(MissingPermission) <==> s == "" || o == "" || a == "")
      && (r.error == Some(MissingPermission) ==> r.decision.reason == "missing subject/object/action")
      && (forall reason :: r.error == Some(EnforceError(reason)) <==>
            && s != "" && o != "" && a != "" && BuiltinRole(p, req.app, o, a).None?
            && !GrantAllows(req, grants) && !GrantDenies(req, grants) && enforce(s, o, a) == EnforceFailed(reason))
      && (r.error.Some? ==> !r.decision.allow)
      && (r.error.None? && r.decision.source == "casdoor" ==> (r.decision.allow <==> enforce(s, o, a) == Enforced(true)))
  {
    hide TrimSpace, BuiltinRole;
  }

  /** A decision on a complete request says which layer gave it, with the cache on or off, and a
      refusal by the enforcer says so. */
  lemma SourceTells(req: Request, grants: Grants, enforce: Enforcer, cached: Option<Decision>)
    requires SubjectOf(req) != "" && ObjectOf(req) != "" && ActionOf(req) != ""
    ensures var d := Decide(req, grants, enforce, cached).decision;
            var role := BuiltinRole(req.principal, req.app, ObjectOf(req), ActionOf(req));
      && (d.source == "builtin-role" <==> role.Some?)
      && (d.source == "iam-resource-grant" <==> role.None? && (GrantAllows(req, grants) || GrantDenies(req, grants)))
      && (d.source == "cache" <==> role.None? && !GrantAllows(req, grants) && !GrantDenies(req, grants) && cached.Some?)
      && (d.source == "casdoor" <==> role.None? && !GrantAllows(req, grants) && !GrantDenies(req, grants) && cached.None?)
      && (d.source == "casdoor" && Ask(req, enforce) == Enforced(false) ==> d.reason == "casdoor_denied")
      && d.traceId == req.traceId
      && (role.Some? ==> d.reason == "matched_builtin_role:" + role.value)
      && (d.source == "iam-resource-grant" ==>
            var answer := grants.value(req);
            && d.reason == answer.reason && (answer.matchedGrantId.Some? ==> d.matchedGrantId == answer.matchedGrantId.value)
            && (answer.allow ==> d.resourceType == answer.resourceType && d.resourceId == answer.resourceId))
      && (d.source != "cache" ==> d.app == req.app && d.orgId == req.orgId && d.projectId == req.projectId)
      && (d.source == "casdoor" || d.source == "builtin-role" ==> d.resourceType == req.resourceType && d.resourceId == req.resourceId)
  {
    hide SubjectOf, ObjectOf, ActionOf, BuiltinRole;
    SourcesDiffer();
  }

  lemma SourcesDiffer()
    ensures "builtin-role" != "iam-resource-grant" && "cache" != "casdoor"
    ensures "builtin-role"[0] == 'b' && "iam-resource-grant"[0] == 'i' && "cache"[2] == 'c' && "casdoor"[2] == 's'
  {
    assert "cache"[2] != "casdoor"[2] && "builtin-role"[0] != "iam-resource-grant"[0];
  }

  predicate Stores(cfg: Config) {
    cfg.cacheEnabled && 0 < cfg.cacheTTL <= MINUTE
  }

  /** The decision Check stores: the enforcer's, without the trace id. */
  function Storable(req: Request, answer: EnforceAnswer): Decision {
    FromEnforcer(req, answer).decision.(traceId := "")
  }

  // ----- What caching must not change.

  /** The part of a decision that caching keeps: cached source, reason and scope are those of
      the request that filled the entry. */
  datatype View = View(allow: bool, subject: string, obj: string, action: string)

  function ViewOf(d: Decision): View {
    View(d.allow, d.subject, d.obj, d.action)
  }

  function Views(decisions: seq<Decision>): (r: seq<View>)
    ensures |r| == |decisions|
  {
    seq(|decisions|, i requires 0 <= i < |decisions| => ViewOf(decisions[i]))
  }

  /** A batch of checks with caching off. */
  datatype Batch = Batch(views: seq<View>, error: Option<Error>)

  function BatchUncached(reqs: seq<Request>, grants: Grants, enforce: Enforcer, failClosed: bool): Batch {
    if reqs == [] then Batch([], None)
    else
      var first := Decide(reqs[0], grants, enforce, None);
      if first.error.Some? && failClosed then Batch([ViewOf(first.decision)], first.error)
      else
        var rest := BatchUncached(reqs[1..], grants, enforce, failClosed);
        Batch([ViewOf(first.decision)] + rest.views, rest.error)
  }

  /** A batch gets the view of each check, in order; with FailClosed it ends with the first check
      that fails, and with its error, and otherwise it gets them all and no error. */
  lemma {:induction false} BatchIs(reqs: seq<Request>, grants: Grants, enforce: Enforcer, failClosed: bool)
    ensures var b := BatchUncached(reqs, grants, enforce, failClosed);
      && |b.views| <= |reqs|
      && (forall i :: 0 <= i < |b.views| ==> b.views[i] == ViewOf(Decide(reqs[i], grants, enforce, None).decision))
      && (b.error.None? ==> |b.views| == |reqs| && (failClosed ==> forall i :: 0 <= i < |reqs| ==> Decide(reqs[i], grants, enforce, None).error.None?))
      && (b.error.Some? ==>
            && failClosed && |b.views| >= 1 && Decide(reqs[|b.views| - 1], grants, enforce, None).error == b.error
            && forall i :: 0 <= i < |b.views| - 1 ==> Decide(reqs[i], grants, enforce, None).error.None?)
  {
    hide Decide, ViewOf;
    if reqs != [] {
      var first := Decide(reqs[0], grants, enforce, None);
      if !(first.error.Some? && failClosed) {
        BatchIs(reqs[1..], grants, enforce, failClosed);
        var rest := BatchUncached(reqs[1..], grants, enforce, failClosed);
        var b := BatchUncached(reqs, grants, enforce, failClosed);
        forall i | 0 <= i < |b.views| ensures b.views[i] == ViewOf(Decide(reqs[i], grants, enforce, None).decision) {
          if i > 0 { assert b.views[i] == rest.views[i - 1] && reqs[i] == reqs[1..][i - 1]; }
        }
        forall i | 0 < i < |reqs| ensures reqs[i] == reqs[1..][i - 1] {
        }
      }
    }
  }

  /** Fields that make cache keys unambiguous. */
  predicate CleanFields(app: string, subject: string, obj: string) {
    '|' !in TrimSpace(app) && NUL !in TrimSpace(app) && NUL !in subject && NUL !in obj
  }

  predicate CleanRequest(req: Request) {
    CleanFields(req.app, SubjectOf(req), ObjectOf(req))
  }

  lemma CacheKeyInjective(app: string, s: string, o: string, a: string, app': string, s': string, o': string, a': string)
    requires CleanFields(app, s, o) && CleanFields(app', s', o')
    requires Key(CacheSubject(app, s), o, a) == Key(CacheSubject(app', s'), o', a')
    ensures TrimSpace(app) == TrimSpace(app') && s == s' && o == o' && a == a'
  {
    hide TrimSpace, Key;
    KeyInjective(CacheSubject(app, s), o, a, CacheSubject(app', s'), o', a');
    assert CacheSubject(app, s) == TrimSpace(app) + ['|'] + s && CacheSubject(app', s') == TrimSpace(app') + ['|'] + s';
    FieldsBeforeSeparator(TrimSpace(app), s, TrimSpace(app'), s', '|');
  }

  /** A request that no layer before the cache answers. */
  predicate Reaches(req: Request, grants: Grants) {
    Early(req, grants).None?
  }

  predicate SameQuestion(q: Request, r: Request) {
    SubjectOf(q) == SubjectOf(r) && ObjectOf(q) == ObjectOf(r) && ActionOf(q) == ActionOf(r)
  }

  /** No two requests that reach the cache share a key and ask the enforcer different questions. */
  ghost predicate NoClash(reqs: iset<Request>, grants: Grants) {
    forall q, r :: q in reqs && r in reqs && Reaches(q, grants) && Reaches(r, grants) && RequestKey(q) == RequestKey(r) ==>
      SameQuestion(q, r)
  }

  /** What Check stores for request q. */
  predicate StoredFor(d: Decision, q: Request, enforce: Enforcer) {
    Ask(q, enforce).Enforced? && d == Storable(q, Ask(q, enforce))
  }

  ghost predicate Filler(key: string, d: Decision, reqs: iset<Request>, grants: Grants, enforce: Enforcer) {
    exists q :: q in reqs && Reaches(q, grants) && key == RequestKey(q) && StoredFor(d, q, enforce)
  }

  /** Every entry is the stored answer to one of the requests. */
  ghost predicate Filled(items: Items, reqs: iset<Request>, grants: Grants, enforce: Enforcer) {
    forall k :: k in items ==> Filler(k, items[k].decision, reqs, grants, enforce)
  }

  predicate SameOutcome(a: Checked, b: Checked) {
    ViewOf(a.decision) == ViewOf(b.decision) && a.error == b.error
  }

  /** Whatever the policy and whatever answers to the requests the cache holds, each of them
      is decided as with caching off. */
  ghost predicate Transparent(reqs: iset<Request>, grants: Grants) {
    forall enforce: Enforcer, items: Items, r: Request, now: int :: r in reqs && Filled(items, reqs, grants, enforce) ==>
      SameOutcome(Decide(r, grants, enforce, Lookup(items, RequestKey(r), now)), Decide(r, grants, enforce, None))
  }

  lemma BlankFields(req: Request)
    ensures var d := Blank(req); d.subject == SubjectOf(req) && d.obj == ObjectOf(req) && d.action == ActionOf(req)
  {
  }

  /** A stored answer to the same question is what the enforcer says now. */
  lemma StoredAgrees(q: Request, r: Request, enforce: Enforcer, d: Decision)
    requires SameQuestion(q, r) && StoredFor(d, q, enforce)
    ensures SameOutcome(FromCache(r, d), FromEnforcer(r, Ask(r, enforce)))
  {
    BlankFields(q);
    BlankFields(r);
    hide Blank, SubjectOf, ObjectOf, ActionOf;
  }

  /** Without clashes a cache of stored answers decides as the enforcer. */
  lemma DecideAgrees(req: Request, reqs: iset<Request>, grants: Grants, enforce: Enforcer, items: Items, now: int)
    requires req in reqs && NoClash(reqs, grants) && Filled(items, reqs, grants, enforce)
    ensures SameOutcome(Decide(req, grants, enforce, Lookup(items, RequestKey(req), now)), Decide(req, grants, enforce, None))
  {
    hide RequestKey, Early, SameQuestion, StoredFor, FromCache, FromEnforcer, ViewOf;
    var cached := Lookup(items, RequestKey(req), now);
    if Reaches(req, grants) && cached.Some? {
      var key, d := RequestKey(req), cached.value;
      assert Filler(key, d, reqs, grants, enforce);
      var q :| q in reqs && Reaches(q, grants) && key == RequestKey(q) && StoredFor(d, q, enforce);
      StoredAgrees(q, req, enforce, d);
    }
  }

  /** A clash gives a wrong answer: the policy allows the question of q alone, the cache holds
      the answer to q, and r is allowed from the cache although the enforcer denies it. */
  lemma ClashAllowsWrongly(q: Request, r: Request, grants: Grants) returns (enforce: Enforcer, items: Items)
    requires Reaches(q, grants) && Reaches(r, grants) && RequestKey(q) == RequestKey(r) && !SameQuestion(q, r)
    ensures Filled(items, iset{q}, grants, enforce)
    ensures Decide(r, grants, enforce, Lookup(items, RequestKey(r), 0)).decision.allow
    ensures !Decide(r, grants, enforce, None).decision.allow
  {
    hide RequestKey, Early, SubjectOf, ObjectOf, ActionOf;
    var s, o, a := SubjectOf(q), ObjectOf(q), ActionOf(q);
    enforce := (s', o', a') => Enforced(s' == s && o' == o && a' == a);
    var d := Storable(q, Ask(q, enforce));
    items := map[RequestKey(q) := Entry(d, 0)];
    assert StoredFor(d, q, enforce) && d.allow;
    assert Filler(RequestKey(q), d, iset{q}, grants, enforce);
  }

  /** Caching is transparent for a set of requests, under every policy and every content of the
      cache, if and only if no two of them clash. */
  lemma TransparentIff(reqs: iset<Request>, grants: Grants)
    ensures Transparent(reqs, grants) <==> NoClash(reqs, grants)
  {
    hide Decide, RequestKey, Early, SameQuestion, StoredFor;
    if NoClash(reqs, grants) {
      forall enforce: Enforcer, items: Items, r: Request, now: int | r in reqs && Filled(items, reqs, grants, enforce)
        ensures SameOutcome(Decide(r, grants, enforce, Lookup(items, RequestKey(r), now)), Decide(r, grants, enforce, None))
      {
        DecideAgrees(r, reqs, grants, enforce, items, now);
      }
    } else {
      var q, r :| q in reqs && r in reqs && Reaches(q, grants) && Reaches(r, grants)
                  && RequestKey(q) == RequestKey(r) && !SameQuestion(q, r);
      var enforce, items := ClashAllowsWrongly(q, r, grants);
      MoreFillers(items, iset{q}, reqs, grants, enforce);
      assert !SameOutcome(Decide(r, grants, enforce, Lookup(items, RequestKey(r), 0)), Decide(r, grants, enforce, None));
    }
  }

  lemma MoreFillers(items: Items, some: iset<Request>, all: iset<Request>, grants: Grants, enforce: Enforcer)
    requires some <= all && Filled(items, some, grants, enforce)
    ensures Filled(items, all, grants, enforce)
  {
    hide Reaches, RequestKey, StoredFor;
    forall k | k in items ensures Filler(k, items[k].decision, all, grants, enforce) {
      assert Filler(k, items[k].decision, some, grants, enforce);
    }
  }

  /** Requests without bar or NUL where it matters never clash. */
  lemma CleanIsClashFree(reqs: iset<Request>, grants: Grants)
    requires forall r :: r in reqs ==> CleanRequest(r)
    ensures NoClash(reqs, grants)
  {
    hide CleanFields, SubjectOf, ObjectOf, ActionOf, Early;
    forall q, r | q in reqs && r in reqs && RequestKey(q) == RequestKey(r) ensures SameQuestion(q, r) {
      CacheKeyInjective(q.app, SubjectOf(q), ObjectOf(q), ActionOf(q), r.app, SubjectOf(r), ObjectOf(r), ActionOf(r));
    }
  }

  /** A request by subject only. */
  function Bare(app: string, subject: string, obj: string, action: string): Request {
    Request(None, subject, obj, action, app, "", "", "", "", "")
  }

  /** A bar in the app lets a request pass that the policy denies: what app "a" was told about
      subject "b|s" is served to app "a|b" for subject "s". */
  lemma BarAllowsWrongly(a: string, b: string, s: string, obj: string, action: string) returns (enforce: Enforcer, items: Items)
    requires Trimmed(a, GO_SPACE) && Trimmed(a + "|" + b, GO_SPACE) && Trimmed(b + "|" + s, GO_SPACE) && Trimmed(s, GO_SPACE)
    requires s != "" && TrimSpace(obj) != "" && TrimSpace(action) != ""
    ensures Filled(items, iset{Bare(a, b + "|" + s, obj, action)}, None, enforce)
    ensures var r := Bare(a + "|" + b, s, obj, action);
            Decide(r, None, enforce, Lookup(items, RequestKey(r), 0)).decision.allow
            && !Decide(r, None, enforce, None).decision.allow
  {
    var q, r := Bare(a, b + "|" + s, obj, action), Bare(a + "|" + b, s, obj, action);
    BarKeys(a, b, s, obj, action);
    hide TrimSpace, RequestKey, Early;
    hide Decide;
    enforce, items := ClashAllowsWrongly(q, r, None);
  }

  /** Storing the enforcer's answer, with whatever eviction that takes, leaves stored answers. */
  lemma SetKeepsFilled(req: Request, reqs: iset<Request>, grants: Grants, enforce: Enforcer, items: Items, expiresAt: int,
                       max: int, now: int, after: Items)
    requires Filled(items, reqs, grants, enforce) && req in reqs && Reaches(req, grants) && Ask(req, enforce).Enforced?
    requires Sets(items, RequestKey(req), Entry(Storable(req, Ask(req, enforce)), expiresAt), max, now, after)
    ensures Filled(after, reqs, grants, enforce)
  {
    hide Reaches, RequestKey, Sets;
    var d := Storable(req, Ask(req, enforce));
    assert StoredFor(d, req, enforce);
    assert Filler(RequestKey(req), d, reqs, grants, enforce);
    hide Filler, StoredFor, Storable, Ask;
    forall k | k in after ensures Filler(k, after[k].decision, reqs, grants, enforce) {
      SetsFrom(items, RequestKey(req), Entry(d, expiresAt), max, now, after, k);
    }
  }

  lemma ViewsSnoc(decisions: seq<Decision>, d: Decision)
    ensures Views(decisions + [d]) == Views(decisions) + [ViewOf(d)]
  {
  }

  /** The batch result when `out` is done and `rest` is still to come. */
  function Joined(out: seq<Decision>, rest: seq<Request>, grants: Grants, enforce: Enforcer, failClosed: bool): Batch {
    var b := BatchUncached(rest, grants, enforce, failClosed);
    Batch(Views(out) + b.views, b.error)
  }

  lemma JoinedEnds(reqs: seq<Request>, out: seq<Decision>, grants: Grants, enforce: Enforcer, failClosed: bool)
    ensures Joined([], reqs, grants, enforce, failClosed) == BatchUncached(reqs, grants, enforce, failClosed)
    ensures Joined(out, [], grants, enforce, failClosed) == Batch(Views(out), None)
  {
    assert Views([]) == [];
  }

  lemma JoinedStep(reqs: seq<Request>, i: nat, out: seq<Decision>, checked: Checked, grants: Grants, enforce: Enforcer, failClosed: bool)
    requires i < |reqs|
    requires var plain := Decide(reqs[i], grants, enforce, None);
             ViewOf(checked.decision) == ViewOf(plain.decision) && checked.error == plain.error
    ensures Joined(out, reqs[i..], grants, enforce, failClosed)
         == if checked.error.Some? && failClosed then Batch(Views(out + [checked.decision]), checked.error)
            else Joined(out + [checked.decision], reqs[i + 1..], grants, enforce, failClosed)
  {
    hide Decide;
    assert reqs[i..][0] == reqs[i] && reqs[i..][1..] == reqs[i + 1..];
    ViewsSnoc(out, checked.decision);
    var rest := BatchUncached(reqs[i + 1..], grants, enforce, failClosed);
    assert Views(out) + [ViewOf(checked.decision)] + rest.views == Views(out) + ([ViewOf(checked.decision)] + rest.views);
  }

  /** DecideAgrees for what Check is given: the cache's answer, or none with caching off. */
  lemma CheckedAgrees(req: Request, reqs: iset<Request>, grants: Grants, enforce: Enforcer, items: Items, now: int, enabled: bool)
    requires req in reqs && NoClash(reqs, grants) && Filled(items, reqs, grants, enforce)
    ensures SameOutcome(Decide(req, grants, enforce, if enabled then Lookup(items, RequestKey(req), now) else None),
                        Decide(req, grants, enforce, None))
  {
    hide Decide;
    DecideAgrees(req, reqs, grants, enforce, items, now);
  }

  /** The items a check may leave behind. */
  ghost predicate Leaves(req: Request, grants: Grants, enforce: Enforcer, items: Items, looked: int, stored: int, cfg: Config,
                         max: int, after: Items) {
    || after == items
    || after == AfterGet(items, RequestKey(req), looked)
    || (Reaches(req, grants) && Ask(req, enforce).Enforced?
        && Sets(AfterGet(items, RequestKey(req), looked), RequestKey(req),
                Entry(Storable(req, Ask(req, enforce)), stored + cfg.cacheTTL), max, stored, after))
  }

  lemma CheckKeepsFilled(req: Request, reqs: iset<Request>, grants: Grants, enforce: Enforcer, items: Items, looked: int,
                         stored: int, cfg: Config, max: int, after: Items)
    requires Filled(items, reqs, grants, enforce) && req in reqs
    requires Leaves(req, grants, enforce, items, looked, stored, cfg, max, after)
    ensures Filled(after, reqs, grants, enforce)
  {
    hide Filler, Reaches, RequestKey, Storable, Ask, Sets;
    var emptied := AfterGet(items, RequestKey(req), looked);
    assert Filled(emptied, reqs, grants, enforce);
    if after != items && after != emptied {
      SetKeepsFilled(req, reqs, grants, enforce, emptied, stored + cfg.cacheTTL, max, stored, after);
    }
  }

  class DefaultService {
    const cfg: Config
    const cache: Cache

    predicate Valid()
      reads cache
    {
      cache.Valid()
    }

    constructor (cfg: Config)
      ensures this.cfg == cfg && fresh(cache) && cache.items == map[] && cache.maxEntries == 10000 && Valid()
    {
      this.cfg := cfg;
      cache := new Cache(10000);
    }

    /** What the cache answers; with caching off it is never asked. */
    function CacheAnswer(req: Request, now: int): Option<Decision>
      reads cache
    {
      if cfg.cacheEnabled then Lookup(cache.items, RequestKey(req), now) else None
    }

    /** The layers behind the grants: the cache, and the enforcer on a miss. */
    method CheckCached(req: Request, enforce: Enforcer, looked: int, stored: int) returns (r: Checked)
      requires Valid()
      modifies cache
      ensures Valid()
      ensures r == if old(CacheAnswer(req, looked)).Some? then FromCache(req, old(CacheAnswer(req, looked)).value)
                   else FromEnforcer(req, Ask(req, enforce))
      ensures cfg.cacheTTL > 60_000_000_000 || cfg.cacheTTL <= 0 ==> cache.items.Keys <= old(cache.items.Keys)
      ensures !cfg.cacheEnabled || old(CacheAnswer(req, looked)).Some? ==> cache.items == old(cache.items)
      ensures cfg.cacheEnabled && old(CacheAnswer(req, looked)).None? ==>
        var emptied := AfterGet(old(cache.items), RequestKey(req), looked);
        if Ask(req, enforce).Enforced? && Stores(cfg)
        then Sets(emptied, RequestKey(req), Entry(Storable(req, Ask(req, enforce)), stored + cfg.cacheTTL),
                  cache.maxEntries, stored, cache.items)
        else cache.items == emptied
    {
      hide Sets, TrimSpace;
      var decision := Blank(req);
      var subject, obj, action := decision.subject, decision.obj, decision.action;
      var cacheSubject := TrimSpace(req.app) + "|" + subject;
      if cfg.cacheEnabled {
        var cached := cache.Get(cacheSubject, obj, action, looked);
        if cached.Some? {
          return Checked(cached.value.(source := "cache", traceId := req.traceId), None);
        }
      }
      var resp := enforce(subject, obj, action);
      if resp.EnforceFailed? {
        return Checked(decision.(reason := resp.reason), Some(EnforceError(resp.reason)));
      }
      decision := decision.(allow := resp.allow);
      if !decision.allow {
        decision := decision.(reason := "casdoor_denied");
      }
      if cfg.cacheEnabled && 0 < cfg.cacheTTL <= MINUTE {
        cache.Set(cacheSubject, obj, action, decision.(traceId := ""), cfg.cacheTTL, stored);
      }
      return Checked(decision, None);
    }

    method Check(req: Request, grants: Grants, enforce: Enforcer, looked: int, stored: int) returns (r: Checked)
      requires Valid()
      modifies cache
      ensures Valid()
      ensures r == Decide(req, grants, enforce, old(CacheAnswer(req, looked)))
      ensures cfg.cacheTTL > 60_000_000_000 || cfg.cacheTTL <= 0 ==> cache.items.Keys <= old(cache.items.Keys)
      ensures Early(req, grants).Some? || !cfg.cacheEnabled || old(CacheAnswer(req, looked)).Some? ==>
        cache.items == old(cache.items)
      ensures !(Early(req, grants).Some? || !cfg.cacheEnabled || old(CacheAnswer(req, looked)).Some?) ==>
        var emptied := AfterGet(old(cache.items), RequestKey(req), looked);
        if Ask(req, enforce).Enforced? && Stores(cfg)
        then Sets(emptied, RequestKey(req), Entry(Storable(req, Ask(req, enforce)), stored + cfg.cacheTTL),
                  cache.maxEntries, stored, cache.items)
        else cache.items == emptied
    {
      hide NormalizeRole, RoleAllows, Sets, TrimSpace, IsPlatformAdminRole, Normalize, RequestKey, Storable, FromEnforcer, FromCache;
      var subject := TrimSpace(req.subject);
      if subject == "" && req.principal.Some? {
        subject := req.principal.value.EffectiveSubject();
      }
      var obj, action := TrimSpace(req.obj), TrimSpace(req.action);
      var decision := Decision(false, "casdoor", "", subject, obj, action, req.traceId, req.app, req.orgId,
                               req.projectId, req.resourceType, req.resourceId, "");
      if subject == "" || obj == "" || action == "" {
        return Checked(decision.(reason := "missing subject/object/action"), Some(MissingPermission));
      }
      var role := BuiltinRoleAllows(req.principal, req.app, obj, action);
      if role.Some? {
        return Checked(decision.(allow := true, source := "builtin-role", reason := "matched_builtin_role:" + role.value), None);
      }
      if grants.Some? {
        var answer := grants.value(req);
        if answer.Answer? && answer.allow {
          decision := decision.(allow := true, source := "iam-resource-grant", reason := answer.reason,
                                resourceType := answer.resourceType, resourceId := answer.resourceId);
          if answer.matchedGrantId.Some? {
            decision := decision.(matchedGrantId := answer.matchedGrantId.value);
          }
          return Checked(decision, None);
        }
        if answer.Answer? && answer.matchedGrantId.Some? {
          return Checked(decision.(source := "iam-resource-grant", reason := answer.reason,
                                   matchedGrantId := answer.matchedGrantId.value), None);
        }
      }
      r := CheckCached(req, enforce, looked, stored);
    }

    /** Caching is transparent: whatever answers to requests without clashes the cache holds,
        expires or evicts, a batch of them gets the answers and the error it would get with
        caching off. */
    method BatchCheck(reqs: seq<Request>, grants: Grants, enforce: Enforcer, times: seq<(int, int)>, ghost all: iset<Request>)
      returns (out: seq<Decision>, err: Option<Error>)
      requires Valid() && |times| == |reqs|
      modifies cache
      ensures Valid()
      ensures Filled(old(cache.items), all, grants, enforce) && NoClash(all, grants) && (forall i :: 0 <= i < |reqs| ==> reqs[i] in all)
        ==> Batch(Views(out), err) == BatchUncached(reqs, grants, enforce, cfg.failClosed)
            && Filled(cache.items, all, grants, enforce)
    {
      hide Filled, NoClash, Decide, ViewOf, RequestKey, Sets, AfterGet, Storable, Early, Ask, Lookup, Stores;
      hide Joined, BatchUncached, Views;
      out, err := [], None;
      ghost var fine := Filled(cache.items, all, grants, enforce) && NoClash(all, grants) && forall i :: 0 <= i < |reqs| ==> reqs[i] in all;
      ghost var whole := BatchUncached(reqs, grants, enforce, cfg.failClosed);
      JoinedEnds(reqs, [], grants, enforce, cfg.failClosed);
      assert reqs[0..] == reqs;
      for i := 0 to |reqs|
        invariant Valid()
        invariant fine ==> Filled(cache.items, all, grants, enforce)
        invariant fine ==> whole == Joined(out, reqs[i..], grants, enforce, cfg.failClosed)
      {
        ghost var before := cache.items;
        var checked := Check(reqs[i], grants, enforce, times[i].0, times[i].1);
        if fine {
          CheckedAgrees(reqs[i], all, grants, enforce, before, times[i].0, cfg.cacheEnabled);
          CheckKeepsFilled(reqs[i], all, grants, enforce, before, times[i].0, times[i].1, cfg, cache.maxEntries, cache.items);
          JoinedStep(reqs, i, out, checked, grants, enforce, cfg.failClosed);
        }
        out := out + [checked.decision];
        if checked.error.Some? && cfg.failClosed {
          return out, checked.error;
        }
      }
      JoinedEnds(reqs, out, grants, enforce, cfg.failClosed);
      assert reqs[|reqs|..] == [];
    }
  }

  /** The same over the service, from an empty cache: the check for app a is answered by the
      enforcer, and the check for app "a|b" within the TTL is then allowed although the enforcer
      denies it. */
  method BarServesOtherApp(service: DefaultService, a: string, b: string, s: string, obj: string, action: string,
                           stored: int, looked: int) returns (first: Checked, second: Checked, enforce: Enforcer)
    requires service.cfg.cacheEnabled && Stores(service.cfg) && service.cache.items == map[] && service.Valid()
    requires Trimmed(a, GO_SPACE) && Trimmed(a + "|" + b, GO_SPACE) && Trimmed(b + "|" + s, GO_SPACE) && Trimmed(s, GO_SPACE)
    requires s != "" && TrimSpace(obj) != "" && TrimSpace(action) != "" && looked <= stored + service.cfg.cacheTTL
    modifies service.cache
    ensures first == Decide(Bare(a, b + "|" + s, obj, action), None, enforce, None) && first.decision.allow
    ensures second.decision.allow && !Decide(Bare(a + "|" + b, s, obj, action), None, enforce, None).decision.allow
  {
    var q, r := Bare(a, b + "|" + s, obj, action), Bare(a + "|" + b, s, obj, action);
    BarKeys(a, b, s, obj, action);
    hide TrimSpace, RequestKey, SubjectOf, ObjectOf, ActionOf, Key, Trimmed, Early;
    var subject, o, act := SubjectOf(q), ObjectOf(q), ActionOf(q);
    enforce := (s', o', a') => Enforced(s' == subject && o' == o && a' == act);
    first := service.Check(q, None, enforce, stored, stored);
    var d := Storable(q, Ask(q, enforce));
    FirstSet(RequestKey(q), Entry(d, stored + service.cfg.cacheTTL), service.cache.maxEntries, stored, service.cache.items);
    second := service.Check(r, None, enforce, looked, looked);
  }

  lemma FirstSet(key: string, entry: Entry, max: int, now: int, after: Items)
    requires Sets(map[], key, entry, max, now, after)
    ensures after == map[key := entry]
  {
    var room := MakeRoom(map[], max, now);
    assert room == map[];
    var kept: Items :| Keeps(room, max, kept) && after == kept[key := entry];
    assert kept == map[];
  }

  /** The two requests reach the cache, share a key, and ask for different subjects. */
  lemma BarKeys(a: string, b: string, s: string, obj: string, action: string)
    requires Trimmed(a, GO_SPACE) && Trimmed(a + "|" + b, GO_SPACE) && Trimmed(b + "|" + s, GO_SPACE) && Trimmed(s, GO_SPACE)
    requires s != "" && TrimSpace(obj) != "" && TrimSpace(action) != ""
    ensures var q, r := Bare(a, b + "|" + s, obj, action), Bare(a + "|" + b, s, obj, action);
            Reaches(q, None) && Reaches(r, None) && RequestKey(q) == RequestKey(r) && SubjectOf(q) != SubjectOf(r)
  {
    var q, r := Bare(a, b + "|" + s, obj, action), Bare(a + "|" + b, s, obj, action);
    TrimKeepsTrimmed(a, GO_SPACE);
    TrimKeepsTrimmed(a + "|" + b, GO_SPACE);
    TrimKeepsTrimmed(b + "|" + s, GO_SPACE);
    TrimKeepsTrimmed(s, GO_SPACE);
    hide TrimSpace;
    assert SubjectOf(q) == b + "|" + s && SubjectOf(r) == s;
    assert a + "|" + b + "|" + s == a + "|" + (b + "|" + s);
    assert |b + "|" + s| > |s|;
  }
}
