/** Resource grants and how one is matched against a request (internal/iam/service.go). */
module Grants {
  import opened Text
  import opened Wrappers

  datatype Grant = Grant(id: string, app: string, orgId: string, projectId: string, resourceType: string,
                         resourceId: string, obj: string, subjectType: string, subjectId: string, role: string,
                         actions: seq<string>, effect: string, expiresAt: int, createdBy: string,
                         createdAt: int, updatedAt: int)

  datatype Principal = Principal(subjectId: string, casdoorSubject: string, username: string, organization: string,
                                 groups: seq<string>, orgId: string, projectIds: seq<string>,
                                 claimedProject: Option<string>) {
    function EffectiveSubject(): string {
      if casdoorSubject != "" then casdoorSubject else subjectId
    }
  }

  datatype Request = Request(principal: Option<Principal>, subject: string, app: string, orgId: string,
                             projectId: string, obj: string, resourceType: string, resourceId: string, action: string)

  datatype Decision = Decision(allow: bool, reason: string, app: string, subject: string, obj: string,
                               resourceType: string, resourceId: string, action: string, matched: Option<Grant>)

  function DefaultString(v: string, d: string): string {
    if TrimSpace(v) != "" then TrimSpace(v) else d
  }

  // ----- Objects.

  /** parseObject: app, type and id of "app:type:id"; the id may hold further colons. */
  function ParseObject(obj: string): (string, string, string) {
    var parts := Split(TrimSpace(obj), ':');
    if |parts| >= 3 then (Normalize(parts[0]), Normalize(parts[1]), Join(parts[2..], ':')) else ("", "", "")
  }

  function PrintObject(app: string, typ: string, id: string): string {
    app + ":" + typ + ":" + id
  }

  /** A pattern that ends in ":*" matches whatever starts with it up to the colon. */
  predicate PrefixMatch(p: string, s: string) {
    HasSuffix(p, ":*") && p[..|p| - 1] <= s
  }

  predicate ObjectMatch(pattern: string, obj: string) {
    var p, o := TrimSpace(pattern), TrimSpace(obj);
    p == "*" || p == o || PrefixMatch(p, o)
  }

  predicate TargetsResource(g: Grant, app: string, obj: string, typ: string, id: string) {
    if g.app != "" && g.app != "*" && app != "" && g.app != app then false
    else if g.obj != "" && obj != "" then ObjectMatch(g.obj, obj)
    else if g.resourceType != "" && typ != "" && g.resourceType != typ then false
    else if g.resourceId != "" && g.resourceId != "*" && id != "" && g.resourceId != id then false
    else true
  }

  // ----- Subjects.

  predicate ContainsAny(values: seq<string>, target: string) {
    TrimSpace(target) != "" && exists i :: 0 <= i < |values| && TrimSpace(values[i]) == TrimSpace(target)
  }

  /** A group path without surrounding blanks and slashes. */
  function GroupPath(group: string): string {
    Trim(TrimSpace(group), {'/'})
  }

  predicate HierarchyMatch(grantGroup: string, actualGroup: string) {
    var g, a := GroupPath(grantGroup), GroupPath(actualGroup);
    g != "" && a != "" && (a == g || g + "/" <= a)
  }

  function CandidateSubjects(req: Request): seq<string> {
    [req.subject] + match req.principal
                    case None => []
                    case Some(p) => [p.EffectiveSubject(), p.subjectId, p.casdoorSubject, p.username]
  }

  function Orgs(req: Request): seq<string> {
    [req.orgId] + match req.principal case None => [] case Some(p) => [p.orgId, p.organization]
  }

  function Projects(req: Request): seq<string> {
    [req.projectId] + match req.principal
                      case None => []
                      case Some(p) => p.projectIds + (if p.claimedProject.Some? then [p.claimedProject.value] else [])
  }

  predicate TargetsSubject(g: Grant, req: Request) {
    var kind := Normalize(g.subjectType);
    if kind == "public" then true
    else if kind in {"user", "human", "service", "agent"} then ContainsAny(CandidateSubjects(req), g.subjectId)
    else if kind == "group" then
      req.principal.Some? &&
      exists i :: 0 <= i < |req.principal.value.groups| && HierarchyMatch(g.subjectId, req.principal.value.groups[i])
    else if kind in {"org", "organization"} then ContainsAny(Orgs(req), g.subjectId)
    else if kind == "project" then ContainsAny(Projects(req), g.subjectId)
    else false
  }

  // ----- Actions.

  predicate ActionMatches(pattern: string, action: string) {
    var p := Normalize(pattern);
    || p == "*" || p == action
    || (p == "run" && action == "use")
    || (if p == "write" then action in {"create", "update", "delete", "write", "publish", "rollback"}
        else PrefixMatch(p, action))
  }

  function RoleActions(role: string): seq<string> {
    var r := Normalize(role);
    if r in {"viewer", "reader"} then ["read", "view", "list", "download"]
    else if r in {"runner", "executor"} then ["read", "view", "list", "run"]
    else if r in {"editor", "developer", "contributor"} then
      ["read", "view", "list", "download", "write", "create", "update", "delete", "publish", "rollback"]
    else if r in {"reviewer", "approver"} then ["read", "view", "list", "download", "approve", "reject", "review"]
    else if r in {"admin", "owner"} then ["*"]
    else ["read"]
  }

  predicate Covers(patterns: seq<string>, action: string) {
    exists i :: 0 <= i < |patterns| && ActionMatches(patterns[i], action)
  }

  predicate AllowsAction(g: Grant, action: string) {
    Normalize(action) != "" && (Covers(g.actions, Normalize(action)) || Covers(RoleActions(g.role), Normalize(action)))
  }

  // ----- One grant against one request.

  predicate Expired(g: Grant, now: int) {
    g.expiresAt > 0 && now > g.expiresAt
  }

  predicate Denies(g: Grant) {
    Lower(g.effect) == "deny"
  }

  function EffectiveSubject(req: Request): string {
    if TrimSpace(req.subject) != "" then TrimSpace(req.subject)
    else if req.principal.Some? then req.principal.value.EffectiveSubject()
    else ""
  }

  /** The decision a check starts from: normalized fields, with what the request leaves out
      taken from its object. */
  function Start(req: Request): Decision {
    var d := Decision(false, "no_matching_grant", Normalize(req.app), EffectiveSubject(req), TrimSpace(req.obj),
                      Normalize(req.resourceType), TrimSpace(req.resourceId), Normalize(req.action), None);
    if d.resourceType != "" && d.resourceId != "" then d
    else
      var (app, typ, id) := ParseObject(d.obj);
      d.(app := if d.app == "" then app else d.app,
         resourceType := if d.resourceType == "" then typ else d.resourceType,
         resourceId := if d.resourceId == "" then id else d.resourceId)
  }

  /** An unexpired grant that targets the request's resource and subject and covers its action. */
  predicate Applies(g: Grant, req: Request, now: int) {
    var d := Start(req);
    && !Expired(g, now)
    && TargetsResource(g, d.app, d.obj, d.resourceType, d.resourceId)
    && TargetsSubject(g, req)
    && AllowsAction(g, d.action)
  }

  /** The decision when the scan stops at a grant. */
  function Matched(d: Decision, g: Grant): Decision {
    d.(matched := Some(g), allow := !Denies(g), reason := if Denies(g) then "denied_by_resource_grant" else "matched_resource_grant")
  }

  /** The first grant of a list that applies. */
  function FirstApplying(grants: seq<Grant>, req: Request, now: int): Option<Grant> {
    if grants == [] then None
    else if Applies(grants[0], req, now) then Some(grants[0])
    else FirstApplying(grants[1..], req, now)
  }

  /** Scanning grants in a given order stops at the first one that applies. */
  function Scan(grants: seq<Grant>, req: Request, now: int): Decision {
    if Start(req).action == "" then Start(req).(reason := "missing_action")
    else match FirstApplying(grants, req, now)
         case None => Start(req)
         case Some(g) => Matched(Start(req), g)
  }

  /** What a scan of an unordered map of grants may decide. */
  ghost predicate Possible(grants: map<string, Grant>, req: Request, now: int, d: Decision) {
    if Start(req).action == "" then d == Start(req).(reason := "missing_action")
    else if forall id :: id in grants ==> !Applies(grants[id], req, now) then d == Start(req)
    else exists id :: id in grants && Applies(grants[id], req, now) && d == Matched(Start(req), grants[id])
  }

  // ----- Saving.

  function NormalizeAll(actions: seq<string>): (r: seq<string>)
    ensures |r| == |actions|
  {
    seq(|actions|, i requires 0 <= i < |actions| => Normalize(actions[i]))
  }

  /** prepareGrantForSave; `freshId` is the random id, `now` the time in milliseconds. */
  function Prepared(g: Grant, freshId: string, now: int): Grant {
    var app := if Normalize(g.app) == "" then "aihub" else Normalize(g.app);
    var typ, id, obj := Normalize(g.resourceType), TrimSpace(g.resourceId), TrimSpace(g.obj);
    var kind, subject := Normalize(g.subjectType), TrimSpace(g.subjectId);
    Grant(if TrimSpace(g.id) == "" then freshId else TrimSpace(g.id),
          app, TrimSpace(g.orgId), TrimSpace(g.projectId), typ, id,
          if obj == "" && typ != "" && id != "" then PrintObject(app, typ, id) else obj,
          kind, if kind == "public" && subject == "" then "*" else subject,
          Normalize(DefaultString(g.role, "viewer")), NormalizeAll(g.actions), Normalize(DefaultString(g.effect, "allow")),
          g.expiresAt, g.createdBy, if g.createdAt == 0 then now else g.createdAt, now)
  }

  method PrepareGrantForSave(g: Grant, freshId: string, now: int) returns (grant: Grant)
    ensures grant == Prepared(g, freshId, now)
  {
    hide Normalize, TrimSpace;
    grant := g.(id := TrimSpace(g.id));
    if grant.id == "" {
      grant := grant.(id := freshId);
    }
    grant := grant.(app := Normalize(grant.app));
    if grant.app == "" {
      grant := grant.(app := "aihub");
    }
    grant := grant.(orgId := TrimSpace(grant.orgId), projectId := TrimSpace(grant.projectId),
                    resourceType := Normalize(grant.resourceType), resourceId := TrimSpace(grant.resourceId),
                    obj := TrimSpace(grant.obj));
    if grant.obj == "" && grant.app != "" && grant.resourceType != "" && grant.resourceId != "" {
      grant := grant.(obj := grant.app + ":" + grant.resourceType + ":" + grant.resourceId);
    }
    grant := grant.(subjectType := Normalize(grant.subjectType), subjectId := TrimSpace(grant.subjectId),
                    role := Normalize(DefaultString(grant.role, "viewer")),
                    effect := Normalize(DefaultString(grant.effect, "allow")));
    var actions := grant.actions;
    for i := 0 to |actions|
      invariant |actions| == |g.actions|
      invariant forall k :: 0 <= k < |actions| ==> actions[k] == if k < i then Normalize(g.actions[k]) else g.actions[k]
    {
      actions := actions[i := Normalize(actions[i])];
    }
    assert actions == NormalizeAll(g.actions);
    grant := grant.(actions := actions);
    if grant.createdAt == 0 {
      grant := grant.(createdAt := now);
    }
    grant := grant.(updatedAt := now);
    if grant.subjectType == "public" && grant.subjectId == "" {
      grant := grant.(subjectId := "*");
    }
  }

  class MemoryService {
    var grants: map<string, Grant>

    constructor ()
      ensures grants == map[]
    {
      grants := map[];
    }

    method SaveResourceGrant(g: Grant, freshId: string, now: int) returns (saved: Grant)
      modifies this
      ensures saved == Prepared(g, freshId, now)
      ensures grants == old(grants)[saved.id := saved]
    {
      saved := PrepareGrantForSave(g, freshId, now);
      grants := grants[saved.id := saved];
    }

    method DeleteResourceGrant(id: string)
      modifies this
      ensures grants == old(grants) - {TrimSpace(id)}
    {
      grants := grants - {TrimSpace(id)};
    }

    /** The loop takes the map's entries in whatever order they come. */
    method CheckResourceGrant(req: Request, now: int) returns (d: Decision)
      ensures Possible(grants, req, now, d)
    {
      hide Start, Applies;
      d := Start(req);
      if d.action == "" {
        return d.(reason := "missing_action");
      }
      var todo := grants.Keys;
      while todo != {}
        invariant todo <= grants.Keys
        invariant forall id :: id in grants && id !in todo ==> !Applies(grants[id], req, now)
        decreases todo
      {
        var id :| id in todo;
        var g := grants[id];
        if Applies(g, req, now) {
          d := d.(matched := Some(g), allow := Lower(g.effect) != "deny");
          d := d.(reason := if d.allow then "matched_resource_grant" else "denied_by_resource_grant");
          return d;
        }
        todo := todo - {id};
      }
    }
  }
}
