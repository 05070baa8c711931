/** What holds of every check, whatever order the map of grants is scanned in. */
module GrantOrders {
  import opened Grants
  import opened Text

  /** `order` lists every key of the map once. */
  ghost predicate Enumerates(order: seq<string>, grants: map<string, Grant>) {
    && (forall id :: id in order <==> id in grants)
    && (forall i, j :: 0 <= i < j < |order| ==> order[i] != order[j])
  }

  function Listed(order: seq<string>, grants: map<string, Grant>): (r: seq<Grant>)
    requires forall i :: 0 <= i < |order| ==> order[i] in grants
    ensures |r| == |order| && forall i :: 0 <= i < |order| ==> r[i] == grants[order[i]]
  {
    seq(|order|, i requires 0 <= i < |order| => grants[order[i]])
  }

  ghost predicate SomeApplies(grants: map<string, Grant>, req: Request, now: int) {
    exists id :: id in grants && Applies(grants[id], req, now)
  }

  lemma {:induction false} FirstApplyingIsFirst(grants: seq<Grant>, req: Request, now: int)
    ensures var first := FirstApplying(grants, req, now);
            if first.None? then forall i :: 0 <= i < |grants| ==> !Applies(grants[i], req, now)
            else Applies(first.value, req, now)
                 && exists i :: 0 <= i < |grants| && grants[i] == first.value
                                && forall j :: 0 <= j < i ==> !Applies(grants[j], req, now)
  {
    hide Applies;
    if grants != [] && !Applies(grants[0], req, now) {
      var rest := grants[1..];
      FirstApplyingIsFirst(rest, req, now);
      var first := FirstApplying(rest, req, now);
      if first.Some? {
        var i :| 0 <= i < |rest| && rest[i] == first.value && forall j :: 0 <= j < i ==> !Applies(rest[j], req, now);
        assert grants[i + 1] == first.value;
        assert forall j :: 0 <= j < i + 1 ==> !Applies(grants[j], req, now) by {
          forall j | 0 <= j < i + 1 ensures !Applies(grants[j], req, now) { assert j > 0 ==> grants[j] == rest[j - 1]; }
        }
      } else {
        forall j | 0 <= j < |grants| ensures !Applies(grants[j], req, now) { assert j > 0 ==> grants[j] == rest[j - 1]; }
      }
    }
  }

  /** Without an action nothing applies. */
  lemma NoActionNothingApplies(g: Grant, req: Request, now: int)
    requires Start(req).action == ""
    ensures !Applies(g, req, now)
  {
    NormalizeTwice(req.action);
  }

  /** In every order a grant is matched iff some grant applies, and then it is one that does;
      Allow is that grant's effect not being deny. */
  lemma ScanMatches(order: seq<string>, grants: map<string, Grant>, req: Request, now: int)
    requires Enumerates(order, grants)
    ensures var d := Scan(Listed(order, grants), req, now);
            && (d.matched.Some? <==> SomeApplies(grants, req, now))
            && (d.matched.Some? ==> Applies(d.matched.value, req, now) && (d.allow <==> !Denies(d.matched.value))
                                    && exists id :: id in grants && grants[id] == d.matched.value)
            && (d.matched.None? ==> !d.allow)
  {
    hide Applies, Start, Denies;
    StartMatchesNothing(req);
    var list := Listed(order, grants);
    FirstApplyingIsFirst(list, req, now);
    if Start(req).action == "" {
      forall id | id in grants ensures !Applies(grants[id], req, now) { NoActionNothingApplies(grants[id], req, now); }
    } else if SomeApplies(grants, req, now) {
      var id :| id in grants && Applies(grants[id], req, now);
      var i :| 0 <= i < |order| && order[i] == id;
      assert list[i] == grants[id];
    }
  }

  lemma StartMatchesNothing(req: Request)
    ensures Start(req).matched.None? && !Start(req).allow && Start(req).reason == "no_matching_grant"
  {
  }

  /** The reason tells the outcome apart. */
  lemma ScanReasons(grants: seq<Grant>, req: Request, now: int)
    ensures var d := Scan(grants, req, now);
      && (Normalize(req.action) == "" <==> d.reason == "missing_action")
      && (d.matched.None? && Normalize(req.action) != "" <==> d.reason == "no_matching_grant")
      && (d.matched.Some? && d.allow <==> d.reason == "matched_resource_grant")
      && (d.matched.Some? && !d.allow <==> d.reason == "denied_by_resource_grant")
  {
    ReasonsDiffer();
    StartAction(req);
    StartMatchesNothing(req);
    hide Applies, Denies, Start;
  }

  lemma ReasonsDiffer()
    ensures "missing_action" != "no_matching_grant" && "missing_action" != "matched_resource_grant"
    ensures "missing_action"[0] == 'm' && "no_matching_grant"[0] == 'n' && "matched_resource_grant"[1] == 'a' && "denied_by_resource_grant"[0] == 'd'
  {
    assert "missing_action"[1] == 'i' && "matched_resource_grant"[1] == 'a' && "no_matching_grant"[0] == 'n';
  }

  lemma StartAction(req: Request)
    ensures Start(req).action == Normalize(req.action)
  {
  }

  ghost function AnyOrder(keys: set<string>): (order: seq<string>)
    ensures forall k :: k in order <==> k in keys
    ensures forall i, j :: 0 <= i < j < |order| ==> order[i] != order[j]
  {
    if keys == {} then [] else var k :| k in keys; [k] + AnyOrder(keys - {k})
  }

  /** Some order scans a given applying grant first. */
  lemma ScanCanMatch(grants: map<string, Grant>, req: Request, now: int, id: string) returns (order: seq<string>)
    requires id in grants && Applies(grants[id], req, now)
    ensures Enumerates(order, grants) && Scan(Listed(order, grants), req, now) == Matched(Start(req), grants[id])
  {
    hide Applies, Start;
    order := [id] + AnyOrder(grants.Keys - {id});
    assert forall k :: k in order <==> k in grants;
    assert forall i :: 0 <= i < |order| ==> order[i] in order;
    assert Listed(order, grants)[0] == grants[id];
    if Start(req).action == "" { NoActionNothingApplies(grants[id], req, now); }
  }

  /** Every applying grant denies, or none does. */
  ghost predicate ApplyingAgree(grants: map<string, Grant>, req: Request, now: int) {
    forall a, b :: a in grants && b in grants && Applies(grants[a], req, now) && Applies(grants[b], req, now) ==>
      (Denies(grants[a]) <==> Denies(grants[b]))
  }

  ghost predicate SameInAllOrders(grants: map<string, Grant>, req: Request, now: int) {
    forall o, o' :: Enumerates(o, grants) && Enumerates(o', grants) ==>
      Scan(Listed(o, grants), req, now).allow == Scan(Listed(o', grants), req, now).allow
  }

  /** The answer does not depend on the map's order exactly when all applying grants agree on
      being deny or not. */
  lemma OrderIndependentIff(grants: map<string, Grant>, req: Request, now: int)
    ensures SameInAllOrders(grants, req, now) <==> ApplyingAgree(grants, req, now)
  {
    hide Applies, Start, Denies, Scan;
    if ApplyingAgree(grants, req, now) {
      forall o, o' | Enumerates(o, grants) && Enumerates(o', grants)
        ensures Scan(Listed(o, grants), req, now).allow == Scan(Listed(o', grants), req, now).allow
      {
        ScanMatches(o, grants, req, now);
        ScanMatches(o', grants, req, now);
      }
    }
    if SameInAllOrders(grants, req, now) {
      forall a, b | a in grants && b in grants && Applies(grants[a], req, now) && Applies(grants[b], req, now)
        ensures Denies(grants[a]) <==> Denies(grants[b])
      {
        var o := ScanCanMatch(grants, req, now, a);
        var o' := ScanCanMatch(grants, req, now, b);
      }
    }
  }

  /** The service's loop over the map can decide exactly what a scan in some order decides. */
  lemma PossibleIffSomeOrder(grants: map<string, Grant>, req: Request, now: int, d: Decision)
    ensures Possible(grants, req, now, d) <==>
            exists order :: Enumerates(order, grants) && d == Scan(Listed(order, grants), req, now)
  {
    hide Applies, Start;
    var any := AnyOrder(grants.Keys);
    assert Enumerates(any, grants);
    ScanMatches(any, grants, req, now);
    if Possible(grants, req, now, d) && Start(req).action != "" && SomeApplies(grants, req, now) {
      var id :| id in grants && Applies(grants[id], req, now) && d == Matched(Start(req), grants[id]);
      var order := ScanCanMatch(grants, req, now, id);
    }
    if order :| Enumerates(order, grants) && d == Scan(Listed(order, grants), req, now) {
      ScanMatches(order, grants, req, now);
      StartMatchesNothing(req);
    }
  }
}

/** Object, group and action patterns. */
module GrantPatterns {
  import opened Grants
  import opened Text

  lemma PrefixMatchEnds(p: string, s: string)
    requires PrefixMatch(p, s)
    ensures |p| >= 2 && p[|p| - 2] == ':' && p[|p| - 1] == '*'
    ensures |s| >= |p| - 1 && s[|p| - 2] == ':'
  {
  }

  lemma PrefixMatchTransitive(p: string, q: string, o: string)
    requires PrefixMatch(p, q) && PrefixMatch(q, o)
    ensures PrefixMatch(p, o)
  {
    PrefixMatchEnds(p, q);
    PrefixMatchEnds(q, o);
    assert |p| - 1 <= |q| - 1;
    assert p[..|p| - 1] == q[..|p| - 1] == q[..|q| - 1][..|p| - 1] == o[..|q| - 1][..|p| - 1] == o[..|p| - 1];
  }

  /** Coverage is transitive: what a covered pattern matches, the covering pattern matches. */
  lemma ObjectMatchTransitive(p: string, q: string, o: string)
    requires ObjectMatch(p, q) && ObjectMatch(q, o)
    ensures ObjectMatch(p, o)
  {
    hide TrimSpace, PrefixMatch;
    var p', q', o' := TrimSpace(p), TrimSpace(q), TrimSpace(o);
    if p' != "*" && p' != q' {
      PrefixMatchEnds(p', q');
      if q' != o' {
        PrefixMatchTransitive(p', q', o');
      }
    }
  }

  /** Group paths that are not empty are partially ordered by HierarchyMatch. */
  lemma HierarchyIsPartialOrder(a: string, b: string, c: string)
    ensures GroupPath(a) != "" ==> HierarchyMatch(a, a)
    ensures HierarchyMatch(a, b) && HierarchyMatch(b, a) ==> GroupPath(a) == GroupPath(b)
    ensures HierarchyMatch(a, b) && HierarchyMatch(b, c) ==> HierarchyMatch(a, c)
  {
  }

  lemma WordMatches(p: string, action: string)
    requires Word(p)
    ensures ActionMatches(p, action) <==>
            p == action || (p == "run" && action == "use")
            || (p == "write" && action in {"create", "update", "delete", "write", "publish", "rollback"})
  {
    WordIsNormal(p);
    hide Normalize;
    assert |p| >= 2 ==> p[|p| - 2..][1] == p[|p| - 1];
  }

  predicate Words(patterns: seq<string>) {
    forall i :: 0 <= i < |patterns| ==> Word(patterns[i])
  }

  /** What a list of plain words covers. */
  lemma WordsCover(patterns: seq<string>, action: string)
    requires Words(patterns)
    ensures Covers(patterns, action) <==>
            action in patterns || ("run" in patterns && action == "use")
            || ("write" in patterns && action in {"create", "update", "delete", "write", "publish", "rollback"})
  {
    hide ActionMatches, Word;
    forall i | 0 <= i < |patterns| { WordMatches(patterns[i], action); }
    if action in patterns {
      var i :| 0 <= i < |patterns| && patterns[i] == action;
      assert ActionMatches(patterns[i], action);
    }
    if "run" in patterns && action == "use" {
      var i :| 0 <= i < |patterns| && patterns[i] == "run";
      assert ActionMatches(patterns[i], action);
    }
    if "write" in patterns && action in {"create", "update", "delete", "write", "publish", "rollback"} {
      var i :| 0 <= i < |patterns| && patterns[i] == "write";
      assert ActionMatches(patterns[i], action);
    }
  }

  predicate IsAdmin(role: string) { Normalize(role) in {"admin", "owner"} }

  predicate IsRunner(role: string) { Normalize(role) in {"runner", "executor"} }

  lemma RoleWords(role: string)
    requires !IsAdmin(role)
    ensures Words(RoleActions(role))
  {
    hide Normalize;
  }

  lemma RoleRuns(role: string)
    requires !IsAdmin(role)
    ensures "run" in RoleActions(role) <==> IsRunner(role)
  {
    hide Normalize;
  }

  lemma RoleWrites(role: string, action: string)
    requires "write" in RoleActions(role) && action in {"create", "update", "delete", "write", "publish", "rollback"}
    ensures action in RoleActions(role)
  {
  }

  /** A role covers the actions it lists and no others, except that an admin covers all and
      that whoever may run may also use. */
  lemma RoleCoverage(role: string, action: string)
    ensures Covers(RoleActions(role), action) <==>
            IsAdmin(role) || action in RoleActions(role) || (IsRunner(role) && action == "use")
  {
    hide Covers, Words, IsRunner;
    if IsAdmin(role) {
      assert RoleActions(role) == ["*"];
      StarCovers(action);
    } else {
      hide RoleActions;
      RoleWords(role);
      RoleRuns(role);
      WordsCover(RoleActions(role), action);
      if "write" in RoleActions(role) && action in {"create", "update", "delete", "write", "publish", "rollback"} {
        RoleWrites(role, action);
      }
    }
  }

  /** A covered list of patterns covers no more than a list that starts with it. */
  lemma CoversLonger(shorter: seq<string>, longer: seq<string>, action: string)
    requires shorter <= longer && Covers(shorter, action)
    ensures Covers(longer, action)
  {
  }

  /** Whatever a viewer may do an editor may do, and whatever an editor may do an admin may do. */
  lemma RolesAreNested(viewer: string, editor: string, admin: string, action: string)
    requires Normalize(viewer) in {"viewer", "reader"}
    requires Normalize(editor) in {"editor", "developer", "contributor"}
    requires Normalize(admin) in {"admin", "owner"}
    ensures Covers(RoleActions(viewer), action) ==> Covers(RoleActions(editor), action)
    ensures Covers(RoleActions(editor), action) ==> Covers(RoleActions(admin), action)
  {
    hide Normalize, Covers;
    assert RoleActions(admin) == ["*"] && RoleActions(viewer) <= RoleActions(editor);
    if Covers(RoleActions(viewer), action) {
      CoversLonger(RoleActions(viewer), RoleActions(editor), action);
    }
    StarCovers(action);
  }

  lemma StarCovers(action: string)
    ensures Covers(["*"], action)
  {
    TrimKeepsTrimmed("*", GO_SPACE);
    assert ActionMatches(["*"][0], action);
  }
}

/** Saving a grant and checking it. */
module GrantSaving {
  import opened GrantOrders
  import opened Grants
  import opened Text

  /** parseObject inverts printing, colons in the id included. */
  lemma ParsePrinted(app: string, typ: string, id: string)
    requires Normalize(app) == app && Normalize(typ) == typ && ':' !in app && ':' !in typ
    requires app != "" && id != "" && Trimmed(id, GO_SPACE)
    ensures TrimSpace(PrintObject(app, typ, id)) == PrintObject(app, typ, id)
    ensures ParseObject(PrintObject(app, typ, id)) == (app, typ, id)
  {
    var obj := PrintObject(app, typ, id);
    NormalizeTwice(app);
    assert obj[0] == app[0] && obj[|obj| - 1] == id[|id| - 1];
    TrimKeepsTrimmed(obj, GO_SPACE);
    assert obj == app + [':'] + (typ + [':'] + id);
    SplitField(app, typ + [':'] + id, ':');
    SplitField(typ, id, ':');
    JoinSplit(id, ':');
    assert ([app] + ([typ] + Split(id, ':')))[2..] == Split(id, ':');
  }

  /** A user grant that allows, names a resource of a colon-free app and type, and has no
      object of its own. */
  predicate UserAllow(g: Grant) {
    && Normalize(g.subjectType) == "user" && TrimSpace(g.subjectId) != ""
    && Normalize(DefaultString(g.effect, "allow")) != "deny"
    && TrimSpace(g.obj) == "" && ':' !in Normalize(g.app)
    && Normalize(g.resourceType) != "" && ':' !in Normalize(g.resourceType)
    && TrimSpace(g.resourceId) != ""
  }

  /** A request by the grant's user for an object, naming no other app. */
  predicate AsksFor(req: Request, g: Grant) {
    && TrimSpace(req.obj) == g.obj
    && (Normalize(req.app) == "" || Normalize(req.app) == g.app)
    && (exists i :: 0 <= i < |CandidateSubjects(req)| && TrimSpace(CandidateSubjects(req)[i]) == g.subjectId)
  }

  lemma PreparedPrints(g: Grant, freshId: string, now: int)
    requires UserAllow(g)
    ensures var s := Prepared(g, freshId, now);
            && s.obj == PrintObject(s.app, s.resourceType, s.resourceId)
            && ParseObject(s.obj) == (s.app, s.resourceType, s.resourceId) && TrimSpace(s.obj) == s.obj
            && s.app != "" && !Denies(s) && s.expiresAt == g.expiresAt
  {
    var s := Prepared(g, freshId, now);
    NormalizeTwice(g.app);
    NormalizeTwice(g.resourceType);
    NormalizeTwice(DefaultString(g.effect, "allow"));
    TrimIsTrimmed(g.resourceId, GO_SPACE);
    AihubIsNormal();
    hide Normalize;
    ParsePrinted(s.app, s.resourceType, s.resourceId);
  }

  lemma AihubIsNormal()
    ensures Normalize("aihub") == "aihub" && ':' !in "aihub"
  {
    TrimKeepsTrimmed("aihub", GO_SPACE);
  }

  /** The request's app, if any, is the grant's; with none given it may come from the object. */
  lemma StartTargetsSaved(s: Grant, req: Request)
    requires s.obj == PrintObject(s.app, s.resourceType, s.resourceId) && s.obj != "" && TrimSpace(s.obj) == s.obj
    requires ParseObject(s.obj) == (s.app, s.resourceType, s.resourceId) && AsksFor(req, s)
    ensures var d := Start(req); TargetsResource(s, d.app, d.obj, d.resourceType, d.resourceId)
  {
    hide Normalize, TrimSpace, ParseObject;
  }

  /** A saved user grant applies to each action its role or its list covers. */
  lemma SavedApplies(g: Grant, freshId: string, saved: int, req: Request, now: int)
    requires UserAllow(g) && !Expired(g, now)
    requires var s := Prepared(g, freshId, saved); AsksFor(req, s) && AllowsAction(s, Normalize(req.action))
    ensures Applies(Prepared(g, freshId, saved), req, now)
  {
    var s := Prepared(g, freshId, saved);
    PreparedPrints(g, freshId, saved);
    NormalizeTwice(g.subjectType);
    TrimTwice(g.subjectId, GO_SPACE);
    PreparedSubject(g, freshId, saved);
    SubjectTargeted(s, req);
    hide Normalize, Trim, Prepared, PrintObject, AllowsAction, TargetsSubject, TargetsResource, Start;
    StartTargetsSaved(s, req);
    StartAction(req);
  }

  lemma PreparedSubject(g: Grant, freshId: string, now: int)
    requires Normalize(g.subjectType) == "user"
    ensures Prepared(g, freshId, now).subjectType == Normalize(g.subjectType)
    ensures Prepared(g, freshId, now).subjectId == TrimSpace(g.subjectId)
  {
  }

  lemma SubjectTargeted(g: Grant, req: Request)
    requires Normalize(g.subjectType) == "user" && g.subjectId != "" && TrimSpace(g.subjectId) == g.subjectId
    requires exists i :: 0 <= i < |CandidateSubjects(req)| && TrimSpace(CandidateSubjects(req)[i]) == g.subjectId
    ensures TargetsSubject(g, req)
  {
    hide TrimSpace, Normalize, CandidateSubjects;
  }

  /** Save then check: with no applicable deny, every order of the stored grants allows each
      action the saved grant's role or action list covers. */
  lemma SaveThenCheck(grants: map<string, Grant>, g: Grant, freshId: string, saved: int, req: Request, now: int, order: seq<string>)
    requires UserAllow(g) && !Expired(g, now)
    requires var s := Prepared(g, freshId, saved); AsksFor(req, s) && AllowsAction(s, Normalize(req.action))
    requires var s := Prepared(g, freshId, saved); var after := grants[s.id := s];
             Enumerates(order, after) && forall id :: id in after && Applies(after[id], req, now) ==> !Denies(after[id])
    ensures var s := Prepared(g, freshId, saved);
            Scan(Listed(order, grants[s.id := s]), req, now).allow
  {
    var s := Prepared(g, freshId, saved);
    SavedApplies(g, freshId, saved, req, now);
    hide Applies, Prepared, Start, Denies;
    var after := grants[s.id := s];
    assert after[s.id] == s;
    ScanMatches(order, after, req, now);
  }
}
