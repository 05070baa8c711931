/** What the built-in roles may do, in terms of the names that the seed gives them. */
module AppRoles {
  import opened AuthzService
  import opened Text
  import opened Wrappers

  /** The kinds of an application's roles. */
  predicate Kind(kind: string) {
    kind in {"admin", "editor", "viewer", "reader"}
  }

  predicate ReadAction(action: string) {
    action in {"read", "view", "list", "download", "admin:read"} || HasSuffix(action, ":read")
  }

  predicate WriteAction(action: string) {
    action in {"write", "create", "update", "delete", "publish", "rollback", "approve", "reject", "review", "run", "cancel", "retry"}
    || HasSuffix(action, ":write")
  }

  // ----- Names.

  /** A text without the separator is what stands behind the last one. */
  lemma LastField(a: string, b: string, a': string, b': string, sep: char)
    requires a + [sep] + b == a' + [sep] + b' && sep !in b && sep !in b'
    ensures a == a' && b == b'
  {
    var s, s' := a + [sep] + b, a' + [sep] + b';
    assert s[|a|] == sep && s'[|a'|] == sep;
    assert forall k :: |a| < k < |s| ==> s[k] == b[k - |a| - 1];
    assert forall k :: |a'| < k < |s'| ==> s'[k] == b'[k - |a'| - 1];
    assert |a| == |a'|;
    assert a == s[..|a|] && a' == s'[..|a'|] && b == s[|a| + 1..] && b' == s'[|a'| + 1..];
  }

  lemma KindIsWord(kind: string)
    requires Kind(kind)
    ensures Word(kind) && '_' !in kind && kind != "role"
  {
  }

  lemma WordHasNo(w: string, c: char)
    requires Word(w) && !('a' <= c <= 'z')
    ensures c !in w
  {
  }

  lemma BehindRole(a: string, b: string)
    requires "role_" + a == "role_" + b
    ensures a == b
  {
    assert a == ("role_" + a)[5..] && b == ("role_" + b)[5..];
  }

  /** The first two of the five names that RoleMatchesApp knows. */
  lemma OwnNames(b: string, kind: string, app: string, suffix: string)
    requires Kind(kind) && Kind(suffix)
    ensures "role_" + b + "_" + kind == app + "_" + suffix <==> kind == suffix && app == "role_" + b
    ensures "role_" + b + "_" + kind == "role_" + app + "_" + suffix <==> kind == suffix && app == b
  {
    KindIsWord(kind);
    KindIsWord(suffix);
    hide Kind, Word;
    var role := "role_" + b + "_" + kind;
    assert role == ("role_" + b) + ['_'] + kind;
    if role == app + "_" + suffix { LastField("role_" + b, kind, app, suffix, '_'); }
    if role == "role_" + app + "_" + suffix {
      LastField("role_" + b, kind, "role_" + app, suffix, '_');
      BehindRole(b, app);
    }
  }

  /** The other three. */
  lemma OtherNames(b: string, kind: string, app: string, suffix: string)
    requires Kind(kind) && Kind(suffix)
    ensures var role := "role_" + b + "_" + kind;
      role != app + "_" + suffix + "_role" && role != "app_" + suffix && (role == "role_app_" + suffix <==> kind == suffix && b == "app")
  {
    KindIsWord(kind);
    KindIsWord(suffix);
    hide Kind, Word;
    var role := "role_" + b + "_" + kind;
    assert role == ("role_" + b) + ['_'] + kind && role[0] == 'r' && ("app_" + suffix)[0] == 'a';
    assert '_' !in "role";
    if role == app + "_" + suffix + "_role" {
      assert role == (app + "_" + suffix) + ['_'] + "role";
      LastField("role_" + b, kind, app + "_" + suffix, "role", '_');
    }
    assert "role_app_" + suffix == "role_" + "app" + ['_'] + suffix;
    if role == "role_app_" + suffix {
      LastField("role_" + b, kind, "role_" + "app", suffix, '_');
      BehindRole(b, "app");
    }
  }

  /** Of the five names that RoleMatchesApp knows, which may a seeded role's name be. */
  lemma MatchesIff(b: string, kind: string, app: string, suffix: string)
    requires Kind(kind) && Kind(suffix)
    ensures RoleMatchesApp("role_" + b + "_" + kind, app, suffix) <==>
            kind == suffix && (app == b || app == "role_" + b || b == "app")
  {
    hide Kind;
    OwnNames(b, kind, app, suffix);
    OtherNames(b, kind, app, suffix);
  }

  // ----- "admin" within a name.

  lemma AtShift(s: string, i: nat, part: string)
    requires s != ""
    ensures At(s, i + 1, part) <==> At(s[1..], i, part)
  {
    if i + 1 + |part| <= |s| {
      assert s[i + 1..i + 1 + |part|] == s[1..][i..i + |part|];
    }
  }

  lemma {:induction false} ContainsAt(s: string, part: string)
    ensures Contains(s, part) <==> exists i: nat :: At(s, i, part)
  {
    assert At(s, 0, part) <==> part <= s;
    if s != "" {
      ContainsAt(s[1..], part);
      hide At;
      if i: nat :| At(s[1..], i, part) { AtShift(s, i, part); }
      if i: nat :| i > 0 && At(s, i, part) { AtShift(s, i - 1, part); }
    }
  }

  lemma AtBeside(a: string, b: string, sep: char, part: string, i: nat)
    requires At(a + [sep] + b, i, part) && sep !in part
    ensures At(a, i, part) || (i > |a| && At(b, i - |a| - 1, part))
  {
    var s := a + [sep] + b;
    assert s[|a|] == sep;
    if i <= |a| < i + |part| {
      AtChar(s, i, part, |a| - i);
    } else if i > |a| {
      assert s[i..i + |part|] == b[i - |a| - 1..i - |a| - 1 + |part|];
    } else {
      assert s[i..i + |part|] == a[i..i + |part|];
    }
  }

  /** A part without the separator lies on one side of it. */
  lemma ContainsBeside(a: string, b: string, sep: char, part: string)
    requires sep !in part
    ensures Contains(a + [sep] + b, part) <==> Contains(a, part) || Contains(b, part)
  {
    var s := a + [sep] + b;
    hide Contains;
    ContainsAt(s, part);
    ContainsAt(a, part);
    ContainsAt(b, part);
    if i: nat :| At(s, i, part) { AtBeside(a, b, sep, part, i); }
    if i: nat :| At(a, i, part) { assert s[i..i + |part|] == a[i..i + |part|] && At(s, i, part); }
    if i: nat :| At(b, i, part) {
      assert s[|a| + 1 + i..|a| + 1 + i + |part|] == b[i..i + |part|];
      assert At(s, |a| + 1 + i, part);
    }
  }

  lemma NamesWithoutAdmin()
    ensures !Contains("role", "admin") && !Contains("editor", "admin") && !Contains("viewer", "admin") && !Contains("reader", "admin")
    ensures Contains("admin", "admin")
  {
    forall s: string | s in {"role", "editor", "viewer", "reader"} ensures !Contains(s, "admin") {
      ContainsAt(s, "admin");
      forall i: nat | At(s, i, "admin") ensures false {
        AtChar(s, i, "admin", 0);
      }
    }
  }

  lemma ContainsAdminIff(b: string, kind: string)
    requires Kind(kind)
    ensures Contains("role_" + b + "_" + kind, "admin") <==> kind == "admin" || Contains(b, "admin")
  {
    NamesWithoutAdmin();
    hide Contains;
    assert '_' !in "admin";
    assert "role_" + b == "role" + ['_'] + b;
    assert "role_" + b + "_" + kind == ("role_" + b) + ['_'] + kind;
    ContainsBeside("role_" + b, kind, '_', "admin");
    ContainsBeside("role", b, '_', "admin");
  }

  lemma PlatformIff(b: string, kind: string)
    requires Word(b) && Kind(kind)
    ensures IsPlatformAdminRole("role_" + b + "_" + kind) <==> kind == "admin" && b in {"platform", "super", "aisphere"}
  {
    KindIsWord(kind);
    WordHasNo(b, '_');
    hide Word, Kind;
    var role := "role_" + b + "_" + kind;
    assert role[0] == 'r';
    PlatformNames(role);
    hide IsPlatformAdminRole;
    if role == "role" + "_" + "admin" { FiveOn("role", "admin", b, kind); }
    if role == "role_platform" + "_" + "admin" { FiveOn("role_platform", "admin", b, kind); }
    if role == "role_super" + "_" + "admin" { FiveOn("role_super", "admin", b, kind); }
    if role == "role_aisphere" + "_" + "admin" { FiveOn("role_aisphere", "admin", b, kind); }
    if role == "role_platform_super" + "_" + "admin" { FiveOn("role_platform_super", "admin", b, kind); }
    assert "role_platform_super"[13] == '_' && "role_platform"[5..] == "platform";
    assert "role_super"[5..] == "super" && "role_aisphere"[5..] == "aisphere";
    assert |b| > 8 ==> ("role_" + b)[13] == b[8];
    if b == "platform" { assert "role_" + b == "role_platform"; }
    if b == "super" { assert "role_" + b == "role_super"; }
    if b == "aisphere" { assert "role_" + b == "role_aisphere"; }
  }

  lemma PlatformNames(role: string)
    requires role != "" && role[0] == 'r'
    ensures IsPlatformAdminRole(role) <==>
      || role == "role" + "_" + "admin" || role == "role_platform" + "_" + "admin" || role == "role_super" + "_" + "admin"
      || role == "role_aisphere" + "_" + "admin" || role == "role_platform_super" + "_" + "admin"
  {
    assert "role" + "_" + "admin" == "role_admin" && "role_platform" + "_" + "admin" == "role_platform_admin";
    assert "role_super" + "_" + "admin" == "role_super_admin" && "role_aisphere" + "_" + "admin" == "role_aisphere_admin";
    assert "role_platform_super" + "_" + "admin" == "role_platform_super_admin";
  }

  lemma FiveOn(front: string, last: string, b: string, kind: string)
    requires front + "_" + last == "role_" + b + "_" + kind && '_' !in last && '_' !in kind
    ensures last == kind && front == "role_" + b && |front| >= 5 && b == front[5..]
  {
    LastField(front, last, "role_" + b, kind, '_');
    assert b == ("role_" + b)[5..];
  }

  // ----- What a seeded role may do.

  /** The exact rights of an application's role: what its own application's object and action are.
      An admin role of any application covers every object named after the one asked for. */
  predicate MayDo(b: string, kind: string, app: string, obj: string, action: string) {
    var own := app == b || app == "role_" + b || b == "app";
    if kind == "admin" then b in {"platform", "super", "aisphere"} || own || app + ":" <= obj
    else if kind == "editor" then own && (ReadAction(action) || WriteAction(action))
    else own && ReadAction(action)
  }

  lemma RoleAllowsIff(b: string, kind: string, app: string, obj: string, action: string)
    requires Word(b) && Kind(kind) && !Contains(b, "admin")
    ensures RoleAllows("role_" + b + "_" + kind, app, obj, action) <==> MayDo(b, kind, app, obj, action)
  {
    PlatformIff(b, kind);
    ContainsAdminIff(b, kind);
    MatchesIff(b, kind, app, "admin");
    MatchesIff(b, kind, app, "editor");
    MatchesIff(b, kind, app, "viewer");
    MatchesIff(b, kind, app, "reader");
    hide Word, Contains, RoleMatchesApp, IsPlatformAdminRole;
  }

  lemma {:induction false} ReplaceNothing(s: string, c: char, sub: string)
    requires c !in s
    ensures ReplaceChar(s, c, sub) == s
  {
    if s != "" { ReplaceNothing(s[1..], c, sub); }
  }

  lemma {:induction false} SplitLast(a: string, b: string, sep: char)
    requires sep !in b
    ensures var parts := Split(a + [sep] + b, sep); |parts| >= 2 && parts[|parts| - 1] == b
  {
    var s := a + [sep] + b;
    if a == "" {
      assert s[1..] == b;
      SplitNone(b, sep);
    } else {
      assert s[1..] == a[1..] + [sep] + b;
      SplitLast(a[1..], b, sep);
    }
  }

  lemma {:induction false} SplitNone(s: string, sep: char)
    requires sep !in s
    ensures Split(s, sep) == [s]
  {
    if s != "" {
      SplitNone(s[1..], sep);
      assert [s[0]] + s[1..] == s;
    }
  }

  lemma TrimKeepsEnd(a: string, b: string)
    requires b != "" && b[0] !in GO_SPACE && b[|b| - 1] !in GO_SPACE
    ensures exists front :: TrimSpace(a + b) == front + b
  {
    TrimLeftKeepsEnd(a, b, GO_SPACE);
    hide GO_SPACE;
    var front :| TrimLeft(a + b, GO_SPACE) == front + b;
    assert TrimSpace(a + b) == front + b;
  }

  lemma {:induction false} TrimLeftKeepsEnd(a: string, b: string, cut: set<char>)
    requires b != "" && b[0] !in cut
    ensures exists front :: TrimLeft(a + b, cut) == front + b
  {
    if a == "" {
      assert a + b == b && TrimLeft(b, cut) == "" + b;
    } else if a[0] in cut {
      assert (a + b)[1..] == a[1..] + b;
      TrimLeftKeepsEnd(a[1..], b, cut);
    } else {
      assert TrimLeft(a + b, cut) == a + b;
    }
  }

  /** A name that normalizing leaves alone. */
  predicate PlainName(s: string) {
    s != "" && forall c :: c in s ==> c == '_' || 'a' <= c <= 'z'
  }

  lemma NormalizeKeepsEnd(org: string, end: string) returns (front: string)
    requires end != "" && Lower(end) == end && end[0] !in GO_SPACE && end[|end| - 1] !in GO_SPACE
    ensures Normalize(org + end) == front + end
  {
    TrimKeepsEnd(org, end);
    hide TrimSpace, Lower;
    var kept :| TrimSpace(org + end) == kept + end;
    LowerAppend(kept, end);
    front := Lower(kept);
  }

  lemma LastPartIs(low: string, name: string)
    requires '/' !in name
    ensures LastPart(low + "/" + name) == name
  {
    assert low + "/" + name == low + ['/'] + name;
    SplitLast(low, name, '/');
    hide Split;
    assert (low + "/" + name)[|low|] == '/';
  }

  lemma PlainHasNoSlash(name: string)
    requires PlainName(name)
    ensures '/' !in name
    ensures var end := "/" + name;
            Lower(end) == end && end[0] !in GO_SPACE && end[|end| - 1] !in GO_SPACE && '-' !in end
  {
    PlainIsLower("/" + name);
  }

  lemma RoleBehind(front: string, name: string)
    requires '/' !in name && '-' !in "/" + name
    ensures LastPart(ReplaceChar(front + ("/" + name), '-', "_")) == name
  {
    hide LastPart;
    ReplaceCharAppend(front, "/" + name, '-', "_");
    ReplaceNothing("/" + name, '-', "_");
    hide ReplaceChar;
    var low := ReplaceChar(front, '-', "_");
    assert low + ("/" + name) == low + "/" + name;
    LastPartIs(low, name);
  }

  /** The organization before the last slash means nothing, whatever it holds. */
  lemma ScopedRole(org: string, name: string)
    requires PlainName(name)
    ensures NormalizeRole(org + "/" + name) == name
  {
    PlainHasNoSlash(name);
    hide Normalize, PlainName, Lower, GO_SPACE, LastPart, ReplaceChar;
    assert org + "/" + name == org + ("/" + name);
    var front := NormalizeKeepsEnd(org, "/" + name);
    RoleBehind(front, name);
  }

  lemma LowerAppend(a: string, b: string)
    ensures Lower(a + b) == Lower(a) + Lower(b)
  {
  }

  lemma PlainIsLower(s: string)
    requires s != "" && forall c :: c in s ==> c == '/' || c == '_' || 'a' <= c <= 'z'
    ensures Lower(s) == s && s[0] !in GO_SPACE && s[|s| - 1] !in GO_SPACE && '-' !in s
  {
    assert s[0] in s && s[|s| - 1] in s;
    forall i | 0 <= i < |s| ensures LowerChar(s[i]) == s[i] { assert s[i] in s; }
  }

  lemma RoleNameIsPlain(b: string, kind: string)
    requires Word(b) && Kind(kind)
    ensures PlainName("role_" + b + "_" + kind)
  {
    KindIsWord(kind);
    forall c | c in "role_" + b + "_" + kind ensures c == '_' || 'a' <= c <= 'z' {
      assert c in "role_" || c in b || c == '_' || c in kind;
    }
  }

  /** A principal whose only role is a seeded one, under whatever organization, is let through
      by the built-in layer exactly for what the role may do.  Blanks and capitals in app, object
      and action mean nothing, and a blank app is aihub. */
  lemma SeededRoleAllowsIff(p: Principal, org: string, b: string, kind: string, app: string, obj: string, action: string)
    requires Word(b) && Kind(kind) && !Contains(b, "admin") && p.roles == [org + "/" + ("role_" + b + "_" + kind)]
    ensures BuiltinRole(Some(p), app, obj, action)
         == if MayDo(b, kind, if Normalize(app) == "" then "aihub" else Normalize(app), Normalize(obj), Normalize(action))
            then Some("role_" + b + "_" + kind) else None
  {
    RoleNameIsPlain(b, kind);
    ScopedRole(org, "role_" + b + "_" + kind);
    RoleAllowsIff(b, kind, RoleApp(app), Normalize(obj), Normalize(action));
    hide RoleAllows, NormalizeRole, MayDo, Normalize, Word, Contains;
    assert p.roles[1..] == [] && FirstAllowing([], RoleApp(app), Normalize(obj), Normalize(action)).None?;
  }
}
