/** What stands in the tables after the seed, column by column and name by name, whatever they
    held before. */
module SeedRows {
  import opened SeedIdempotence
  import opened SeedProgram
  import opened SeedResults
  import opened SeedTables
  import opened Wrappers

  // ----- One statement among others that leave a row alone.

  lemma {:induction false} RowAfterMiss(program: seq<Stmt>, t: TableName, key: Key, o: Option<Row>)
    requires forall i :: 0 <= i < |program| ==> !Hits(program[i], t, key)
    ensures RowAfter(program, t, key, o) == o
  {
    if program != [] {
      assert !Hits(program[0], t, key);
      RowAfterMiss(program[1..], t, key, o);
    }
  }

  lemma {:induction false} RowAfterOneHit(program: seq<Stmt>, t: TableName, key: Key, o: Option<Row>, k: nat)
    requires k < |program| && forall i :: 0 <= i < |program| && i != k ==> !Hits(program[i], t, key)
    ensures RowAfter(program, t, key, o) == RowStep(program[k], t, key, o)
  {
    hide Hits, RowStep;
    if k == 0 {
      RowAfterMiss(program[1..], t, key, RowStep(program[0], t, key, o));
    } else {
      MissedStep(program[0], t, key, o);
      RowAfterOneHit(program[1..], t, key, o, k - 1);
    }
  }

  lemma MissedStep(s: Stmt, t: TableName, key: Key, o: Option<Row>)
    requires !Hits(s, t, key)
    ensures RowStep(s, t, key, o) == o
  {
  }

  lemma {:induction false} RoleUpsertsAt(args: Args, roles: seq<RoleSpec>)
    ensures |RoleUpserts(args, roles)| == |roles|
    ensures forall i :: 0 <= i < |roles| ==> RoleUpserts(args, roles)[i] == RoleUpsert(args, roles[i])
  {
    hide RoleUpsert;
    if roles != [] { RoleUpsertsAt(args, roles[..|roles| - 1]); }
  }

  lemma {:induction false} PermissionUpsertsAt(args: Args, specs: seq<PermissionSpec>)
    ensures |PermissionUpserts(args, specs)| == |specs|
    ensures forall i :: 0 <= i < |specs| ==> PermissionUpserts(args, specs)[i] == PermissionUpsert(args, specs[i])
  {
    hide PermissionUpsert;
    if specs != [] { PermissionUpsertsAt(args, specs[..|specs| - 1]); }
  }

  /** A row holds given values, and its other columns are those it had before, if it was there. */
  ghost predicate Holds(row: Row, values: Row, before: Option<Row>) {
    forall c: string ::
      if c in values then c in row && row[c] == values[c]
      else if before.Some? && c in before.value then c in row && row[c] == before.value[c]
      else c !in row
  }

  /** An upsert that updates all that it inserts leaves its values, whatever was there. */
  lemma UpsertHolds(t: TableName, key: Key, values: Row, o: Option<Row>)
    ensures var after := RowStep(Upsert(t, key, values, values.Keys), t, key, o);
            after.Some? && Holds(after.value, values, o)
  {
  }

  // ----- Permissions.

  /** A seeded permission is enabled, allows, and names its own users, roles, resources and
      actions; a column that the seed does not write is kept. */
  lemma SeededPermission(args: Args, roles: seq<RoleSpec>, specs: seq<PermissionSpec>, db: Db, i: nat)
    requires DistinctNames(specs) && i < |specs|
    requires args.cleanLegacy ==> specs[i].name !in {"perm_skillhub_admin", "perm_skillhub_editor", "perm_skillhub_viewer"}
    ensures var p, key := specs[i], (args.org, specs[i].name);
            var final := Run(Program(args, roles, specs), db).permission;
      && key in final
      && Holds(final[key],
               map["created_time" := args.createdTime, "display_name" := p.display, "description" := p.display,
                   "users" := JsonList(p.users), "groups" := "[]", "roles" := JsonList(p.roles), "domains" := "[]",
                   "model" := args.org + "/" + args.model, "adapter" := "", "resource_type" := "Application",
                   "resources" := JsonList(p.resources), "actions" := JsonList(p.actions), "effect" := "Allow",
                   "is_enabled" := "1", "submitter" := args.adminUser, "approver" := args.adminUser,
                   "approve_time" := args.createdTime, "state" := "Approved"],
               Find(db.permission, key))
  {
    var p, key, upserts := specs[i], (args.org, specs[i].name), PermissionUpserts(args, specs);
    var before := Find(RunTable(Clean(args), Permission, db.permission), key);
    FinalPermission(args, roles, specs, db, key);
    PermissionUpsertsAt(args, specs);
    CleanPermissionAt(args, db.permission, key);
    OnePermission(args, p, before);
    hide Program, Run, Clean, RunTable, PermissionUpsert, Holds;
    forall k | 0 <= k < |specs| && k != i ensures !Hits(upserts[k], Permission, key) {
      PermissionKey(args, specs[k]);
    }
    RowAfterOneHit(upserts, Permission, key, before, i);
  }

  lemma PermissionKey(args: Args, p: PermissionSpec)
    ensures var s := PermissionUpsert(args, p); s.Upsert? && s.table == Permission && s.key == (args.org, p.name)
  {
  }

  lemma OnePermission(args: Args, p: PermissionSpec, o: Option<Row>)
    ensures var after := RowStep(PermissionUpsert(args, p), Permission, (args.org, p.name), o);
      after.Some? && Holds(after.value,
               map["created_time" := args.createdTime, "display_name" := p.display, "description" := p.display,
                   "users" := JsonList(p.users), "groups" := "[]", "roles" := JsonList(p.roles), "domains" := "[]",
                   "model" := args.org + "/" + args.model, "adapter" := "", "resource_type" := "Application",
                   "resources" := JsonList(p.resources), "actions" := JsonList(p.actions), "effect" := "Allow",
                   "is_enabled" := "1", "submitter" := args.adminUser, "approver" := args.adminUser,
                   "approve_time" := args.createdTime, "state" := "Approved"], o)
  {
    EmptyJson();
    var s := PermissionUpsert(args, p);
    UpsertHolds(Permission, (args.org, p.name), s.values, o);
    hide JsonList, RowStep, Holds;
  }

  lemma EmptyJson()
    ensures JsonList([]) == "[]"
  {
  }

  lemma FinalPermission(args: Args, roles: seq<RoleSpec>, specs: seq<PermissionSpec>, db: Db, key: Key)
    ensures Find(Run(Program(args, roles, specs), db).permission, key)
         == RowAfter(PermissionUpserts(args, specs), Permission, key, Find(RunTable(Clean(args), Permission, db.permission), key))
  {
    hide Program, Clean, RunTable;
    RunByTable(Program(args, roles, specs), db);
    RolesAndPermissionsByParts(args, roles, specs, Permission, db.permission);
    PermissionUpsertsShape(args, specs);
    AllUpsertsTouch(PermissionUpserts(args, specs), Permission, Permission);
    FindAfter(PermissionUpserts(args, specs), Permission, RunTable(Clean(args), Permission, db.permission), key);
  }

  predicate LegacyPermission(args: Args, key: Key) {
    args.cleanLegacy && key.0 == args.org && key.1 in {"perm_skillhub_admin", "perm_skillhub_editor", "perm_skillhub_viewer"}
  }

  lemma CleanPermissionAt(args: Args, table: Table, key: Key)
    ensures Find(RunTable(Clean(args), Permission, table), key) == if LegacyPermission(args, key) then None else Find(table, key)
  {
    CleanPermissions(args, table);
    DeleteKeysAt(table, args.org, LEGACY_PERMISSIONS, key);
    hide RunTable, Clean;
  }

  /** Of the permissions that the seed does not write, the organization's three SkillHub ones go
      with cleaning on; every other row, in whatever organization, is left as it is. */
  lemma OtherPermissions(args: Args, roles: seq<RoleSpec>, specs: seq<PermissionSpec>, db: Db, key: Key)
    requires key.0 != args.org || forall i :: 0 <= i < |specs| ==> specs[i].name != key.1
    ensures Find(Run(Program(args, roles, specs), db).permission, key)
         == if LegacyPermission(args, key) then None else Find(db.permission, key)
  {
    FinalPermission(args, roles, specs, db, key);
    CleanPermissionAt(args, db.permission, key);
    PermissionUpsertsAt(args, specs);
    hide Program, Run, Clean, RunTable, PermissionUpsert;
    forall k | 0 <= k < |specs| ensures !Hits(PermissionUpserts(args, specs)[k], Permission, key) {
      PermissionKey(args, specs[k]);
    }
    RowAfterMiss(PermissionUpserts(args, specs), Permission, key, Find(RunTable(Clean(args), Permission, db.permission), key));
  }

  // ----- Roles.

  /** The values that a seeded role ends with, apart from its users. */
  ghost predicate RoleRow(args: Args, role: RoleSpec, row: Row) {
    && "display_name" in row && row["display_name"] == role.display
    && "description" in row && row["description"] == role.desc
    && "created_time" in row && row["created_time"] == args.createdTime
    && "groups" in row && row["groups"] == "[]" && "roles" in row && row["roles"] == "[]"
    && "domains" in row && row["domains"] == "[]" && "is_enabled" in row && row["is_enabled"] == "1"
  }

  lemma OneRole(args: Args, role: RoleSpec, o: Option<Row>)
    ensures var after := RowStep(RoleUpsert(args, role), Role, (args.org, role.name), o);
            after.Some? && RoleRow(args, role, after.value)
  {
    EmptyJson();
    var s, columns := RoleUpsert(args, role),
                      {"created_time", "display_name", "description", "groups", "roles", "domains", "is_enabled"};
    assert columns <= s.update && columns <= s.values.Keys;
    hide JsonList, Binds;
  }

  /** A seeded role ends with its own names, enabled and without groups, subroles or domains. */
  lemma SeededRole(args: Args, roles: seq<RoleSpec>, specs: seq<PermissionSpec>, db: Db, i: nat)
    requires i < |roles| && forall j, k :: 0 <= j < k < |roles| ==> roles[j].name != roles[k].name
    ensures var key, final := (args.org, roles[i].name), Run(Program(args, roles, specs), db).role;
            key in final && RoleRow(args, roles[i], final[key])
  {
    var key, upserts := (args.org, roles[i].name), RoleUpserts(args, roles);
    var before := Find(RunTable(Clean(args), Role, db.role), key);
    FinalRole(args, roles, specs, db, key);
    RoleUpsertsAt(args, roles);
    OneRole(args, roles[i], before);
    hide Program, Run, Clean, RunTable, RoleUpsert, RoleRow;
    forall k | 0 <= k < |roles| && k != i ensures !Hits(upserts[k], Role, key) {
      RoleUpsertKey(args, roles[k]);
    }
    RowAfterOneHit(upserts, Role, key, before, i);
  }

  // ----- Organization, application, admin user and model.

  /** A table of which the program upserts one row: that row holds the values given, and every
      other row is left as it is. */
  ghost predicate OneRowWritten(table: Table, final: Table, key: Key, values: Row) {
    && key in final && Holds(final[key], values, Find(table, key))
    && forall k :: k != key ==> Find(final, k) == Find(table, k)
  }

  lemma PlainTableByParts(args: Args, roles: seq<RoleSpec>, specs: seq<PermissionSpec>, t: TableName, table: Table)
    requires t != Role && t != Permission
    ensures RunTable(Program(args, roles, specs), t, table) == RunTable(ModelPart(args), t, RunTable(Head(args), t, table))
  {
    hide RunTable;
    ProgramByParts(args, roles, specs, t, table);
    RoleUpsertsShape(args, roles);
    PermissionUpsertsShape(args, specs);
    AllUpsertsTouch(RoleUpserts(args, roles), Role, t);
    AllUpsertsTouch(PermissionUpserts(args, specs), Permission, t);
    CleanShape(args, t);
    hide Clean, Head, ModelPart;
    var h := RunTable(Head(args), t, table);
    UntouchedRun(Clean(args), t, h);
    var m := RunTable(ModelPart(args), t, h);
    UntouchedRun(RoleUpserts(args, roles), t, m);
    UntouchedRun(PermissionUpserts(args, specs), t, m);
  }

  lemma OneUpsert(program: seq<Stmt>, t: TableName, key: Key, values: Row, table: Table, k: nat)
    requires k < |program| && program[k] == Upsert(t, key, values, values.Keys) && UpsertsOnly(program, t)
    requires forall i :: 0 <= i < |program| && i != k ==> !Touches(program[i], t)
    ensures OneRowWritten(table, RunTable(program, t, table), key, values)
  {
    hide Holds, UpsertsOnly, RunTable;
    var final := RunTable(program, t, table);
    forall key': Key ensures Find(final, key') == RowAfter(program, t, key', Find(table, key')) {
      FindAfter(program, t, table, key');
    }
    RowAfterOneHit(program, t, key, Find(table, key), k);
    UpsertHolds(t, key, values, Find(table, key));
    forall key' | key' != key ensures Find(final, key') == Find(table, key') {
      RowAfterMiss(program, t, key', Find(table, key'));
    }
  }

  /** The seed leaves the organization, the application, the model and, unless skipped, the admin
      user with the columns given for them, and no other row of these tables changed. */
  lemma SeededOwners(args: Args, roles: seq<RoleSpec>, specs: seq<PermissionSpec>, db: Db)
    ensures var final := Run(Program(args, roles, specs), db);
      && OneRowWritten(db.organization, final.organization, ("admin", args.org), args.organizationRow)
      && OneRowWritten(db.application, final.application, (args.appOwner, args.app), args.applicationRow)
      && OneRowWritten(db.model, final.model, (args.org, args.model), args.modelRow)
      && (if args.skipAdminUserCreate then final.user == db.user
          else OneRowWritten(db.user, final.user, (args.org, args.adminUser), args.userRow))
  {
    RunByTable(Program(args, roles, specs), db);
    OrganizationWritten(args, roles, specs, db.organization);
    ApplicationWritten(args, roles, specs, db.application);
    ModelWritten(args, roles, specs, db.model);
    UserWritten(args, roles, specs, db.user);
    hide Program, Run, OneRowWritten, RunTable;
  }

  lemma OrganizationWritten(args: Args, roles: seq<RoleSpec>, specs: seq<PermissionSpec>, table: Table)
    ensures OneRowWritten(table, RunTable(Program(args, roles, specs), Organization, table), ("admin", args.org), args.organizationRow)
  {
    PlainTableByParts(args, roles, specs, Organization, table);
    hide OneRowWritten, RunTable, Program;
    OneUpsert(Head(args), Organization, ("admin", args.org), args.organizationRow, table, 1);
    UntouchedRun(ModelPart(args), Organization, RunTable(Head(args), Organization, table));
  }

  lemma ApplicationWritten(args: Args, roles: seq<RoleSpec>, specs: seq<PermissionSpec>, table: Table)
    ensures OneRowWritten(table, RunTable(Program(args, roles, specs), Application, table), (args.appOwner, args.app), args.applicationRow)
  {
    PlainTableByParts(args, roles, specs, Application, table);
    hide OneRowWritten, RunTable, Program;
    OneUpsert(Head(args), Application, (args.appOwner, args.app), args.applicationRow, table, 2);
    UntouchedRun(ModelPart(args), Application, RunTable(Head(args), Application, table));
  }

  lemma ModelWritten(args: Args, roles: seq<RoleSpec>, specs: seq<PermissionSpec>, table: Table)
    ensures OneRowWritten(table, RunTable(Program(args, roles, specs), Model, table), (args.org, args.model), args.modelRow)
  {
    PlainTableByParts(args, roles, specs, Model, table);
    hide OneRowWritten, RunTable, Program;
    UntouchedRun(Head(args), Model, table);
    OneUpsert(ModelPart(args), Model, (args.org, args.model), args.modelRow, table, 0);
  }

  lemma UserWritten(args: Args, roles: seq<RoleSpec>, specs: seq<PermissionSpec>, table: Table)
    ensures var final := RunTable(Program(args, roles, specs), User, table);
            if args.skipAdminUserCreate then final == table else OneRowWritten(table, final, (args.org, args.adminUser), args.userRow)
  {
    PlainTableByParts(args, roles, specs, User, table);
    hide OneRowWritten, RunTable, Program;
    UntouchedRun(ModelPart(args), User, RunTable(Head(args), User, table));
    if args.skipAdminUserCreate {
      UntouchedRun(Head(args), User, table);
    } else {
      OneUpsert(Head(args), User, (args.org, args.adminUser), args.userRow, table, 3);
    }
  }

  // ----- Rules under no generated id.

  /** The ids of the three kinds of a role or permission in an organization. */
  function Three(org: string, stem: string): set<string> {
    {org + "/" + (stem + "admin"), org + "/" + (stem + "editor"), org + "/" + (stem + "viewer")}
  }

  /** With cleaning on, the rules of the organization's SkillHub roles and permissions go, and
      whoever's rules on resources of the SkillHub go; all others stay as often as they stood. */
  lemma OtherRules(args: Args, roles: seq<RoleSpec>, specs: seq<PermissionSpec>, db: Db, r: Rule)
    requires forall i :: 0 <= i < |specs| ==> r.v5 != args.org + "/" + specs[i].name
    ensures Run(Program(args, roles, specs), db).rules[r]
         == if args.cleanLegacy &&
               ( || r.v0 in Three(args.org, "role_skillhub_")
                 || "skillhub:" <= r.v1 || "skill:" <= r.v1 || "group:" <= r.v1
                 || r.v5 in Three(args.org, "perm_skillhub_") )
            then 0 else db.rules[r]
  {
    GeneratedRulesAreProduct(args, roles, specs, db, r);
    LegacyRuleIs(args.org, r);
    hide Program, Run, Product, LegacyRule, LegacyResource, ScopedIds;
  }

  lemma LegacyRuleIs(org: string, r: Rule)
    ensures LegacyRule(r, ScopedIds(org, LEGACY_ROLE_NAMES), ScopedIds(org, LEGACY_PERMISSIONS)) <==>
      || r.v0 in Three(org, "role_skillhub_")
      || "skillhub:" <= r.v1 || "skill:" <= r.v1 || "group:" <= r.v1
      || r.v5 in Three(org, "perm_skillhub_")
  {
    ThreeScoped(org, LEGACY_ROLE_NAMES);
    ThreeScoped(org, LEGACY_PERMISSIONS);
    assert LEGACY_ROLE_NAMES[0] == "role_skillhub_" + "admin" && LEGACY_ROLE_NAMES[1] == "role_skillhub_" + "editor" && LEGACY_ROLE_NAMES[2] == "role_skillhub_" + "viewer";
    assert LEGACY_PERMISSIONS[0] == "perm_skillhub_" + "admin" && LEGACY_PERMISSIONS[1] == "perm_skillhub_" + "editor" && LEGACY_PERMISSIONS[2] == "perm_skillhub_" + "viewer";
    hide LEGACY_ROLE_NAMES, LEGACY_ROLES, LEGACY_PERMISSIONS, ScopedId, ScopedIds;
  }

  lemma ThreeScoped(org: string, names: seq<string>)
    requires |names| == 3
    ensures forall id :: id in ScopedIds(org, names) <==> id in {org + "/" + names[0], org + "/" + names[1], org + "/" + names[2]}
  {
    var ids := ScopedIds(org, names);
    assert ids == [ids[0], ids[1], ids[2]];
  }

  // ----- The three roles that move from the SkillHub to the AIHub.

  /** The names of the renamed roles, and what the shipped list makes of them: with cleaning on
      "role_skillhub_x" is gone, and "role_aihub_x" has its own users if it existed, else those
      of "role_skillhub_x", else none, for each of the three kinds x. */
  lemma SkillHubBecomesAihub(args: Args, specs: seq<PermissionSpec>, db: Db, kind: string)
    requires args.cleanLegacy && kind in {"admin", "editor", "viewer"}
    ensures var from, to := (args.org, "role_skillhub_" + kind), (args.org, "role_aihub_" + kind);
            var final := Run(Program(args, COMMON_ROLES, specs), db).role;
      && from !in final && to in final
      && UsersOf(final[to]) == if to in db.role then UsersOf(db.role[to])
                               else if from in db.role then UsersOf(db.role[from])
                               else "[]"
  {
    var i := if kind == "admin" then 0 else if kind == "editor" then 1 else 2;
    EmptyJson();
    CommonRolesAreNotLegacy();
    CommonRolesSeedAihub(i);
    LegacyKinds(kind, i);
    assert Seeded(COMMON_ROLES, LEGACY_ROLES[i].to) by { assert COMMON_ROLES[i + 5].name == LEGACY_ROLES[i].to; }
    hide LEGACY_ROLES, COMMON_ROLES, Program, Run, JsonList;
    CleanupKeepsBindings(args, COMMON_ROLES, specs, db, i);
  }

  lemma LegacyKinds(kind: string, i: nat)
    requires (kind == "admin" && i == 0) || (kind == "editor" && i == 1) || (kind == "viewer" && i == 2)
    ensures LEGACY_ROLES[i].from == "role_skillhub_" + kind && LEGACY_ROLES[i].to == "role_aihub_" + kind && |LEGACY_ROLES| == 3
  {
  }

  // ----- Roles and permissions fit together.

  /** Permission i is that of role i, which the audit administrators share with the security ones. */
  predicate PermissionOfRole(i: nat)
    requires i < |COMMON_PERMISSIONS| && i < |COMMON_ROLES|
  {
    var own := COMMON_ROLES[i].name;
    COMMON_PERMISSIONS[i].roles == if i == 2 then [own, COMMON_ROLES[4].name] else [own]
  }

  lemma FirstFit()
    ensures |COMMON_PERMISSIONS| == 20 && |COMMON_ROLES| == 20 && forall i: nat :: i < 7 ==> PermissionOfRole(i)
  {
    hide AIHUB_RESOURCES, AIHUB_ACTIONS;
  }

  lemma NextFit()
    ensures |COMMON_PERMISSIONS| == 20 && |COMMON_ROLES| == 20 && forall i: nat :: 7 <= i < 14 ==> PermissionOfRole(i)
  {
    hide AIHUB_RESOURCES, AIHUB_ACTIONS;
  }

  lemma LastFit()
    ensures |COMMON_PERMISSIONS| == 20 && |COMMON_ROLES| == 20 && forall i: nat :: 14 <= i < 20 ==> PermissionOfRole(i)
  {
    hide AIHUB_RESOURCES, AIHUB_ACTIONS;
  }

  /** Every shipped permission names roles that the seed writes, and every shipped role has one. */
  lemma RolesHavePermissions()
    ensures |COMMON_PERMISSIONS| == |COMMON_ROLES| && forall i: nat :: i < |COMMON_ROLES| ==> PermissionOfRole(i)
    ensures forall i, role :: 0 <= i < |COMMON_PERMISSIONS| && role in COMMON_PERMISSIONS[i].roles ==> Seeded(COMMON_ROLES, role)
  {
    FirstFit();
    NextFit();
    LastFit();
    hide COMMON_ROLES, COMMON_PERMISSIONS;
    forall i, role | 0 <= i < |COMMON_PERMISSIONS| && role in COMMON_PERMISSIONS[i].roles ensures Seeded(COMMON_ROLES, role) {
      assert PermissionOfRole(i);
    }
  }
}
