/** Which arguments give a seed file that the importer reads back, and what a text that ends in
    a backslash does to it. */
module SeedReadBack {
  import opened SeedTables
  import opened SeedText
  import opened SqlStatements
  import opened SqlText
  import opened SqlWalk
  import Program = SeedProgram
  import Text

  // ----- Texts without a trailing backslash.

  predicate SafeText(text: string) {
    !EndsInBackslash(text)
  }

  /** Columns are plain words, and only `is_enabled` is written without quotes in a policy row. */
  predicate FitLayout(l: Layout) {
    && (forall t: TableName :: SimpleAll(l.Columns(t)))
    && l.numeric * (set c | c in l.Columns(Role) + l.Columns(Permission)) <= {"is_enabled"}
  }

  predicate SafeRow(l: Layout, t: TableName, row: Row, safe: bool) {
    forall i :: 0 <= i < |l.Columns(t)| ==> ReadableValue(l.ColumnValue(row, l.Columns(t)[i]), safe)
  }

  predicate SafeRows(l: Layout, args: Program.Args, safe: bool) {
    && SafeRow(l, Organization, args.organizationRow, safe) && SafeRow(l, Application, args.applicationRow, safe)
    && SafeRow(l, User, args.userRow, safe) && SafeRow(l, Model, args.modelRow, safe)
  }

  predicate SafeArgs(args: Program.Args) {
    && SafeText(args.org) && SafeText(args.app) && SafeText(args.appOwner) && SafeText(args.model)
    && SafeText(args.adminUser) && SafeText(args.createdTime)
  }

  predicate SafeRole(role: Program.RoleSpec) {
    SafeText(role.name) && SafeText(role.display) && SafeText(role.desc)
  }

  predicate SafeAll(texts: seq<string>) {
    forall i :: 0 <= i < |texts| ==> SafeText(texts[i])
  }

  predicate SafeSpec(p: Program.PermissionSpec) {
    && SafeText(p.name) && SafeText(p.display)
    && SafeAll(p.users) && SafeAll(p.roles) && SafeAll(p.resources) && SafeAll(p.actions)
  }

  predicate AllReadable(l: Layout, program: seq<Stmt>, safe: bool) {
    forall i :: 0 <= i < |program| ==> ReadableStmt(l, program[i], safe)
  }

  lemma ReadableTogether(l: Layout, a: seq<Stmt>, b: seq<Stmt>, safe: bool)
    requires AllReadable(l, a, safe) && AllReadable(l, b, safe)
    ensures AllReadable(l, a + b, safe)
  {
  }

  lemma ScopedSafe(org: string, name: string)
    requires SafeText(name)
    ensures SafeText(Program.ScopedId(org, name))
  {
  }

  lemma JsonSafe(items: seq<string>)
    ensures SafeText(Program.JsonList(items))
  {
    hide Program.JsonItems;
  }

  /** A policy row: every value is safe text, but for `is_enabled`, which is a digit. */
  lemma PolicyRowSafe(l: Layout, t: TableName, row: Row)
    requires FitLayout(l) && (t == Role || t == Permission)
    requires forall c :: c in row ==> SafeText(row[c])
    requires "is_enabled" in row ==> Simple(row["is_enabled"])
    ensures SafeRow(l, t, row, true)
  {
    EmptyIsSimple();
    hide Simple, EndsInBackslash;
    var columns := l.Columns(t);
    forall i | 0 <= i < |columns| ensures ReadableValue(l.ColumnValue(row, columns[i]), true) {
      var c := columns[i];
      assert c in l.Columns(Role) + l.Columns(Permission);
      EmptyIsSafe();
      if c in l.numeric {
        assert c in l.numeric * (set c | c in l.Columns(Role) + l.Columns(Permission));
        assert c == "is_enabled";
      }
    }
  }

  lemma EmptyIsSafe()
    ensures SafeText("")
  {
  }

  lemma RoleReadable(l: Layout, args: Program.Args, role: Program.RoleSpec)
    requires FitLayout(l) && SafeArgs(args) && SafeRole(role)
    ensures ReadableStmt(l, Program.RoleUpsert(args, role), true)
  {
    var s := Program.RoleUpsert(args, role);
    JsonSafe([]);
    JsonSafe([Program.ScopedId(args.org, args.adminUser)]);
    assert SafeText("1") && Simple("1");
    hide Program.JsonList, Simple, EndsInBackslash, Program.Binds;
    PolicyRowSafe(l, Role, s.values);
  }

  lemma PermissionReadable(l: Layout, args: Program.Args, p: Program.PermissionSpec)
    requires FitLayout(l) && SafeArgs(args) && SafeSpec(p)
    ensures ReadableStmt(l, Program.PermissionUpsert(args, p), true)
  {
    var s := Program.PermissionUpsert(args, p);
    JsonSafe([]);
    JsonSafe(p.users);
    JsonSafe(p.roles);
    JsonSafe(p.resources);
    JsonSafe(p.actions);
    ScopedSafe(args.org, args.model);
    EmptyIsSafe();
    ConstantsSafe();
    hide Program.JsonList, Simple, EndsInBackslash, Program.ScopedId;
    PolicyRowSafe(l, Permission, s.values);
  }

  lemma ConstantsSafe()
    ensures SafeText("1") && Simple("1") && SafeText("Application") && SafeText("Allow") && SafeText("Approved")
    ensures SafeText("admin") && SafeText("p") && SafeText("allow")
  {
  }

  lemma {:induction false} RolesReadable(l: Layout, args: Program.Args, roles: seq<Program.RoleSpec>)
    requires FitLayout(l) && SafeArgs(args) && forall i :: 0 <= i < |roles| ==> SafeRole(roles[i])
    ensures AllReadable(l, Program.RoleUpserts(args, roles), true)
  {
    hide FitLayout, SafeArgs, SafeRole, Program.RoleUpsert, ReadableStmt;
    if roles != [] {
      RolesReadable(l, args, roles[..|roles| - 1]);
      RoleReadable(l, args, roles[|roles| - 1]);
    }
  }

  lemma {:induction false} PermissionsReadable(l: Layout, args: Program.Args, specs: seq<Program.PermissionSpec>)
    requires FitLayout(l) && SafeArgs(args) && forall i :: 0 <= i < |specs| ==> SafeSpec(specs[i])
    ensures AllReadable(l, Program.PermissionUpserts(args, specs), true)
  {
    hide FitLayout, SafeArgs, SafeSpec, Program.PermissionUpsert, ReadableStmt;
    if specs != [] {
      PermissionsReadable(l, args, specs[..|specs| - 1]);
      PermissionReadable(l, args, specs[|specs| - 1]);
    }
  }

  lemma AppendSafe(a: seq<string>, b: seq<string>)
    ensures SafeAll(a + b) <==> SafeAll(a) && SafeAll(b)
  {
    hide SafeText;
    forall k | 0 <= k < |b| ensures (a + b)[|a| + k] == b[k] {
    }
    forall k | 0 <= k < |a| ensures (a + b)[k] == a[k] {
    }
  }

  predicate SafeRules(rules: seq<Rule>) {
    forall i :: 0 <= i < |rules| ==>
      var r := rules[i]; SafeAll([r.ptype, r.v0, r.v1, r.v2, r.v3, r.v4, r.v5])
  }

  lemma RuleSafe(org: string, p: Program.PermissionSpec, subject: string, resource: string, action: string)
    requires SafeText(p.name) && SafeText(subject) && SafeText(resource) && SafeText(action)
    ensures SafeRules([Program.RuleFor(org, p, subject, resource, action)])
  {
    ScopedSafe(org, p.name);
    ConstantsSafe();
    EmptyIsSafe();
    hide SafeText, Program.ScopedId;
  }

  lemma {:induction false} ActionsSafe(org: string, p: Program.PermissionSpec, subject: string, resource: string, actions: seq<string>)
    requires SafeText(p.name) && SafeText(subject) && SafeText(resource) && SafeAll(actions)
    ensures SafeRules(Program.ActionRules(org, p, subject, resource, actions))
  {
    hide SafeText, Program.RuleFor;
    if actions != [] {
      var n := |actions| - 1;
      ActionsSafe(org, p, subject, resource, actions[..n]);
      RuleSafe(org, p, subject, resource, actions[n]);
    }
  }

  lemma {:induction false} ResourcesSafe(org: string, p: Program.PermissionSpec, subject: string, resources: seq<string>)
    requires SafeSpec(p) && SafeText(subject) && SafeAll(resources)
    ensures SafeRules(Program.ResourceRules(org, p, subject, resources))
  {
    hide SafeText, Program.ActionRules;
    if resources != [] {
      var n := |resources| - 1;
      ResourcesSafe(org, p, subject, resources[..n]);
      ActionsSafe(org, p, subject, resources[n], p.actions);
    }
  }

  lemma {:induction false} SubjectsSafe(org: string, p: Program.PermissionSpec, subjects: seq<string>)
    requires SafeSpec(p) && SafeAll(subjects)
    ensures SafeRules(Program.SubjectRules(org, p, subjects))
  {
    hide SafeText, Program.ResourceRules;
    if subjects != [] {
      var n := |subjects| - 1;
      SubjectsSafe(org, p, subjects[..n]);
      ResourcesSafe(org, p, subjects[n], p.resources);
    }
  }

  lemma {:induction false} SpecsSafe(org: string, specs: seq<Program.PermissionSpec>)
    requires forall i :: 0 <= i < |specs| ==> SafeSpec(specs[i])
    ensures SafeRules(Program.SpecRules(org, specs))
  {
    hide SafeText, SafeSpec, Program.SubjectRules;
    if specs != [] {
      var p := specs[|specs| - 1];
      SpecsSafe(org, specs[..|specs| - 1]);
      SubjectsOfSafe(p);
      SubjectsSafe(org, p, Program.SubjectsOf(p));
    }
  }

  lemma SubjectsOfSafe(p: Program.PermissionSpec)
    requires SafeSpec(p)
    ensures SafeAll(Program.SubjectsOf(p))
  {
    AppendSafe(p.users, p.roles);
  }

  lemma InsertsReadable(l: Layout, rules: seq<Rule>)
    requires SafeRules(rules)
    ensures AllReadable(l, Program.Inserts(rules), true)
  {
    forall i | 0 <= i < |rules| ensures ReadableStmt(l, Program.Inserts(rules)[i], true) {
      var r := rules[i];
      assert SafeAll([r.ptype, r.v0, r.v1, r.v2, r.v3, r.v4, r.v5]);
    }
  }

  lemma GeneratedIdsSafe(org: string, specs: seq<Program.PermissionSpec>)
    requires forall i :: 0 <= i < |specs| ==> SafeSpec(specs[i])
    ensures SafeAll(Program.GeneratedIds(org, specs))
  {
    forall i | 0 <= i < |specs| ensures SafeText(Program.GeneratedIds(org, specs)[i]) {
      ScopedSafe(org, specs[i].name);
    }
  }

  lemma ScopedAllSafe(org: string, names: seq<string>)
    requires SafeAll(names)
    ensures SafeAll(Program.ScopedIds(org, names))
  {
    forall i | 0 <= i < |names| ensures SafeText(Program.ScopedIds(org, names)[i]) {
      ScopedSafe(org, names[i]);
    }
  }

  lemma SafeAllIsSafe(texts: seq<string>)
    requires SafeAll(texts)
    ensures SafeTexts(texts, true)
  {
  }

  lemma LegacySafe()
    ensures SafeAll(Program.LEGACY_ROLE_NAMES) && SafeAll(Program.LEGACY_PERMISSIONS)
    ensures forall i :: 0 <= i < |Program.LEGACY_ROLES| ==>
              var r := Program.LEGACY_ROLES[i]; SafeAll([r.from, r.to, r.display, r.desc])
  {
  }

  lemma {:induction false} RenamesReadable(l: Layout, org: string, legacy: seq<Program.LegacyRole>)
    requires SafeText(org)
    requires forall i :: 0 <= i < |legacy| ==> var r := legacy[i]; SafeAll([r.from, r.to, r.display, r.desc])
    ensures AllReadable(l, Program.Renames(org, legacy), true)
  {
    if legacy != [] {
      var last := legacy[|legacy| - 1];
      RenamesReadable(l, org, legacy[..|legacy| - 1]);
      OneRenameReadable(l, org, last);
    }
  }

  lemma OneRenameReadable(l: Layout, org: string, r: Program.LegacyRole)
    requires SafeText(org) && SafeAll([r.from, r.to, r.display, r.desc])
    ensures ReadableStmt(l, RenameRole(org, r.from, r.to, r.display, r.desc), true)
  {
    var four := [r.from, r.to, r.display, r.desc];
    assert SafeText(four[0]) && SafeText(four[1]) && SafeText(four[2]) && SafeText(four[3]);
  }

  lemma CleanReadable(l: Layout, org: string)
    requires SafeText(org)
    ensures AllReadable(l, Program.CleanLegacy(org), true)
  {
    LegacySafe();
    hide Program.LEGACY_ROLES, Program.LEGACY_ROLE_NAMES, Program.LEGACY_PERMISSIONS, SafeText, ReadableStmt, Program.Renames;
    RenamesReadable(l, org, Program.LEGACY_ROLES);
    ScopedAllSafe(org, Program.LEGACY_ROLE_NAMES);
    ScopedAllSafe(org, Program.LEGACY_PERMISSIONS);
    DeletesReadable(l, org);
    ReadableTogether(l, Program.Renames(org, Program.LEGACY_ROLES),
                     [DeleteLegacyRules(Program.ScopedIds(org, Program.LEGACY_ROLE_NAMES), Program.ScopedIds(org, Program.LEGACY_PERMISSIONS)),
                      DeleteRows(Permission, org, Program.LEGACY_PERMISSIONS), DeleteRows(Role, org, Program.LEGACY_ROLE_NAMES)], true);
  }

  lemma DeletesReadable(l: Layout, org: string)
    requires SafeText(org)
    ensures AllReadable(l, [DeleteLegacyRules(Program.ScopedIds(org, Program.LEGACY_ROLE_NAMES), Program.ScopedIds(org, Program.LEGACY_PERMISSIONS)),
                            DeleteRows(Permission, org, Program.LEGACY_PERMISSIONS), DeleteRows(Role, org, Program.LEGACY_ROLE_NAMES)], true)
  {
    LegacySafe();
    hide Program.LEGACY_ROLES, Program.LEGACY_ROLE_NAMES, Program.LEGACY_PERMISSIONS, Program.ScopedIds;
    ScopedAllSafe(org, Program.LEGACY_ROLE_NAMES);
    ScopedAllSafe(org, Program.LEGACY_PERMISSIONS);
  }

  lemma UpsertAllReadable(l: Layout, t: TableName, key: Key, row: Row, safe: bool)
    requires SimpleAll(l.Columns(t)) && (safe ==> SafeText(key.0) && SafeText(key.1)) && SafeRow(l, t, row, safe)
    ensures ReadableStmt(l, Program.UpsertAll(t, key, row), safe)
  {
    hide Simple, ReadableValue;
  }

  lemma HeadReadable(l: Layout, args: Program.Args)
    requires FitLayout(l) && SafeArgs(args) && SafeRows(l, args, true)
    ensures AllReadable(l, Program.Head(args), true)
  {
    ConstantsSafe();
    UpsertAllReadable(l, Organization, ("admin", args.org), args.organizationRow, true);
    UpsertAllReadable(l, Application, (args.appOwner, args.app), args.applicationRow, true);
    UpsertAllReadable(l, User, (args.org, args.adminUser), args.userRow, true);
    hide Program.UpsertAll, SafeText, SafeRows, FitLayout;
  }

  lemma OneReadable(l: Layout, s: Stmt, safe: bool)
    requires ReadableStmt(l, s, safe)
    ensures AllReadable(l, [s], safe)
  {
    hide ReadableStmt;
  }

  lemma RulesReadable(l: Layout, org: string, specs: seq<Program.PermissionSpec>)
    requires forall i :: 0 <= i < |specs| ==> SafeSpec(specs[i])
    ensures AllReadable(l, [DeleteRulesOf(Program.GeneratedIds(org, specs))] + Program.Inserts(Program.SpecRules(org, specs))
                           + [SetForeignKeyChecks(true)], true)
  {
    hide SafeSpec, Program.Inserts, Program.SpecRules, SafeRules, AllReadable, Program.GeneratedIds, SafeAll, SafeTexts;
    var ids, inserts := Program.GeneratedIds(org, specs), Program.Inserts(Program.SpecRules(org, specs));
    GeneratedIdsSafe(org, specs);
    SafeAllIsSafe(ids);
    OneReadable(l, DeleteRulesOf(ids), true);
    OneReadable(l, SetForeignKeyChecks(true), true);
    hide ReadableStmt;
    SpecsSafe(org, specs);
    InsertsReadable(l, Program.SpecRules(org, specs));
    ReadableTogether(l, [DeleteRulesOf(ids)], inserts, true);
    ReadableTogether(l, [DeleteRulesOf(ids)] + inserts, [SetForeignKeyChecks(true)], true);
  }

  lemma ModelReadable(l: Layout, args: Program.Args)
    requires FitLayout(l) && SafeArgs(args) && SafeRows(l, args, true)
    ensures AllReadable(l, [Program.UpsertAll(Model, (args.org, args.model), args.modelRow)], true)
  {
    UpsertAllReadable(l, Model, (args.org, args.model), args.modelRow, true);
    hide SafeText, SafeRows, FitLayout, Program.UpsertAll, ReadableStmt;
  }

  /** Arguments, roles, permissions and rows without a text that ends in a backslash give a
      program all of whose statements have that property. */
  lemma ProgramReadable(l: Layout, args: Program.Args, roles: seq<Program.RoleSpec>, specs: seq<Program.PermissionSpec>)
    requires FitLayout(l) && SafeArgs(args) && SafeRows(l, args, true)
    requires (forall i :: 0 <= i < |roles| ==> SafeRole(roles[i])) && (forall i :: 0 <= i < |specs| ==> SafeSpec(specs[i]))
    ensures AllReadable(l, Program.Program(args, roles, specs), true)
  {
    hide ReadableStmt, SafeText, SafeRole, SafeSpec, SafeRows, FitLayout, SafeArgs, AllReadable, Program.Head, Program.CleanLegacy,
         Program.UpsertAll, Program.RoleUpserts, Program.PermissionUpserts, Program.GeneratedIds, Program.Inserts, Program.SpecRules;
    var head, clean := Program.Head(args), if args.cleanLegacy then Program.CleanLegacy(args.org) else [];
    var model := [Program.UpsertAll(Model, (args.org, args.model), args.modelRow)];
    var roleUpserts, permissionUpserts := Program.RoleUpserts(args, roles), Program.PermissionUpserts(args, specs);
    var rules := [DeleteRulesOf(Program.GeneratedIds(args.org, specs))] + Program.Inserts(Program.SpecRules(args.org, specs))
                 + [SetForeignKeyChecks(true)];
    HeadReadable(l, args);
    SafeOrg(args);
    CleanReadable(l, args.org);
    NothingReadable(l);
    ModelReadable(l, args);
    RolesReadable(l, args, roles);
    PermissionsReadable(l, args, specs);
    RulesReadable(l, args.org, specs);
    ReadableTogether(l, head, clean, true);
    ReadableTogether(l, head + clean, model, true);
    ReadableTogether(l, head + clean + model, roleUpserts, true);
    ReadableTogether(l, head + clean + model + roleUpserts, permissionUpserts, true);
    ReadableTogether(l, head + clean + model + roleUpserts + permissionUpserts, rules, true);
    assert Program.Program(args, roles, specs) == head + clean + model + roleUpserts + permissionUpserts + rules;
  }

  lemma NothingReadable(l: Layout)
    ensures AllReadable(l, [], true)
  {
  }

  lemma SafeOrg(args: Program.Args)
    requires SafeArgs(args)
    ensures SafeText(args.org)
  {
  }

  lemma ReadableEndsOutside(l: Layout, s: Stmt)
    requires ReadableStmt(l, s, true)
    ensures StmtEnd(l, s) == Out && ReadableStmt(l, s, false)
  {
    StmtReadable(l, s, true);
    ReadableIsWellFormed(Pieces(l, s), true);
    hide Pieces, Through, Literals, EndsInBackslash, Simple;
  }

  predicate Notes(lines: seq<Line>) {
    forall i :: 0 <= i < |lines| && lines[i].Note? ==> Laws.WellFormed(Laws.Comment(lines[i].text))
  }

  lemma {:induction false} CommandsPlain(l: Layout, lines: seq<Line>)
    requires Notes(lines) && forall i :: 0 <= i < |Commands(lines)| ==> ReadableStmt(l, Commands(lines)[i], false)
    ensures PlainLines(l, lines)
  {
    hide ReadableStmt, Laws.WellFormed;
    if lines != [] {
      var program, rest := Commands(lines), Commands(lines[1..]);
      if lines[0].Command? {
        assert program == [lines[0].stmt] + rest;
        assert ReadableStmt(l, program[0], false);
        forall i | 0 <= i < |rest| ensures ReadableStmt(l, rest[i], false) {
          assert rest[i] == program[i + 1];
        }
      } else {
        assert program == rest;
      }
      CommandsPlain(l, lines[1..]);
      forall i | 0 <= i < |lines| ensures PlainLine(l, lines[i]) {
        if i > 0 { assert lines[i] == lines[1..][i - 1]; }
      }
    }
  }

  /** Each table lists a column that the seed writes and updates. */
  ghost predicate ListsColumns(l: Layout, args: Program.Args) {
    && (exists c :: c in l.Columns(Organization) && c in args.organizationRow)
    && (exists c :: c in l.Columns(Application) && c in args.applicationRow)
    && (exists c :: c in l.Columns(User) && c in args.userRow)
    && (exists c :: c in l.Columns(Model) && c in args.modelRow)
    && "display_name" in l.Columns(Role) && "display_name" in l.Columns(Permission)
  }

  ghost predicate AllUpdate(l: Layout, program: seq<Stmt>) {
    forall i :: 0 <= i < |program| ==> Updates(l, program[i])
  }

  lemma UpdateTogether(l: Layout, a: seq<Stmt>, b: seq<Stmt>)
    requires AllUpdate(l, a) && AllUpdate(l, b)
    ensures AllUpdate(l, a + b)
  {
    hide Updates;
  }

  lemma {:induction false} PoliciesUpdate(l: Layout, args: Program.Args, roles: seq<Program.RoleSpec>, specs: seq<Program.PermissionSpec>)
    requires "display_name" in l.Columns(Role) && "display_name" in l.Columns(Permission)
    ensures AllUpdate(l, Program.RoleUpserts(args, roles)) && AllUpdate(l, Program.PermissionUpserts(args, specs))
    decreases |roles| + |specs|
  {
    hide Updates, Program.RoleUpsert, Program.PermissionUpsert;
    if roles != [] {
      PoliciesUpdate(l, args, roles[..|roles| - 1], specs);
      OneRoleUpdates(l, args, roles[|roles| - 1]);
    }
    if specs != [] {
      PoliciesUpdate(l, args, roles, specs[..|specs| - 1]);
      OnePermissionUpdates(l, args, specs[|specs| - 1]);
    }
  }

  lemma OneRoleUpdates(l: Layout, args: Program.Args, role: Program.RoleSpec)
    requires "display_name" in l.Columns(Role)
    ensures Updates(l, Program.RoleUpsert(args, role))
  {
    hide Program.JsonList;
    assert "display_name" in Program.RoleUpsert(args, role).update;
  }

  lemma OnePermissionUpdates(l: Layout, args: Program.Args, p: Program.PermissionSpec)
    requires "display_name" in l.Columns(Permission)
    ensures Updates(l, Program.PermissionUpsert(args, p))
  {
    hide Program.JsonList;
    assert "display_name" in Program.PermissionUpsert(args, p).update;
  }

  lemma FixedUpdate(l: Layout, args: Program.Args, specs: seq<Program.PermissionSpec>)
    requires ListsColumns(l, args)
    ensures AllUpdate(l, Program.Head(args)) && AllUpdate(l, Program.CleanLegacy(args.org)) && AllUpdate(l, [])
    ensures AllUpdate(l, [Program.UpsertAll(Model, (args.org, args.model), args.modelRow)])
    ensures AllUpdate(l, [DeleteRulesOf(Program.GeneratedIds(args.org, specs))] + Program.Inserts(Program.SpecRules(args.org, specs))
                         + [SetForeignKeyChecks(true)])
  {
    hide Program.SpecRules, Program.GeneratedIds, Program.ScopedIds;
    RenamesUpdate(l, args.org, Program.LEGACY_ROLES);
    hide Program.LEGACY_ROLES, Program.Renames;
  }

  lemma {:induction false} RenamesUpdate(l: Layout, org: string, legacy: seq<Program.LegacyRole>)
    ensures AllUpdate(l, Program.Renames(org, legacy))
  {
    if legacy != [] {
      RenamesUpdate(l, org, legacy[..|legacy| - 1]);
    }
  }

  lemma ProgramUpdates(l: Layout, args: Program.Args, roles: seq<Program.RoleSpec>, specs: seq<Program.PermissionSpec>)
    requires ListsColumns(l, args)
    ensures AllUpdate(l, Program.Program(args, roles, specs))
  {
    FixedUpdate(l, args, specs);
    PoliciesUpdate(l, args, roles, specs);
    hide AllUpdate, ListsColumns, Program.Head, Program.CleanLegacy, Program.RoleUpserts, Program.PermissionUpserts, Program.Inserts;
    var head, clean := Program.Head(args), if args.cleanLegacy then Program.CleanLegacy(args.org) else [];
    var model := [Program.UpsertAll(Model, (args.org, args.model), args.modelRow)];
    var upserts, permissions := Program.RoleUpserts(args, roles), Program.PermissionUpserts(args, specs);
    var rules := [DeleteRulesOf(Program.GeneratedIds(args.org, specs))] + Program.Inserts(Program.SpecRules(args.org, specs))
                 + [SetForeignKeyChecks(true)];
    UpdateTogether(l, head, clean);
    UpdateTogether(l, head + clean, model);
    UpdateTogether(l, head + clean + model, upserts);
    UpdateTogether(l, head + clean + model + upserts, permissions);
    UpdateTogether(l, head + clean + model + upserts + permissions, rules);
    assert Program.Program(args, roles, specs) == head + clean + model + upserts + permissions + rules;
  }

  /** Round trip over the arguments: the rendered seed, with whatever comments and blank lines
      between its statements, is read back as the very texts of the statements of its program. */
  lemma ProgramRoundTrip(l: Layout, lines: seq<Line>, args: Program.Args, roles: seq<Program.RoleSpec>, specs: seq<Program.PermissionSpec>)
    requires FitLayout(l) && SafeArgs(args) && SafeRows(l, args, true)
    requires (forall i :: 0 <= i < |roles| ==> SafeRole(roles[i])) && (forall i :: 0 <= i < |specs| ==> SafeSpec(specs[i]))
    requires Notes(lines) && Commands(lines) == Program.Program(args, roles, specs)
    ensures Statements(SeedFile(l, lines)) == Printed(l, Program.Program(args, roles, specs))
    ensures ListsColumns(l, args) ==> Statements(SeedFile(l, lines)) == Texts(l, Program.Program(args, roles, specs))
  {
    var program := Program.Program(args, roles, specs);
    ProgramReadable(l, args, roles, specs);
    if ListsColumns(l, args) {
      ProgramUpdates(l, args, roles, specs);
      PrintedWhole(l, program);
    }
    hide Program.Program, ReadableStmt, StmtEnd, Statements, SeedFile, Printed, Notes, Texts, ListsColumns;
    forall i | 0 <= i < |program| ensures StmtEnd(l, program[i]) == Out && ReadableStmt(l, program[i], false) {
      ReadableEndsOutside(l, program[i]);
    }
    CommandsPlain(l, lines);
    SeedReadBackIff(l, lines);
  }

  // ----- A text that ends in a backslash.

  function OverValue(v: Value, at: Place): Place {
    if v.Str? then Over(v.value, at) else at
  }

  /** Where the scanner is after a list of values. */
  function ThroughValues(values: seq<Value>, at: Place): Place
    decreases |values|
  {
    if values == [] then at
    else ThroughValues(values[1..], OverValue(values[0], at))
  }

  lemma {:induction false} ThroughAppend(a: seq<string>, b: seq<string>, at: Place)
    ensures Through(a + b, at) == Through(b, Through(a, at))
    decreases |a|
  {
    hide Over;
    if a == [] {
      assert a + b == b;
    } else {
      assert (a + b)[1..] == a[1..] + b;
      ThroughAppend(a[1..], b, Over(a[0], at));
    }
  }

  lemma {:induction false} LiteralsAppend(a: seq<Piece>, b: seq<Piece>)
    ensures Literals(a + b) == Literals(a) + Literals(b)
  {
    if a == [] {
      assert a + b == b;
    } else {
      assert (a + b)[1..] == a[1..] + b;
      LiteralsAppend(a[1..], b);
    }
  }

  lemma {:induction false} FieldsThrough(values: seq<Value>, at: Place)
    ensures Through(Literals(FieldPieces(values)), at) == ThroughValues(values, at)
    decreases |values|
  {
    hide Over;
    if values != [] {
      var rest := FieldPieces(values[1..]);
      var to := OverValue(values[0], at);
      FieldsThrough(values[1..], to);
      OneThrough(values[0], at);
      if |values| > 1 {
        LiteralsAppend([ValuePiece(values[0]), Raw(", ")], rest);
        ThroughAppend(Literals([ValuePiece(values[0]), Raw(", ")]), Literals(rest), at);
      }
    }
  }

  lemma OneThrough(v: Value, at: Place)
    ensures var to := OverValue(v, at);
            Through(Literals([ValuePiece(v)]), at) == to && Through(Literals([ValuePiece(v), Raw(", ")]), at) == to
  {
    hide Over;
    assert [ValuePiece(v)][1..] == [] && [ValuePiece(v), Raw(", ")][1..] == [Raw(", ")] && [Raw(", ")][1..] == [];
    assert Literals([Raw(", ")]) == [] && Literals([]) == [];
    if v.Str? {
      assert Literals([ValuePiece(v)]) == [v.value] && Literals([ValuePiece(v), Raw(", ")]) == [v.value] && [v.value][1..] == [];
    } else {
      assert Literals([ValuePiece(v)]) == [] && Literals([ValuePiece(v), Raw(", ")]) == [];
    }
  }

  lemma AroundThrough(before: string, values: seq<Value>, after: string)
    ensures Through(Literals(Around(before, values, after)), Out) == ThroughValues(values, Out)
  {
    hide Over, FieldPieces;
    FieldsThrough(values, Out);
    LiteralsAppend([Raw(before)], FieldPieces(values));
    LiteralsAppend([Raw(before)] + FieldPieces(values), [Raw(after)]);
    assert [Raw(before)][1..] == [] && [Raw(after)][1..] == [];
    assert Literals([Raw(before)]) == [] && Literals([Raw(after)]) == [];
    assert Literals(Around(before, values, after)) == Literals(FieldPieces(values));
  }

  /** The value does not end in a backslash, and is calm where that is asked for. */
  predicate Quiet(v: Value, calm: bool) {
    v.Str? ==> !EndsInBackslash(v.value) && (calm ==> Calm(v.value, false, false))
  }

  lemma {:induction false} QuietThrough(values: seq<Value>, at: Place)
    requires at == Out || at == Single
    requires forall i :: 0 <= i < |values| ==> Quiet(values[i], at == Single)
    ensures ThroughValues(values, at) == at
    decreases |values|
  {
    hide Over, Calm, EndsInBackslash;
    if values != [] {
      assert Quiet(values[0], at == Single);
      if values[0].Str? {
        OverFromOutside(values[0].value);
        if at == Single { OverFromInside(values[0].value); }
      }
      QuietThrough(values[1..], at);
    }
  }

  lemma {:induction false} ThroughValuesAppend(a: seq<Value>, b: seq<Value>, at: Place)
    ensures ThroughValues(a + b, at) == ThroughValues(b, ThroughValues(a, at))
    decreases |a|
  {
    hide Over;
    if a == [] {
      assert a + b == b;
    } else {
      assert (a + b)[1..] == a[1..] + b;
      ThroughValuesAppend(a[1..], b, OverValue(a[0], at));
    }
  }

  /** One value that ends in a backslash, followed by calm ones, leaves the scanner inside. */
  lemma OneBackslashOpens(values: seq<Value>, k: nat)
    requires k < |values| && values[k].Str? && EndsInBackslash(values[k].value)
    requires forall i :: 0 <= i < |values| && i != k ==> Quiet(values[i], i > k)
    ensures ThroughValues(values, Out) == Single
  {
    hide Calm, EndsInBackslash, Over;
    var before, after := values[..k], values[k + 1..];
    assert values == before + ([values[k]] + after);
    QuietThrough(before, Out);
    OverFromOutside(values[k].value);
    QuietThrough(after, Single);
    ThroughValuesAppend(before, [values[k]] + after, Out);
    assert ([values[k]] + after)[1..] == after;
  }

  function UpsertValues(l: Layout, t: TableName, key: Key, row: Row): seq<Value> {
    Strs([key.0, key.1]) + RowValues(l, row, l.Columns(t))
  }

  /** A text of the organization row that ends in a backslash, the display name say, with calm
      values after it: the seed file is not read back. */
  lemma TrailingBackslashLosesSeed(l: Layout, lines: seq<Line>, args: Program.Args, roles: seq<Program.RoleSpec>,
                                   specs: seq<Program.PermissionSpec>, k: nat)
    requires PlainLines(l, lines) && Commands(lines) == Program.Program(args, roles, specs)
    requires var values := UpsertValues(l, Organization, ("admin", args.org), args.organizationRow);
             k < |values| && values[k].Str? && EndsInBackslash(values[k].value)
             && forall i :: 0 <= i < |values| && i != k ==> Quiet(values[i], i > k)
    ensures Statements(SeedFile(l, lines)) != Printed(l, Program.Program(args, roles, specs))
  {
    var s := Program.UpsertAll(Organization, ("admin", args.org), args.organizationRow);
    OrganizationInProgram(args, roles, specs);
    assert StmtEnd(l, s) == Single by {
      hide Calm, EndsInBackslash, Quiet, Opening, Closing, ThroughValues, Around;
      OneBackslashOpens(UpsertValues(l, Organization, ("admin", args.org), args.organizationRow), k);
      AroundThrough(Opening("organization", ["owner", "name"] + l.Columns(Organization)),
                    UpsertValues(l, Organization, ("admin", args.org), args.organizationRow),
                    Closing(Filtered(l.Columns(Organization), args.organizationRow.Keys)));
    }
    hide StmtEnd, Program.Program, Statements, Printed, SeedFile, PlainLines, Program.UpsertAll;
    SeedReadBackIff(l, lines);
  }

  lemma OrganizationInProgram(args: Program.Args, roles: seq<Program.RoleSpec>, specs: seq<Program.PermissionSpec>)
    ensures var program := Program.Program(args, roles, specs);
            |program| > 1 && program[1] == Program.UpsertAll(Organization, ("admin", args.org), args.organizationRow)
  {
    hide Program.UpsertAll, Program.CleanLegacy, Program.RoleUpserts, Program.PermissionUpserts, Program.Inserts;
  }

  /** A text without double quotes and backslashes. */
  predicate Word(text: string) {
    '"' !in text && BACKSLASH !in text
  }

  lemma {:induction false} WordThenCalm(word: string, rest: string)
    requires Word(word) && Calm(rest, false, true)
    ensures Calm(word + rest, false, true)
  {
    if word == "" {
      assert word + rest == rest;
    } else {
      assert (word + rest)[1..] == word[1..] + rest;
      assert Word(word[1..]);
      WordThenCalm(word[1..], rest);
    }
  }

  lemma CalmAfter(c: char, rest: string)
    requires Calm(rest, false, false) && c != QUOTE && c != ';' && c != '-' && c != BACKSLASH
    ensures c != '"' ==> Calm([c] + rest, false, false)
    ensures c == '"' ==> Calm([c] + rest, false, true)
  {
    assert ([c] + rest)[1..] == rest;
  }

  lemma QuotedIsCalm(word: string, rest: string)
    requires Word(word) && Calm(rest, false, false)
    ensures Calm("\"" + word + "\"" + rest, false, false)
  {
    hide Word;
    CalmAfter('"', rest);
    WordThenCalm(word, "\"" + rest);
    var all := "\"" + word + "\"" + rest;
    assert all[1..] == word + ("\"" + rest);
  }

  lemma {:induction false} JsonItemsCalm(items: seq<string>)
    requires forall i :: 0 <= i < |items| ==> Word(items[i])
    ensures Calm(Program.JsonItems(items) + "]", false, false)
  {
    EndIsCalm();
    hide Word, Calm;
    if items == [] {
      assert "" + "]" == "]";
    } else if |items| == 1 {
      QuotedIsCalm(items[0], "]");
    } else {
      var rest := Program.JsonItems(items[1..]) + "]";
      JsonItemsCalm(items[1..]);
      CalmAfter(',', rest);
      QuotedIsCalm(items[0], "," + rest);
      assert Program.JsonItems(items) + "]" == "\"" + items[0] + "\"" + ("," + rest);
    }
  }

  lemma EndIsCalm()
    ensures Calm("]", false, false) && Calm("", false, false)
  {
    assert "]"[1..] == "";
  }

  /** The empty text and a printed list of words are calm. */
  lemma JsonListIsCalm(items: seq<string>)
    requires forall i :: 0 <= i < |items| ==> Word(items[i])
    ensures Calm("", false, false) && Calm(Program.JsonList(items), false, false)
  {
    EndIsCalm();
    hide Word, Calm;
    JsonItemsCalm(items);
    CalmAfter('[', Program.JsonItems(items) + "]");
    assert Program.JsonList(items) == ['['] + (Program.JsonItems(items) + "]");
  }

  lemma ItemsFirst(item: string, items: seq<string>)
    ensures Program.JsonItems([item] + items) + "]" == "\"" + item + "\"" + if items == [] then "]" else "," + (Program.JsonItems(items) + "]")
  {
    assert ([item] + items)[1..] == items;
    if items != [] {
      assert "\"" + item + "\"," + Program.JsonItems(items) + "]" == "\"" + item + "\"" + ("," + (Program.JsonItems(items) + "]"));
    }
  }

  lemma {:induction false} JsonItemsApart(a: seq<string>, b: seq<string>)
    requires (forall i :: 0 <= i < |a| ==> Word(a[i])) && (forall i :: 0 <= i < |b| ==> Word(b[i]))
    requires Program.JsonItems(a) + "]" == Program.JsonItems(b) + "]"
    ensures a == b
  {
    if a != [] && b != [] {
      var restA := if a[1..] == [] then "]" else "," + (Program.JsonItems(a[1..]) + "]");
      var restB := if b[1..] == [] then "]" else "," + (Program.JsonItems(b[1..]) + "]");
      assert a == [a[0]] + a[1..] && b == [b[0]] + b[1..];
      ItemsFirst(a[0], a[1..]);
      ItemsFirst(b[0], b[1..]);
      Text.MarkedFirst(a[0], restA, b[0], restB, '"');
      if a[1..] != [] && b[1..] != [] {
        assert restA[1..] == Program.JsonItems(a[1..]) + "]" && restB[1..] == Program.JsonItems(b[1..]) + "]";
        JsonItemsApart(a[1..], b[1..]);
      } else {
        assert restA[0] == restB[0];
      }
    } else {
      ItemsStart(a);
      ItemsStart(b);
    }
  }

  lemma ItemsStart(items: seq<string>)
    ensures (Program.JsonItems(items) + "]")[0] == if items == [] then ']' else '"'
  {
  }

  /** A printed list of words tells what it lists, in order. */
  lemma JsonListTells(a: seq<string>, b: seq<string>)
    requires (forall i :: 0 <= i < |a| ==> Word(a[i])) && (forall i :: 0 <= i < |b| ==> Word(b[i]))
    ensures Program.JsonList(a) == Program.JsonList(b) ==> a == b
  {
    hide Word, Program.JsonItems;
    if Program.JsonList(a) == Program.JsonList(b) {
      assert Program.JsonItems(a) + "]" == Program.JsonList(a)[1..] && Program.JsonItems(b) + "]" == Program.JsonList(b)[1..];
      JsonItemsApart(a, b);
    }
  }
}
