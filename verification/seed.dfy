/** The tables the seed file writes to, and what each of its statements does to them.
    A row is a map from columns to values; `permission_rule` has no key of its own but an
    automatic id, so it is a multiset of rules. */
module SeedTables {

  type Key = (string, string)
  type Row = map<string, string>
  type Table = map<Key, Row>

  datatype TableName = Organization | Application | User | Model | Role | Permission

  datatype Rule = Rule(ptype: string, v0: string, v1: string, v2: string, v3: string, v4: string, v5: string)

  datatype Db = Db(organization: Table, application: Table, user: Table, model: Table,
                   role: Table, permission: Table, rules: multiset<Rule>)

  datatype Stmt =
    | SetForeignKeyChecks(on: bool)
    | Upsert(table: TableName, key: Key, values: Row, update: set<string>)
    | RenameRole(owner: string, from: string, to: string, display: string, desc: string)
    | DeleteRows(table: TableName, owner: string, names: seq<string>)
    | DeleteLegacyRules(roleIds: seq<string>, permissionIds: seq<string>)
    | DeleteRulesOf(permissionIds: seq<string>)
    | InsertRule(rule: Rule)

  function Restrict(row: Row, columns: set<string>): Row {
    map c | c in row && c in columns :: row[c]
  }

  /** INSERT ... ON DUPLICATE KEY UPDATE. */
  function UpsertRow(table: Table, key: Key, values: Row, update: set<string>): Table {
    if key in table then table[key := table[key] + Restrict(values, update)] else table[key := values]
  }

  /** UPDATE role SET name, display_name, description WHERE the old name exists AND NOT EXISTS the new one. */
  function Rename(table: Table, from: Key, to: Key, display: string, desc: string): Table {
    if from in table && to !in table
    then (table - {from})[to := table[from] + map["display_name" := display, "description" := desc]]
    else table
  }

  function DeleteKeys(table: Table, owner: string, names: seq<string>): Table {
    map k | k in table && !(k.0 == owner && k.1 in names) :: table[k]
  }

  function TableStep(s: Stmt, t: TableName, table: Table): Table {
    match s
    case Upsert(t', key, values, update) => if t' == t then UpsertRow(table, key, values, update) else table
    case RenameRole(owner, from, to, display, desc) =>
      if t == Role then Rename(table, (owner, from), (owner, to), display, desc) else table
    case DeleteRows(t', owner, names) => if t' == t then DeleteKeys(table, owner, names) else table
    case _ => table
  }

  predicate LegacyResource(v1: string) {
    "skillhub:" <= v1 || "skill:" <= v1 || "group:" <= v1
  }

  predicate LegacyRule(r: Rule, roleIds: seq<string>, permissionIds: seq<string>) {
    r.v0 in roleIds || LegacyResource(r.v1) || r.v5 in permissionIds
  }

  /** The rules that satisfy a condition, with their multiplicities. */
  ghost function Where(rules: multiset<Rule>, keep: Rule -> bool): (r: multiset<Rule>)
    ensures forall x :: r[x] == if keep(x) then rules[x] else 0
    decreases |rules|
  {
    if rules == multiset{} then multiset{}
    else
      var x :| x in rules;
      var rest := Where(rules[x := 0], keep);
      if keep(x) then rest[x := rules[x]] else rest
  }

  ghost function RulesStep(s: Stmt, rules: multiset<Rule>): multiset<Rule> {
    match s
    case DeleteLegacyRules(roleIds, permissionIds) => Where(rules, r => !LegacyRule(r, roleIds, permissionIds))
    case DeleteRulesOf(permissionIds) => Where(rules, (r: Rule) => r.v5 !in permissionIds)
    case InsertRule(rule) => rules + multiset{rule}
    case _ => rules
  }

  ghost function Exec(s: Stmt, db: Db): Db {
    Db(TableStep(s, Organization, db.organization), TableStep(s, Application, db.application),
       TableStep(s, User, db.user), TableStep(s, Model, db.model),
       TableStep(s, Role, db.role), TableStep(s, Permission, db.permission),
       RulesStep(s, db.rules))
  }

  ghost function Run(program: seq<Stmt>, db: Db): Db {
    if program == [] then db else Run(program[1..], Exec(program[0], db))
  }

  function RunTable(program: seq<Stmt>, t: TableName, table: Table): Table {
    if program == [] then table else RunTable(program[1..], t, TableStep(program[0], t, table))
  }

  ghost function RunRules(program: seq<Stmt>, rules: multiset<Rule>): multiset<Rule> {
    if program == [] then rules else RunRules(program[1..], RulesStep(program[0], rules))
  }

  /** A program works on every table on its own. */
  lemma {:induction false} RunByTable(program: seq<Stmt>, db: Db)
    ensures Run(program, db)
         == Db(RunTable(program, Organization, db.organization), RunTable(program, Application, db.application),
               RunTable(program, User, db.user), RunTable(program, Model, db.model),
               RunTable(program, Role, db.role), RunTable(program, Permission, db.permission),
               RunRules(program, db.rules))
  {
    if program != [] {
      RunByTable(program[1..], Exec(program[0], db));
    }
  }

  lemma {:induction false} RunTableAppend(a: seq<Stmt>, b: seq<Stmt>, t: TableName, table: Table)
    ensures RunTable(a + b, t, table) == RunTable(b, t, RunTable(a, t, table))
  {
    if a == [] {
      assert a + b == b;
    } else {
      assert (a + b)[1..] == a[1..] + b;
      RunTableAppend(a[1..], b, t, TableStep(a[0], t, table));
    }
  }

  lemma {:induction false} RunRulesAppend(a: seq<Stmt>, b: seq<Stmt>, rules: multiset<Rule>)
    ensures RunRules(a + b, rules) == RunRules(b, RunRules(a, rules))
  {
    if a == [] {
      assert a + b == b;
    } else {
      assert (a + b)[1..] == a[1..] + b;
      RunRulesAppend(a[1..], b, RulesStep(a[0], rules));
    }
  }
}

/** The statements render() writes, in order (scripts/casdoor/render-casdoor-seed.py).  The
    column texts of the organization, application, user and model rows are parameters. */
module SeedProgram {
  import opened SeedTables

  datatype Args = Args(org: string, app: string, appOwner: string, model: string, adminUser: string,
                       createdTime: string, skipAdminUserCreate: bool, skipAdminBinding: bool, cleanLegacy: bool,
                       organizationRow: Row, applicationRow: Row, userRow: Row, modelRow: Row)

  datatype RoleSpec = RoleSpec(name: string, display: string, desc: string)

  datatype PermissionSpec = PermissionSpec(name: string, display: string, users: seq<string>, roles: seq<string>,
                                           resources: seq<string>, actions: seq<string>)

  datatype LegacyRole = LegacyRole(from: string, to: string, display: string, desc: string)

  const PLATFORM_ADMIN := "role_platform_admin"

  const LEGACY_ROLES: seq<LegacyRole> := [
    LegacyRole("role_skillhub_admin", "role_aihub_admin", "AIHub 管理员", "AIHub 全部管理权限"),
    LegacyRole("role_skillhub_editor", "role_aihub_editor", "AIHub 编辑者",
               "AIHub 技能、SkillSet、Agent、Workflow、发布、提案等写入权限"),
    LegacyRole("role_skillhub_viewer", "role_aihub_viewer", "AIHub 只读", "AIHub 只读权限")]

  const LEGACY_ROLE_NAMES: seq<string> := [LEGACY_ROLES[0].from, LEGACY_ROLES[1].from, LEGACY_ROLES[2].from]

  const LEGACY_PERMISSIONS: seq<string> := ["perm_skillhub_admin", "perm_skillhub_editor", "perm_skillhub_viewer"]

  const COMMON_ROLES: seq<RoleSpec> := [
    RoleSpec("role_platform_admin", "平台管理员", "平台全局管理员，允许所有对象和动作"),
    RoleSpec("role_platform_viewer", "平台只读", "平台全局只读角色"),
    RoleSpec("role_audit_admin", "审计管理员", "可查询所有平台审计记录"),
    RoleSpec("role_audit_viewer", "审计只读", "可只读查询平台审计记录"),
    RoleSpec("role_security_admin", "安全管理员", "可管理认证、授权、审计相关配置"),
    RoleSpec("role_aihub_admin", "AIHub 管理员", "AIHub 全部管理权限"),
    RoleSpec("role_aihub_editor", "AIHub 编辑者", "AIHub 技能、SkillSet、Agent、Workflow、发布、提案等写入权限"),
    RoleSpec("role_aihub_viewer", "AIHub 只读", "AIHub 只读权限"),
    RoleSpec("role_agentruntime_admin", "AgentRuntime 管理员", "AgentRuntime 全部管理权限"),
    RoleSpec("role_agentruntime_operator", "AgentRuntime 操作者", "AgentRuntime 运行、停止、查看权限"),
    RoleSpec("role_agentruntime_viewer", "AgentRuntime 只读", "AgentRuntime 只读权限"),
    RoleSpec("role_sqlhub_admin", "SQLHub 管理员", "SQLHub 全部管理权限"),
    RoleSpec("role_sqlhub_editor", "SQLHub 编辑者", "SQLHub 查询、数据源、模板等写入权限"),
    RoleSpec("role_sqlhub_viewer", "SQLHub 只读", "SQLHub 只读权限"),
    RoleSpec("role_modelgateway_admin", "ModelGateway 管理员", "模型网关全部管理权限"),
    RoleSpec("role_modelgateway_operator", "ModelGateway 操作者", "模型网关路由、发布、限流等操作权限"),
    RoleSpec("role_modelgateway_viewer", "ModelGateway 只读", "模型网关只读权限"),
    RoleSpec("role_portal_admin", "Portal 管理员", "门户全部管理权限"),
    RoleSpec("role_portal_editor", "Portal 编辑者", "门户页面、菜单、公告等写入权限"),
    RoleSpec("role_portal_viewer", "Portal 只读", "门户只读权限")]

  /** A COMMON_PERMISSIONS entry; its roles are bare names. */
  datatype CommonPermission = CommonPermission(name: string, display: string, roles: seq<string>,
                                               resources: seq<string>, actions: seq<string>)

  const AIHUB_RESOURCES: seq<string> :=
    ["aihub:skill:*", "aihub:skillset:*", "aihub:agent:*", "aihub:tool:*", "aihub:workflow:*",
     "aihub:run:*", "aihub:proposal:*", "aihub:release:*", "aihub:knowledge:*", "aihub:audit:*",
     "aihub:runtime:*"]

  const AIHUB_ACTIONS: seq<string> :=
    ["read", "view", "list", "download", "write", "create", "update", "delete", "publish"]
    + ["rollback", "approve", "reject", "run", "cancel", "retry", "report", "admin:read", "admin:write"]

  const COMMON_PERMISSIONS: seq<CommonPermission> := [
    CommonPermission("perm_platform_admin", "平台管理员策略", ["role_platform_admin"], ["*"], ["*"]),
    CommonPermission("perm_platform_viewer", "平台只读策略", ["role_platform_viewer"],
                     ["portal:*", "aihub:*", "agentruntime:*", "sqlhub:*", "modelgateway:*", "audit:*"],
                     ["read", "view", "list", "admin:read"]),
    CommonPermission("perm_audit_admin", "审计管理策略", ["role_audit_admin", "role_security_admin"],
                     ["audit:*", "*:audit:*"],
                     ["*"]),
    CommonPermission("perm_audit_viewer", "审计只读策略", ["role_audit_viewer"],
                     ["audit:*", "*:audit:*"],
                     ["read", "view", "list"]),
    CommonPermission("perm_security_admin", "安全管理策略", ["role_security_admin"],
                     ["auth:*", "authn:*", "authz:*", "audit:*", "casdoor:*"],
                     ["*"]),
    CommonPermission("perm_aihub_admin", "AIHub 管理策略", ["role_aihub_admin"], ["aihub:*"], ["*"]),
    CommonPermission("perm_aihub_editor", "AIHub 编辑策略", ["role_aihub_editor"], AIHUB_RESOURCES, AIHUB_ACTIONS),
    CommonPermission("perm_aihub_viewer", "AIHub 只读策略", ["role_aihub_viewer"],
                     ["aihub:*"],
                     ["read", "view", "list", "download", "admin:read"]),
    CommonPermission("perm_agentruntime_admin", "AgentRuntime 管理策略", ["role_agentruntime_admin"],
                     ["agentruntime:*"],
                     ["*"]),
    CommonPermission("perm_agentruntime_operator", "AgentRuntime 操作策略", ["role_agentruntime_operator"],
                     ["agentruntime:run:*", "agentruntime:session:*", "agentruntime:agent:*", "agentruntime:tool:*",
                      "agentruntime:audit:*"],
                     ["read", "view", "list", "run", "stop", "restart", "approve", "reject", "admin:read"]),
    CommonPermission("perm_agentruntime_viewer", "AgentRuntime 只读策略", ["role_agentruntime_viewer"],
                     ["agentruntime:*"],
                     ["read", "view", "list", "admin:read"]),
    CommonPermission("perm_sqlhub_admin", "SQLHub 管理策略", ["role_sqlhub_admin"], ["sqlhub:*"], ["*"]),
    CommonPermission("perm_sqlhub_editor", "SQLHub 编辑策略", ["role_sqlhub_editor"],
                     ["sqlhub:datasource:*", "sqlhub:query:*", "sqlhub:template:*", "sqlhub:report:*", "sqlhub:audit:*"],
                     ["read", "view", "list", "create", "update", "execute", "export", "admin:read", "admin:write"]),
    CommonPermission("perm_sqlhub_viewer", "SQLHub 只读策略", ["role_sqlhub_viewer"],
                     ["sqlhub:*"],
                     ["read", "view", "list", "admin:read"]),
    CommonPermission("perm_modelgateway_admin", "ModelGateway 管理策略", ["role_modelgateway_admin"],
                     ["modelgateway:*"],
                     ["*"]),
    CommonPermission("perm_modelgateway_operator", "ModelGateway 操作策略", ["role_modelgateway_operator"],
                     ["modelgateway:model:*", "modelgateway:route:*", "modelgateway:key:*", "modelgateway:quota:*",
                      "modelgateway:audit:*"],
                     ["read", "view", "list", "create", "update", "publish", "disable", "enable", "admin:read"]),
    CommonPermission("perm_modelgateway_viewer", "ModelGateway 只读策略", ["role_modelgateway_viewer"],
                     ["modelgateway:*"],
                     ["read", "view", "list", "admin:read"]),
    CommonPermission("perm_portal_admin", "Portal 管理策略", ["role_portal_admin"], ["portal:*"], ["*"]),
    CommonPermission("perm_portal_editor", "Portal 编辑策略", ["role_portal_editor"],
                     ["portal:page:*", "portal:menu:*", "portal:notice:*", "portal:asset:*"],
                     ["read", "view", "list", "create", "update", "delete", "publish", "admin:read"]),
    CommonPermission("perm_portal_viewer", "Portal 只读策略", ["role_portal_viewer"],
                     ["portal:*"],
                     ["read", "view", "list", "admin:read"])]

  function ScopedIds(org: string, names: seq<string>): seq<string> {
    seq(|names|, i requires 0 <= i < |names| => ScopedId(org, names[i]))
  }

  const LOGIN_PERMISSION := "perm_aisphere_auth_login"

  /** iter_permission_specs: the login permission, then the common ones. */
  function PermissionSpecs(args: Args, common: seq<CommonPermission>): seq<PermissionSpec> {
    [PermissionSpec(LOGIN_PERMISSION, "AI Sphere Auth 登录策略", [args.org + "/*"], [], [args.app], ["Read"])]
    + seq(|common|, i requires 0 <= i < |common| =>
          PermissionSpec(common[i].name, common[i].display, [], ScopedIds(args.org, common[i].roles),
                         common[i].resources, common[i].actions))
  }

  /** role_id and permission_id. */
  function ScopedId(org: string, name: string): string {
    org + "/" + name
  }

  function JsonItems(items: seq<string>): string {
    if items == [] then ""
    else if |items| == 1 then "\"" + items[0] + "\""
    else "\"" + items[0] + "\"," + JsonItems(items[1..])
  }

  /** json.dumps of a list of plain identifiers. */
  function JsonList(items: seq<string>): string {
    "[" + JsonItems(items) + "]"
  }

  predicate Binds(args: Args, role: RoleSpec) {
    role.name == PLATFORM_ADMIN && !args.skipAdminBinding
  }

  function RoleUpsert(args: Args, role: RoleSpec): Stmt {
    var users := if Binds(args, role) then [ScopedId(args.org, args.adminUser)] else [];
    var columns := {"created_time", "display_name", "description", "groups", "roles", "domains", "is_enabled"};
    Upsert(Role, (args.org, role.name),
           map["created_time" := args.createdTime, "display_name" := role.display, "description" := role.desc,
               "users" := JsonList(users), "groups" := JsonList([]), "roles" := JsonList([]),
               "domains" := JsonList([]), "is_enabled" := "1"],
           if Binds(args, role) then columns + {"users"} else columns)
  }

  function PermissionUpsert(args: Args, p: PermissionSpec): Stmt {
    var values := map[
      "created_time" := args.createdTime, "display_name" := p.display, "description" := p.display,
      "users" := JsonList(p.users), "groups" := JsonList([]), "roles" := JsonList(p.roles),
      "domains" := JsonList([]), "model" := ScopedId(args.org, args.model), "adapter" := "",
      "resource_type" := "Application", "resources" := JsonList(p.resources), "actions" := JsonList(p.actions),
      "effect" := "Allow", "is_enabled" := "1", "submitter" := args.adminUser, "approver" := args.adminUser,
      "approve_time" := args.createdTime, "state" := "Approved"];
    Upsert(Permission, (args.org, p.name), values, values.Keys)
  }

  /** insert_on_duplicate with its default columns to update: all but the key. */
  function UpsertAll(t: TableName, key: Key, values: Row): Stmt {
    Upsert(t, key, values, values.Keys)
  }

  function RoleUpserts(args: Args, roles: seq<RoleSpec>): seq<Stmt> {
    if roles == [] then [] else RoleUpserts(args, roles[..|roles| - 1]) + [RoleUpsert(args, roles[|roles| - 1])]
  }

  function PermissionUpserts(args: Args, specs: seq<PermissionSpec>): seq<Stmt> {
    if specs == [] then []
    else PermissionUpserts(args, specs[..|specs| - 1]) + [PermissionUpsert(args, specs[|specs| - 1])]
  }

  function Renames(org: string, legacy: seq<LegacyRole>): seq<Stmt> {
    if legacy == [] then []
    else
      var last := legacy[|legacy| - 1];
      Renames(org, legacy[..|legacy| - 1]) + [RenameRole(org, last.from, last.to, last.display, last.desc)]
  }

  /** render_clean_legacy_sql. */
  function CleanLegacy(org: string): seq<Stmt> {
    Renames(org, LEGACY_ROLES) +
    [DeleteLegacyRules(ScopedIds(org, LEGACY_ROLE_NAMES), ScopedIds(org, LEGACY_PERMISSIONS)),
     DeleteRows(Permission, org, LEGACY_PERMISSIONS),
     DeleteRows(Role, org, LEGACY_ROLE_NAMES)]
  }

  function SubjectsOf(p: PermissionSpec): seq<string> {
    p.users + p.roles
  }

  function RuleFor(org: string, p: PermissionSpec, subject: string, resource: string, action: string): Rule {
    Rule("p", subject, resource, action, "allow", "", ScopedId(org, p.name))
  }

  function ActionRules(org: string, p: PermissionSpec, subject: string, resource: string, actions: seq<string>): seq<Rule> {
    if actions == [] then []
    else ActionRules(org, p, subject, resource, actions[..|actions| - 1])
         + [RuleFor(org, p, subject, resource, actions[|actions| - 1])]
  }

  function ResourceRules(org: string, p: PermissionSpec, subject: string, resources: seq<string>): seq<Rule> {
    if resources == [] then []
    else ResourceRules(org, p, subject, resources[..|resources| - 1])
         + ActionRules(org, p, subject, resources[|resources| - 1], p.actions)
  }

  function SubjectRules(org: string, p: PermissionSpec, subjects: seq<string>): seq<Rule> {
    if subjects == [] then []
    else SubjectRules(org, p, subjects[..|subjects| - 1])
         + ResourceRules(org, p, subjects[|subjects| - 1], p.resources)
  }

  function SpecRules(org: string, specs: seq<PermissionSpec>): seq<Rule> {
    if specs == [] then []
    else SpecRules(org, specs[..|specs| - 1]) + SubjectRules(org, specs[|specs| - 1], SubjectsOf(specs[|specs| - 1]))
  }

  function Inserts(rules: seq<Rule>): (r: seq<Stmt>)
    ensures |r| == |rules| && forall i :: 0 <= i < |r| ==> r[i] == InsertRule(rules[i])
  {
    seq(|rules|, i requires 0 <= i < |rules| => InsertRule(rules[i]))
  }

  function GeneratedIds(org: string, specs: seq<PermissionSpec>): seq<string> {
    seq(|specs|, i requires 0 <= i < |specs| => ScopedId(org, specs[i].name))
  }

  function Head(args: Args): seq<Stmt> {
    [SetForeignKeyChecks(false),
     UpsertAll(Organization, ("admin", args.org), args.organizationRow),
     UpsertAll(Application, (args.appOwner, args.app), args.applicationRow)]
    + (if args.skipAdminUserCreate then [] else [UpsertAll(User, (args.org, args.adminUser), args.userRow)])
  }

  /** The whole seed program. */
  function Program(args: Args, roles: seq<RoleSpec>, specs: seq<PermissionSpec>): seq<Stmt> {
    Head(args)
    + (if args.cleanLegacy then CleanLegacy(args.org) else [])
    + [UpsertAll(Model, (args.org, args.model), args.modelRow)]
    + RoleUpserts(args, roles)
    + PermissionUpserts(args, specs)
    + [DeleteRulesOf(GeneratedIds(args.org, specs))]
    + Inserts(SpecRules(args.org, specs))
    + [SetForeignKeyChecks(true)]
  }

  method RenderCleanLegacy(org: string) returns (lines: seq<Stmt>)
    ensures lines == CleanLegacy(org)
  {
    lines := [];
    for i := 0 to |LEGACY_ROLES|
      invariant lines == Renames(org, LEGACY_ROLES[..i])
    {
      var legacy := LEGACY_ROLES[i];
      assert LEGACY_ROLES[..i + 1][..i] == LEGACY_ROLES[..i];
      lines := lines + [RenameRole(org, legacy.from, legacy.to, legacy.display, legacy.desc)];
    }
    assert LEGACY_ROLES[..|LEGACY_ROLES|] == LEGACY_ROLES;
    lines := lines + [DeleteLegacyRules(ScopedIds(org, LEGACY_ROLE_NAMES), ScopedIds(org, LEGACY_PERMISSIONS))];
    lines := lines + [DeleteRows(Permission, org, LEGACY_PERMISSIONS)];
    lines := lines + [DeleteRows(Role, org, LEGACY_ROLE_NAMES)];
  }

  lemma Snoc<T>(s: seq<T>, i: nat)
    requires i < |s|
    ensures s[..i + 1][..i] == s[..i] && s[..i + 1][i] == s[i]
  {
  }

  /** The innermost of the loops that write one INSERT per subject, resource and action. */
  method RenderActions(org: string, p: PermissionSpec, subject: string, resource: string) returns (lines: seq<Stmt>)
    ensures lines == Inserts(ActionRules(org, p, subject, resource, p.actions))
  {
    lines := [];
    for l := 0 to |p.actions|
      invariant lines == Inserts(ActionRules(org, p, subject, resource, p.actions[..l]))
    {
      Snoc(p.actions, l);
      lines := lines + [InsertRule(RuleFor(org, p, subject, resource, p.actions[l]))];
    }
    Whole(p.actions);
  }

  method RenderResources(org: string, p: PermissionSpec, subject: string) returns (lines: seq<Stmt>)
    ensures lines == Inserts(ResourceRules(org, p, subject, p.resources))
  {
    lines := [];
    for k := 0 to |p.resources|
      invariant lines == Inserts(ResourceRules(org, p, subject, p.resources[..k]))
    {
      var inner := RenderActions(org, p, subject, p.resources[k]);
      Snoc(p.resources, k);
      InsertsAppend(ResourceRules(org, p, subject, p.resources[..k]), ActionRules(org, p, subject, p.resources[k], p.actions));
      lines := lines + inner;
    }
    Whole(p.resources);
  }

  method RenderSubjects(org: string, p: PermissionSpec) returns (lines: seq<Stmt>)
    ensures lines == Inserts(SubjectRules(org, p, SubjectsOf(p)))
  {
    lines := [];
    var subjects := p.users + p.roles;
    for j := 0 to |subjects|
      invariant lines == Inserts(SubjectRules(org, p, subjects[..j]))
    {
      var inner := RenderResources(org, p, subjects[j]);
      Snoc(subjects, j);
      InsertsAppend(SubjectRules(org, p, subjects[..j]), ResourceRules(org, p, subjects[j], p.resources));
      lines := lines + inner;
    }
    Whole(subjects);
  }

  method RenderRules(org: string, specs: seq<PermissionSpec>) returns (lines: seq<Stmt>)
    ensures lines == Inserts(SpecRules(org, specs))
  {
    lines := [];
    for i := 0 to |specs|
      invariant lines == Inserts(SpecRules(org, specs[..i]))
    {
      var inner := RenderSubjects(org, specs[i]);
      Snoc(specs, i);
      InsertsAppend(SpecRules(org, specs[..i]), SubjectRules(org, specs[i], SubjectsOf(specs[i])));
      lines := lines + inner;
    }
    Whole(specs);
  }

  lemma Whole<T>(s: seq<T>)
    ensures s[..|s|] == s
  {
  }

  lemma InsertsAppend(a: seq<Rule>, b: seq<Rule>)
    ensures Inserts(a + b) == Inserts(a) + Inserts(b)
  {
  }

  method Render(args: Args, roles: seq<RoleSpec>, specs: seq<PermissionSpec>) returns (lines: seq<Stmt>)
    ensures lines == Program(args, roles, specs)
  {
    hide RoleUpsert, PermissionUpsert, Inserts, CleanLegacy, SpecRules, GeneratedIds, UpsertAll;
    lines := [SetForeignKeyChecks(false)];
    lines := lines + [UpsertAll(Organization, ("admin", args.org), args.organizationRow)];
    lines := lines + [UpsertAll(Application, (args.appOwner, args.app), args.applicationRow)];
    if !args.skipAdminUserCreate {
      lines := lines + [UpsertAll(User, (args.org, args.adminUser), args.userRow)];
    }
    assert lines == Head(args);
    if args.cleanLegacy {
      var clean := RenderCleanLegacy(args.org);
      lines := lines + clean;
    }
    lines := lines + [UpsertAll(Model, (args.org, args.model), args.modelRow)];
    ghost var before := lines;
    for i := 0 to |roles|
      invariant lines == before + RoleUpserts(args, roles[..i])
    {
      Snoc(roles, i);
      lines := lines + [RoleUpsert(args, roles[i])];
    }
    Whole(roles);
    before := lines;
    for i := 0 to |specs|
      invariant lines == before + PermissionUpserts(args, specs[..i])
    {
      Snoc(specs, i);
      lines := lines + [PermissionUpsert(args, specs[i])];
    }
    Whole(specs);
    lines := lines + [DeleteRulesOf(GeneratedIds(args.org, specs))];
    var rules := RenderRules(args.org, specs);
    lines := lines + rules;
    lines := lines + [SetForeignKeyChecks(true)];
  }
}
