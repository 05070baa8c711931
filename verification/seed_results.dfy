/** What the seed promises: idempotence, the exact policy product, and kept role bindings. */
module SeedResults {
  import opened SeedIdempotence
  import opened SeedProgram
  import opened SeedTables
  import opened Wrappers

  // ----- The generated rules are the product of subjects, resources and actions.

  ghost predicate InSpec(org: string, p: PermissionSpec, r: Rule) {
    && r.v0 in SubjectsOf(p) && r.v1 in p.resources && r.v2 in p.actions
    && r.ptype == "p" && r.v3 == "allow" && r.v4 == "" && r.v5 == ScopedId(org, p.name)
  }

  ghost predicate InProduct(org: string, specs: seq<PermissionSpec>, r: Rule) {
    exists i :: 0 <= i < |specs| && InSpec(org, specs[i], r)
  }

  predicate Distinct<T(==)>(s: seq<T>) {
    forall i, j :: 0 <= i < j < |s| ==> s[i] != s[j]
  }

  lemma {:induction false} DistinctCount<T>(s: seq<T>, x: T)
    requires Distinct(s)
    ensures multiset(s)[x] == if x in s then 1 else 0
  {
    if s != [] {
      var n := |s| - 1;
      assert s == s[..n] + [s[n]];
      DistinctCount(s[..n], x);
    }
  }

  // ----- How often each rule is inserted, loop by loop.

  /** A rule's fields apart from subject, resource and action. */
  predicate Fits(org: string, p: PermissionSpec, r: Rule) {
    r.ptype == "p" && r.v3 == "allow" && r.v4 == "" && r.v5 == ScopedId(org, p.name)
  }

  function Count<T(==)>(s: seq<T>, x: T): nat {
    multiset(s)[x]
  }

  function Times(a: nat, b: nat): nat {
    a * b
  }

  /** How often a rule stands in the product of each spec's subjects, resources and actions. */
  function Product(org: string, specs: seq<PermissionSpec>, r: Rule): nat {
    if specs == [] then 0
    else
      var p := specs[|specs| - 1];
      Product(org, specs[..|specs| - 1], r)
      + if Fits(org, p, r)
        then Times(Count(SubjectsOf(p), r.v0), Times(Count(p.resources, r.v1), Count(p.actions, r.v2)))
        else 0
  }

  lemma CountSnoc<T>(s: seq<T>, x: T)
    requires s != []
    ensures Count(s, x) == Count(s[..|s| - 1], x) + if s[|s| - 1] == x then 1 else 0
  {
    assert s == s[..|s| - 1] + [s[|s| - 1]];
  }

  lemma CountNone<T>(x: T)
    ensures Count([], x) == 0
  {
  }

  lemma CountAppend<T>(a: seq<T>, b: seq<T>, x: T)
    ensures Count(a + b, x) == Count(a, x) + Count(b, x)
  {
  }

  lemma OneMoreTimes(a: nat, hit: bool, b: nat)
    ensures Times(0, b) == 0
    ensures Times(a + if hit then 1 else 0, b) == Times(a, b) + if hit then b else 0
  {
  }

  lemma {:induction false} ActionCount(org: string, p: PermissionSpec, subject: string, resource: string,
                                       actions: seq<string>, r: Rule)
    ensures Count(ActionRules(org, p, subject, resource, actions), r)
         == if Fits(org, p, r) && r.v0 == subject && r.v1 == resource then Count(actions, r.v2) else 0
  {
    hide ScopedId;
    if actions != [] {
      var n := |actions| - 1;
      ActionCount(org, p, subject, resource, actions[..n], r);
      CountSnoc(actions, r.v2);
      CountAppend(ActionRules(org, p, subject, resource, actions[..n]), [RuleFor(org, p, subject, resource, actions[n])], r);
    }
  }

  lemma {:induction false} ResourceCount(org: string, p: PermissionSpec, subject: string, resources: seq<string>, r: Rule)
    ensures Count(ResourceRules(org, p, subject, resources), r)
         == if Fits(org, p, r) && r.v0 == subject then Times(Count(resources, r.v1), Count(p.actions, r.v2)) else 0
  {
    hide Fits, ActionRules, Count, Times;
    if resources == [] {
      CountNone(r.v1);
      CountNone(r);
      OneMoreTimes(0, true, Count(p.actions, r.v2));
    } else {
      var n := |resources| - 1;
      ResourceCount(org, p, subject, resources[..n], r);
      ActionCount(org, p, subject, resources[n], p.actions, r);
      CountSnoc(resources, r.v1);
      OneMoreTimes(Count(resources[..n], r.v1), resources[n] == r.v1, Count(p.actions, r.v2));
      CountAppend(ResourceRules(org, p, subject, resources[..n]), ActionRules(org, p, subject, resources[n], p.actions), r);
    }
  }

  lemma {:induction false} SubjectCount(org: string, p: PermissionSpec, subjects: seq<string>, r: Rule)
    ensures Count(SubjectRules(org, p, subjects), r)
         == if Fits(org, p, r)
            then Times(Count(subjects, r.v0), Times(Count(p.resources, r.v1), Count(p.actions, r.v2))) else 0
  {
    hide Fits, ResourceRules, Count, Times;
    if subjects == [] {
      CountNone(r.v0);
      CountNone(r);
      OneMoreTimes(0, true, Times(Count(p.resources, r.v1), Count(p.actions, r.v2)));
    } else {
      var n := |subjects| - 1;
      SubjectCount(org, p, subjects[..n], r);
      ResourceCount(org, p, subjects[n], p.resources, r);
      CountSnoc(subjects, r.v0);
      OneMoreTimes(Count(subjects[..n], r.v0), subjects[n] == r.v0, Times(Count(p.resources, r.v1), Count(p.actions, r.v2)));
      CountAppend(SubjectRules(org, p, subjects[..n]), ResourceRules(org, p, subjects[n], p.resources), r);
    }
  }

  /** The INSERT statements are the product, repetitions included. */
  lemma {:induction false} SpecRulesAreProduct(org: string, specs: seq<PermissionSpec>, r: Rule)
    ensures Count(SpecRules(org, specs), r) == Product(org, specs, r)
  {
    hide Fits, SubjectRules, SubjectsOf;
    if specs != [] {
      var n := |specs| - 1;
      SpecRulesAreProduct(org, specs[..n], r);
      SubjectCount(org, specs[n], SubjectsOf(specs[n]), r);
      CountAppend(SpecRules(org, specs[..n]), SubjectRules(org, specs[n], SubjectsOf(specs[n])), r);
    }
  }

  predicate DistinctLists(specs: seq<PermissionSpec>) {
    forall i :: 0 <= i < |specs| ==>
      Distinct(SubjectsOf(specs[i])) && Distinct(specs[i].resources) && Distinct(specs[i].actions)
  }

  predicate DistinctNames(specs: seq<PermissionSpec>) {
    forall i, j :: 0 <= i < j < |specs| ==> specs[i].name != specs[j].name
  }

  lemma ScopedIdInjective(org: string, a: string, b: string)
    requires ScopedId(org, a) == ScopedId(org, b)
    ensures a == b
  {
    assert a == ScopedId(org, a)[|org| + 1..] && b == ScopedId(org, b)[|org| + 1..];
  }

  lemma ProductSnoc(org: string, specs: seq<PermissionSpec>, r: Rule)
    requires specs != []
    ensures InProduct(org, specs, r) <==>
            InProduct(org, specs[..|specs| - 1], r) || InSpec(org, specs[|specs| - 1], r)
  {
  }

  lemma ProductsApart(org: string, specs: seq<PermissionSpec>, r: Rule)
    requires specs != [] && DistinctNames(specs) && InSpec(org, specs[|specs| - 1], r)
    ensures !InProduct(org, specs[..|specs| - 1], r)
  {
    var n := |specs| - 1;
    if InProduct(org, specs[..n], r) {
      var i :| 0 <= i < n && InSpec(org, specs[..n][i], r);
      ScopedIdInjective(org, specs[i].name, specs[n].name);
    }
  }

  /** When no list repeats an entry and no two specs share a name, the product holds each of
      its rules once. */
  lemma {:induction false} ProductOnce(org: string, specs: seq<PermissionSpec>, r: Rule)
    requires DistinctLists(specs) && DistinctNames(specs)
    ensures Product(org, specs, r) == if InProduct(org, specs, r) then 1 else 0
  {
    if specs != [] {
      var n := |specs| - 1;
      ProductOnce(org, specs[..n], r);
      ProductSnoc(org, specs, r);
      DistinctCount(SubjectsOf(specs[n]), r.v0);
      DistinctCount(specs[n].resources, r.v1);
      DistinctCount(specs[n].actions, r.v2);
      if InSpec(org, specs[n], r) { ProductsApart(org, specs, r); }
    }
  }

  /** The specs of iter_permission_specs meet the conditions if the common permissions have
      distinct names, none of them the login permission's, and lists without repetitions. */
  lemma SpecsQualify(args: Args, common: seq<CommonPermission>)
    requires forall i, j :: 0 <= i < j < |common| ==> common[i].name != common[j].name
    requires forall i :: 0 <= i < |common| ==>
      common[i].name != LOGIN_PERMISSION && Distinct(common[i].roles) && Distinct(common[i].resources) && Distinct(common[i].actions)
    ensures DistinctNames(PermissionSpecs(args, common)) && DistinctLists(PermissionSpecs(args, common))
  {
    hide Distinct;
    var specs := PermissionSpecs(args, common);
    forall i | 0 <= i < |specs|
      ensures Distinct(SubjectsOf(specs[i])) && Distinct(specs[i].resources) && Distinct(specs[i].actions)
    {
      if i == 0 {
        OneIsDistinct(args.org + "/*");
        OneIsDistinct(args.app);
        OneIsDistinct("Read");
        assert SubjectsOf(specs[0]) == [args.org + "/*"];
      } else {
        ScopedIdsDistinct(args.org, common[i - 1].roles);
        assert SubjectsOf(specs[i]) == ScopedIds(args.org, common[i - 1].roles);
      }
    }
  }

  // ----- The shipped permissions.

  lemma CommonNamesDiffer()
    ensures forall i, j :: 0 <= i < j < |COMMON_PERMISSIONS| ==> COMMON_PERMISSIONS[i].name != COMMON_PERMISSIONS[j].name
    ensures forall i :: 0 <= i < |COMMON_PERMISSIONS| ==> COMMON_PERMISSIONS[i].name != LOGIN_PERMISSION
  {
  }

  predicate DistinctEntry(p: CommonPermission) {
    Distinct(p.roles) && Distinct(p.resources) && Distinct(p.actions)
  }

  lemma PlatformListsAreDistinct()
    ensures forall i :: 0 <= i < 6 ==> DistinctEntry(COMMON_PERMISSIONS[i])
  {
  }

  lemma DistinctAppend<T>(a: seq<T>, b: seq<T>)
    requires Distinct(a) && Distinct(b) && forall x :: x in a ==> x !in b
    ensures Distinct(a + b)
  {
    forall i, j | 0 <= i < j < |a + b| ensures (a + b)[i] != (a + b)[j] {
      if i < |a| <= j { assert a[i] in a && b[j - |a|] in b; }
    }
  }

  lemma AihubResourcesAreDistinct()
    ensures Distinct(AIHUB_RESOURCES)
  {
  }

  lemma AihubActionsAreDistinct()
    ensures Distinct(AIHUB_ACTIONS)
  {
    DistinctAppend(["read", "view", "list", "download", "write", "create", "update", "delete", "publish"],
                   ["rollback", "approve", "reject", "run", "cancel", "retry", "report", "admin:read", "admin:write"]);
  }

  lemma AihubListsAreDistinct()
    ensures DistinctEntry(COMMON_PERMISSIONS[6]) && DistinctEntry(COMMON_PERMISSIONS[7])
  {
    hide AIHUB_RESOURCES, AIHUB_ACTIONS;
    AihubResourcesAreDistinct();
    AihubActionsAreDistinct();
  }

  lemma RuntimeListsAreDistinct()
    ensures forall i :: 8 <= i < 12 ==> DistinctEntry(COMMON_PERMISSIONS[i])
  {
  }

  lemma SqlhubListsAreDistinct()
    ensures forall i :: 12 <= i < 15 ==> DistinctEntry(COMMON_PERMISSIONS[i])
  {
  }

  lemma GatewayListsAreDistinct()
    ensures forall i :: 15 <= i < 18 ==> DistinctEntry(COMMON_PERMISSIONS[i])
  {
  }

  lemma PortalListsAreDistinct()
    ensures |COMMON_PERMISSIONS| == 20 && forall i :: 18 <= i < 20 ==> DistinctEntry(COMMON_PERMISSIONS[i])
  {
  }

  /** The shipped permissions meet the conditions, so that the seed inserts each rule of their
      product once. */
  lemma CommonPermissionsQualify(args: Args)
    ensures var specs := PermissionSpecs(args, COMMON_PERMISSIONS); DistinctNames(specs) && DistinctLists(specs)
  {
    CommonNamesDiffer();
    PlatformListsAreDistinct();
    AihubListsAreDistinct();
    RuntimeListsAreDistinct();
    SqlhubListsAreDistinct();
    GatewayListsAreDistinct();
    PortalListsAreDistinct();
    hide COMMON_PERMISSIONS, Distinct;
    forall i | 0 <= i < 20 ensures DistinctEntry(COMMON_PERMISSIONS[i]) {
    }
    SpecsQualify(args, COMMON_PERMISSIONS);
  }

  lemma OneIsDistinct(s: string)
    ensures Distinct([s])
  {
  }

  lemma ScopedIdsDistinct(org: string, roles: seq<string>)
    requires Distinct(roles)
    ensures Distinct(ScopedIds(org, roles))
  {
    hide ScopedId;
    var ids := ScopedIds(org, roles);
    forall i, j | 0 <= i < j < |ids| ensures ids[i] != ids[j] {
      if ids[i] == ids[j] { ScopedIdInjective(org, roles[i], roles[j]); }
    }
  }

  lemma {:induction false} ProductIsGenerated(org: string, specs: seq<PermissionSpec>, r: Rule)
    requires Product(org, specs, r) > 0
    ensures r.v5 in GeneratedIds(org, specs)
  {
    SpecRulesAreProduct(org, specs, r);
    RulesAreGenerated(org, specs, r);
  }

  /** After the seed, whatever the tables held before, the rules under the generated permission
      ids are exactly the product of subjects, resources and actions; the others are those
      that were no legacy. */
  lemma GeneratedRulesAreProduct(args: Args, roles: seq<RoleSpec>, specs: seq<PermissionSpec>, db: Db, r: Rule)
    ensures Run(Program(args, roles, specs), db).rules[r]
         == if r.v5 in GeneratedIds(args.org, specs) then Product(args.org, specs, r)
            else NotLegacy(args, db.rules)[r]
  {
    hide Program, SpecRules, NotLegacy, Product, GeneratedIds;
    RunByTable(Program(args, roles, specs), db);
    ProgramRules(args, roles, specs, db.rules);
    SpecRulesAreProduct(args.org, specs, r);
    if Product(args.org, specs, r) > 0 { ProductIsGenerated(args.org, specs, r); }
  }

  // ----- The rules, field by field.

  lemma RuleOfSpec(org: string, specs: seq<PermissionSpec>, i: nat, r: Rule)
    requires DistinctNames(specs) && i < |specs| && r.v5 == org + "/" + specs[i].name
    ensures InProduct(org, specs, r) <==> InSpec(org, specs[i], r)
  {
    forall k | 0 <= k < |specs| && InSpec(org, specs[k], r) ensures k == i {
      ScopedIdInjective(org, specs[k].name, specs[i].name);
    }
  }

  lemma {:induction false} ProductPositive(org: string, specs: seq<PermissionSpec>, r: Rule)
    ensures Product(org, specs, r) > 0 <==> InProduct(org, specs, r)
  {
    hide SubjectsOf;
    if specs != [] {
      var p := specs[|specs| - 1];
      ProductPositive(org, specs[..|specs| - 1], r);
      ProductSnoc(org, specs, r);
      TimesPositive(Count(p.resources, r.v1), Count(p.actions, r.v2));
      TimesPositive(Count(SubjectsOf(p), r.v0), Times(Count(p.resources, r.v1), Count(p.actions, r.v2)));
      hide Times;
      assert InSpec(org, p, r) <==> Fits(org, p, r) && Count(SubjectsOf(p), r.v0) > 0 && Count(p.resources, r.v1) > 0 && Count(p.actions, r.v2) > 0;
    }
  }

  lemma TimesPositive(a: nat, b: nat)
    ensures Times(a, b) > 0 <==> a > 0 && b > 0
  {
  }

  /** After the seed, whatever the tables held before, a rule under a permission's id is there
      exactly when it allows one of the permission's users or roles one of its actions on one of
      its resources; it is there once if no list repeats an entry. */
  lemma RuleIff(args: Args, roles: seq<RoleSpec>, specs: seq<PermissionSpec>, db: Db, i: nat, r: Rule)
    requires DistinctNames(specs) && i < |specs| && r.v5 == args.org + "/" + specs[i].name
    ensures var p, rules := specs[i], Run(Program(args, roles, specs), db).rules;
      && (r in rules <==> && r.ptype == "p" && (r.v0 in p.users || r.v0 in p.roles) && r.v1 in p.resources && r.v2 in p.actions
                          && r.v3 == "allow" && r.v4 == "")
      && (r in rules && Distinct(p.users + p.roles) && Distinct(p.resources) && Distinct(p.actions) ==> rules[r] == 1)
  {
    assert GeneratedIds(args.org, specs)[i] == r.v5;
    GeneratedRulesAreProduct(args, roles, specs, db, r);
    ProductPositive(args.org, specs, r);
    RuleOfSpec(args.org, specs, i, r);
    hide Program, Run, Product, GeneratedIds, InProduct;
    var p := specs[i];
    assert r.v0 in p.users + p.roles <==> r.v0 in p.users || r.v0 in p.roles;
    if InSpec(args.org, p, r) && Distinct(p.users + p.roles) && Distinct(p.resources) && Distinct(p.actions) {
      ProductOnceAt(args.org, specs, i, r);
    }
  }

  lemma {:induction false} ProductOnceAt(org: string, specs: seq<PermissionSpec>, i: nat, r: Rule)
    requires DistinctNames(specs) && i < |specs| && InSpec(org, specs[i], r)
    requires Distinct(specs[i].users + specs[i].roles) && Distinct(specs[i].resources) && Distinct(specs[i].actions)
    ensures Product(org, specs, r) == 1
  {
    var n := |specs| - 1;
    if i < n {
      ProductOnceAt(org, specs[..n], i, r);
      if Fits(org, specs[n], r) { ScopedIdInjective(org, specs[n].name, specs[i].name); }
    } else {
      ProductPositive(org, specs[..n], r);
      ProductsApart(org, specs, r);
      DistinctCount(specs[n].users + specs[n].roles, r.v0);
      DistinctCount(specs[n].resources, r.v1);
      DistinctCount(specs[n].actions, r.v2);
    }
  }

  /** Everyone in the organization may log in: the seed leaves that rule, once. */
  lemma LoginRuleStands(args: Args, roles: seq<RoleSpec>, common: seq<CommonPermission>, db: Db)
    requires DistinctNames(PermissionSpecs(args, common))
    ensures var rule := Rule("p", args.org + "/*", args.app, "Read", "allow", "", args.org + "/perm_aisphere_auth_login");
            Run(Program(args, roles, PermissionSpecs(args, common)), db).rules[rule] == 1
  {
    var specs := PermissionSpecs(args, common);
    var rule := Rule("p", args.org + "/*", args.app, "Read", "allow", "", args.org + "/perm_aisphere_auth_login");
    hide Program, Run;
    assert specs[0].users + specs[0].roles == [args.org + "/*"];
    RuleIff(args, roles, specs, db, 0, rule);
  }

  /** A common permission allows the roles it names, as roles of the organization, and nobody else. */
  lemma CommonRuleIff(args: Args, roles: seq<RoleSpec>, common: seq<CommonPermission>, db: Db, i: nat, role: string,
                      resource: string, action: string)
    requires DistinctNames(PermissionSpecs(args, common)) && i < |common|
    ensures var c := common[i];
            Rule("p", args.org + "/" + role, resource, action, "allow", "", args.org + "/" + c.name)
              in Run(Program(args, roles, PermissionSpecs(args, common)), db).rules
            <==> role in c.roles && resource in c.resources && action in c.actions
  {
    var specs, c := PermissionSpecs(args, common), common[i];
    var rule := Rule("p", args.org + "/" + role, resource, action, "allow", "", args.org + "/" + c.name);
    hide Program, Run;
    assert specs[i + 1].name == c.name && specs[i + 1].users == [] && specs[i + 1].roles == ScopedIds(args.org, c.roles);
    RuleIff(args, roles, specs, db, i + 1, rule);
    ScopedIn(args.org, c.roles, role);
  }

  lemma ScopedIn(org: string, names: seq<string>, name: string)
    ensures org + "/" + name in ScopedIds(org, names) <==> name in names
  {
    if name in names {
      var k :| 0 <= k < |names| && names[k] == name;
      assert ScopedIds(org, names)[k] == org + "/" + name;
    }
    if org + "/" + name in ScopedIds(org, names) {
      var k :| 0 <= k < |names| && ScopedIds(org, names)[k] == org + "/" + name;
      ScopedIdInjective(org, names[k], name);
    }
  }

  // ----- Idempotence.

  lemma {:induction false} RulesAreGenerated(org: string, specs: seq<PermissionSpec>, r: Rule)
    requires r in SpecRules(org, specs)
    ensures r.v5 in GeneratedIds(org, specs)
  {
    var n := |specs| - 1;
    if r in SpecRules(org, specs[..n]) {
      RulesAreGenerated(org, specs[..n], r);
      var i :| 0 <= i < n && r.v5 == ScopedId(org, specs[..n][i].name);
      assert GeneratedIds(org, specs)[i] == ScopedId(org, specs[i].name);
    } else {
      SubjectRulesId(org, specs[n], SubjectsOf(specs[n]), r);
      assert GeneratedIds(org, specs)[n] == ScopedId(org, specs[n].name);
    }
  }

  lemma {:induction false} SubjectRulesId(org: string, p: PermissionSpec, subjects: seq<string>, r: Rule)
    requires r in SubjectRules(org, p, subjects)
    ensures r.v5 == ScopedId(org, p.name)
  {
    var n := |subjects| - 1;
    if r in SubjectRules(org, p, subjects[..n]) {
      SubjectRulesId(org, p, subjects[..n], r);
    } else {
      ResourceRulesId(org, p, subjects[n], p.resources, r);
    }
  }

  lemma {:induction false} ResourceRulesId(org: string, p: PermissionSpec, subject: string, resources: seq<string>, r: Rule)
    requires r in ResourceRules(org, p, subject, resources)
    ensures r.v5 == ScopedId(org, p.name)
  {
    var n := |resources| - 1;
    if r in ResourceRules(org, p, subject, resources[..n]) {
      ResourceRulesId(org, p, subject, resources[..n], r);
    } else {
      ActionRulesId(org, p, subject, resources[n], p.actions, r);
    }
  }

  lemma {:induction false} ActionRulesId(org: string, p: PermissionSpec, subject: string, resource: string, actions: seq<string>, r: Rule)
    requires r in ActionRules(org, p, subject, resource, actions)
    ensures r.v5 == ScopedId(org, p.name)
  {
    var n := |actions| - 1;
    if r in ActionRules(org, p, subject, resource, actions[..n]) {
      ActionRulesId(org, p, subject, resource, actions[..n], r);
    }
  }

  lemma RulesTwice(args: Args, roles: seq<RoleSpec>, specs: seq<PermissionSpec>, rules: multiset<Rule>)
    ensures RunRules(Program(args, roles, specs), RunRules(Program(args, roles, specs), rules))
         == RunRules(Program(args, roles, specs), rules)
  {
    hide Program, SpecRules, GeneratedIds, LegacyRule;
    var generated := multiset(SpecRules(args.org, specs));
    var once := RunRules(Program(args, roles, specs), rules);
    ProgramRules(args, roles, specs, rules);
    ProgramRules(args, roles, specs, once);
    forall r ensures (NotGenerated(args, specs, NotLegacy(args, once)) + generated)[r] == once[r] {
      if r in generated { RulesAreGenerated(args.org, specs, r); }
    }
  }

  /** Running the seed twice is running it once, from any starting tables. */
  lemma SeedTwice(args: Args, roles: seq<RoleSpec>, specs: seq<PermissionSpec>, db: Db)
    requires NoLegacyNames(roles)
    ensures Run(Program(args, roles, specs), Run(Program(args, roles, specs), db)) == Run(Program(args, roles, specs), db)
  {
    hide Program, RunTable, RunRules;
    var program := Program(args, roles, specs);
    RunByTable(program, db);
    RunByTable(program, Run(program, db));
    PlainTableTwice(args, roles, specs, Organization, db.organization);
    PlainTableTwice(args, roles, specs, Application, db.application);
    PlainTableTwice(args, roles, specs, User, db.user);
    PlainTableTwice(args, roles, specs, Model, db.model);
    RolesTwice(args, roles, specs, db.role);
    PermissionsTwice(args, roles, specs, db.permission);
    RulesTwice(args, roles, specs, db.rules);
  }

  /** The shipped role list meets the conditions of the results above and below. */
  lemma CommonRolesAreNotLegacy()
    ensures NoLegacyNames(COMMON_ROLES)
  {
    assert forall i :: 0 <= i < |LEGACY_ROLES| ==> |LEGACY_ROLES[i].from| > 6 && LEGACY_ROLES[i].from[6] == 'k';
    assert forall i :: 0 <= i < |COMMON_ROLES| ==> |COMMON_ROLES[i].name| > 6 && COMMON_ROLES[i].name[6] != 'k';
  }

  lemma CommonRolesSeedAihub(i: nat)
    requires i < |LEGACY_ROLES|
    ensures COMMON_ROLES[i + 5].name == LEGACY_ROLES[i].to && LEGACY_ROLES[i].to != PLATFORM_ADMIN
  {
    assert PLATFORM_ADMIN[5] == 'p' && LEGACY_ROLES[i].to[5] == 'a';
  }

  // ----- Role bindings.

  function UsersOf(row: Row): string {
    if "users" in row then row["users"] else ""
  }

  predicate Seeded(roles: seq<RoleSpec>, name: string) {
    exists i :: 0 <= i < |roles| && roles[i].name == name
  }

  predicate BindsAdmin(args: Args, name: string) {
    name == PLATFORM_ADMIN && !args.skipAdminBinding
  }

  /** The users an upserted role ends with: the bound admin, else what it had, else nobody. */
  function UsersThen(args: Args, name: string, before: Option<Row>): string {
    if BindsAdmin(args, name) then JsonList([ScopedId(args.org, args.adminUser)])
    else if before.Some? then UsersOf(before.value)
    else JsonList([])
  }

  lemma UsersAfterUpsert(args: Args, role: RoleSpec, before: Option<Row>)
    ensures var after := RowStep(RoleUpsert(args, role), Role, (args.org, role.name), before);
            after.Some? && UsersOf(after.value) == UsersThen(args, role.name, before)
  {
    hide JsonItems;
    var s := RoleUpsert(args, role);
    assert "users" in s.values && s.values["users"] == UsersThen(args, role.name, None);
    assert "users" in s.update <==> Binds(args, role);
  }

  lemma {:induction false} UsersAfterUpserts(args: Args, roles: seq<RoleSpec>, name: string, before: Option<Row>)
    ensures var after := RowAfter(RoleUpserts(args, roles), Role, (args.org, name), before);
            if Seeded(roles, name) then after.Some? && UsersOf(after.value) == UsersThen(args, name, before)
            else after == before
  {
    hide RoleUpsert, UsersOf, JsonList, RowAfter;
    if Seeded(roles, name) {
      var n := |roles| - 1;
      var mid := RowAfter(RoleUpserts(args, roles[..n]), Role, (args.org, name), before);
      UsersAfterUpserts(args, roles[..n], name, before);
      RowAfterAppend(RoleUpserts(args, roles[..n]), [RoleUpsert(args, roles[n])], Role, (args.org, name), before);
      RowAfterOne(RoleUpsert(args, roles[n]), Role, (args.org, name), mid);
      if roles[n].name == name {
        UsersAfterUpsert(args, roles[n], mid);
      } else {
        var i :| 0 <= i < |roles| && roles[i].name == name;
        assert roles[..n][i].name == name;
        RoleUpsertKey(args, roles[n]);
      }
    } else {
      RoleUpsertsMiss(args, roles, (args.org, name), before);
    }
  }

  lemma RowAfterOne(s: Stmt, t: TableName, key: Key, o: Option<Row>)
    ensures RowAfter([s], t, key, o) == RowStep(s, t, key, o)
  {
  }

  lemma RoleUpsertKey(args: Args, role: RoleSpec)
    ensures RoleUpsert(args, role).Upsert? && RoleUpsert(args, role).key == (args.org, role.name)
  {
  }

  /** The role table at one key of the organization, from the cleaned table. */
  lemma FinalRole(args: Args, roles: seq<RoleSpec>, specs: seq<PermissionSpec>, db: Db, key: Key)
    ensures Find(Run(Program(args, roles, specs), db).role, key)
         == RowAfter(RoleUpserts(args, roles), Role, key, Find(RunTable(Clean(args), Role, db.role), key))
  {
    hide Program, Clean, RunTable;
    RunByTable(Program(args, roles, specs), db);
    RolesAndPermissionsByParts(args, roles, specs, Role, db.role);
    RoleUpsertsShape(args, roles);
    AllUpsertsTouch(RoleUpserts(args, roles), Role, Role);
    FindAfter(RoleUpserts(args, roles), Role, RunTable(Clean(args), Role, db.role), key);
  }

  /** With cleaning on, each AIHub role ends with its own users if it existed, else with the
      users of the SkillHub role it replaces, else with none; the SkillHub role is gone. */
  lemma CleanupKeepsBindings(args: Args, roles: seq<RoleSpec>, specs: seq<PermissionSpec>, db: Db, i: nat)
    requires args.cleanLegacy && i < |LEGACY_ROLES| && NoLegacyNames(roles)
    requires Seeded(roles, LEGACY_ROLES[i].to) && !BindsAdmin(args, LEGACY_ROLES[i].to)
    ensures var from, to, final := (args.org, LEGACY_ROLES[i].from), (args.org, LEGACY_ROLES[i].to),
                                   Run(Program(args, roles, specs), db).role;
      && from !in final && to in final
      && UsersOf(final[to]) == if to in db.role then UsersOf(db.role[to])
                               else if from in db.role then UsersOf(db.role[from])
                               else JsonList([])
  {
    hide LEGACY_ROLES, Program, RunTable, RoleUpserts, JsonItems, NoLegacyNames, Seeded, Cleaned, Clean, UsersOf, RenamedRow;
    var legacy := LEGACY_ROLES[i];
    CleanedRoles(args, db.role);
    CleanedAt(args.org, db.role, RunTable(Clean(args), Role, db.role), i);
    FinalRole(args, roles, specs, db, (args.org, legacy.from));
    FinalRole(args, roles, specs, db, (args.org, legacy.to));
    UpsertsMissLegacy(args, roles, legacy.from, None);
    UsersAfterUpserts(args, roles, legacy.to, RenamedRow(args.org, legacy, db.role));
    RenamedUsers(args.org, legacy, db.role);
  }

  lemma CleanedAt(org: string, table: Table, cleaned: Table, i: nat)
    requires Cleaned(org, table, cleaned) && i < |LEGACY_ROLES|
    ensures LEGACY_ROLES[i].from in LEGACY_ROLE_NAMES
    ensures Find(cleaned, (org, LEGACY_ROLES[i].from)) == None
    ensures Find(cleaned, (org, LEGACY_ROLES[i].to)) == RenamedRow(org, LEGACY_ROLES[i], table)
  {
  }

  /** A rename keeps the row's users. */
  lemma RenamedUsers(org: string, legacy: LegacyRole, table: Table)
    ensures var row, from, to := RenamedRow(org, legacy, table), (org, legacy.from), (org, legacy.to);
      if to in table then row.Some? && UsersOf(row.value) == UsersOf(table[to])
      else if from in table then row.Some? && UsersOf(row.value) == UsersOf(table[from])
      else row.None?
  {
  }

  /** A seeded role outside the renaming keeps its users, apart from the bound admin; any
      other row is left as it is. */
  lemma OtherBindings(args: Args, roles: seq<RoleSpec>, specs: seq<PermissionSpec>, db: Db, key: Key)
    requires args.cleanLegacy ==> !Named(args.org, LEGACY_ROLES, key)
    ensures var final := Run(Program(args, roles, specs), db).role;
      if key.0 == args.org && Seeded(roles, key.1)
      then key in final && UsersOf(final[key]) == UsersThen(args, key.1, Find(db.role, key))
      else Find(final, key) == Find(db.role, key)
  {
    hide LEGACY_ROLES, Program, RunTable, JsonItems;
    if args.cleanLegacy {
      CleanedRoles(args, db.role);
    } else {
      UntouchedRun([], Role, db.role);
    }
    FinalRole(args, roles, specs, db, key);
    if key.0 == args.org {
      UsersAfterUpserts(args, roles, key.1, Find(db.role, key));
    } else {
      RoleUpsertsMiss(args, roles, key, Find(db.role, key));
    }
  }
}
