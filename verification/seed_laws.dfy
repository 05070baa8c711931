/** Running the seed twice gives the tables of running it once. */
module SeedIdempotence {
  import opened SeedProgram
  import opened SeedTables
  import opened Wrappers

  predicate Touches(s: Stmt, t: TableName) {
    match s
    case Upsert(t', _, _, _) => t' == t
    case RenameRole(_, _, _, _, _) => t == Role
    case DeleteRows(t', _, _) => t' == t
    case _ => false
  }

  predicate Untouched(program: seq<Stmt>, t: TableName) {
    forall i :: 0 <= i < |program| ==> !Touches(program[i], t)
  }

  /** The only statements on the table are upserts, and they update columns they insert. */
  predicate UpsertsOnly(program: seq<Stmt>, t: TableName) {
    forall i :: 0 <= i < |program| && Touches(program[i], t) ==>
      program[i].Upsert? && program[i].update <= program[i].values.Keys
  }

  lemma {:induction false} UntouchedRun(program: seq<Stmt>, t: TableName, table: Table)
    requires Untouched(program, t)
    ensures RunTable(program, t, table) == table
  {
    if program != [] {
      assert !Touches(program[0], t);
      UntouchedRun(program[1..], t, table);
    }
  }

  function Find(table: Table, key: Key): Option<Row> {
    if key in table then Some(table[key]) else None
  }

  lemma SameTable(a: Table, b: Table)
    requires forall key :: Find(a, key) == Find(b, key)
    ensures a == b
  {
    forall key ensures key in a <==> key in b { assert Find(a, key) == Find(b, key); }
    forall key | key in a ensures a[key] == b[key] { assert Find(a, key) == Find(b, key); }
  }

  // ----- A list of upserts, one row at a time.

  predicate Hits(s: Stmt, t: TableName, key: Key) {
    s.Upsert? && s.table == t && s.key == key
  }

  function RowStep(s: Stmt, t: TableName, key: Key, o: Option<Row>): Option<Row> {
    if !Hits(s, t, key) then o
    else match o
      case None => Some(s.values)
      case Some(row) => Some(row + Restrict(s.values, s.update))
  }

  function RowAfter(program: seq<Stmt>, t: TableName, key: Key, o: Option<Row>): Option<Row> {
    if program == [] then o else RowAfter(program[1..], t, key, RowStep(program[0], t, key, o))
  }

  lemma {:induction false} FindAfter(program: seq<Stmt>, t: TableName, table: Table, key: Key)
    requires UpsertsOnly(program, t)
    ensures Find(RunTable(program, t, table), key) == RowAfter(program, t, key, Find(table, key))
  {
    if program != [] {
      var s := program[0];
      assert Touches(s, t) ==> s.Upsert?;
      assert Find(TableStep(s, t, table), key) == RowStep(s, t, key, Find(table, key));
      FindAfter(program[1..], t, TableStep(s, t, table), key);
    }
  }

  /** All that a list of upserts writes over an existing row; later statements win. */
  function Overwrites(program: seq<Stmt>, t: TableName, key: Key): Row {
    if program == [] then map[] else Writes(program[0], t, key) + Overwrites(program[1..], t, key)
  }

  lemma MergeAssociates(a: Row, b: Row, c: Row)
    ensures a + b + c == a + (b + c)
  {
  }

  lemma MergeEmpty(a: Row)
    ensures a + map[] == a && map[] + a == a
  {
  }

  function Writes(s: Stmt, t: TableName, key: Key): Row {
    if Hits(s, t, key) then Restrict(s.values, s.update) else map[]
  }

  lemma {:induction false} RowAfterSome(program: seq<Stmt>, t: TableName, key: Key, row: Row)
    ensures RowAfter(program, t, key, Some(row)) == Some(row + Overwrites(program, t, key))
  {
    hide Restrict;
    MergeEmpty(row);
    if program != [] {
      var first, rest := Writes(program[0], t, key), Overwrites(program[1..], t, key);
      RowAfterSome(program[1..], t, key, row + first);
      MergeAssociates(row, first, rest);
    }
  }

  lemma RewriteAbsorbed(values: Row, update: set<string>, later: Row)
    requires update <= values.Keys
    ensures values + later + (Restrict(values, update) + later) == values + later
  {
  }

  lemma {:induction false} RowAfterNone(program: seq<Stmt>, t: TableName, key: Key)
    requires UpsertsOnly(program, t)
    ensures var o := RowAfter(program, t, key, None);
            o.Some? ==> o.value + Overwrites(program, t, key) == o.value
  {
    if program != [] {
      var s, rest := program[0], program[1..];
      if Hits(s, t, key) {
        RowAfterSome(rest, t, key, s.values);
        assert Touches(s, t) && s.update <= s.values.Keys;
        RewriteAbsorbed(s.values, s.update, Overwrites(rest, t, key));
      } else {
        RowAfterNone(rest, t, key);
        MergeEmpty(Overwrites(rest, t, key));
      }
    }
  }

  lemma RowAfterTwice(program: seq<Stmt>, t: TableName, key: Key, o: Option<Row>)
    requires UpsertsOnly(program, t)
    ensures RowAfter(program, t, key, RowAfter(program, t, key, o)) == RowAfter(program, t, key, o)
  {
    var once := RowAfter(program, t, key, o);
    match o
    case None =>
      RowAfterNone(program, t, key);
      if once.Some? { RowAfterSome(program, t, key, once.value); }
    case Some(row) =>
      var w := Overwrites(program, t, key);
      RowAfterSome(program, t, key, row);
      RowAfterSome(program, t, key, row + w);
      assert row + w + w == row + w;
  }

  lemma UpsertsTwice(program: seq<Stmt>, t: TableName, table: Table)
    requires UpsertsOnly(program, t)
    ensures RunTable(program, t, RunTable(program, t, table)) == RunTable(program, t, table)
  {
    var once := RunTable(program, t, table);
    forall key ensures Find(RunTable(program, t, once), key) == Find(once, key) {
      FindAfter(program, t, table, key);
      FindAfter(program, t, once, key);
      RowAfterTwice(program, t, key, Find(table, key));
    }
    SameTable(RunTable(program, t, once), once);
  }

  // ----- The parts of the program.

  predicate AllUpserts(program: seq<Stmt>, t: TableName) {
    forall i :: 0 <= i < |program| ==>
      program[i].Upsert? && program[i].table == t && program[i].update <= program[i].values.Keys
  }

  lemma AllUpsertsTouch(program: seq<Stmt>, t: TableName, other: TableName)
    requires AllUpserts(program, t)
    ensures UpsertsOnly(program, other)
    ensures other != t ==> Untouched(program, other)
  {
  }

  lemma RoleUpsertShape(args: Args, role: RoleSpec)
    ensures AllUpserts([RoleUpsert(args, role)], Role)
  {
  }

  lemma {:induction false} RoleUpsertsShape(args: Args, roles: seq<RoleSpec>)
    ensures AllUpserts(RoleUpserts(args, roles), Role)
  {
    hide RoleUpsert;
    if roles != [] {
      var last := RoleUpsert(args, roles[|roles| - 1]);
      RoleUpsertShape(args, roles[|roles| - 1]);
      assert [last][0] == last;
      RoleUpsertsShape(args, roles[..|roles| - 1]);
    }
  }

  lemma PermissionUpsertShape(args: Args, p: PermissionSpec)
    ensures AllUpserts([PermissionUpsert(args, p)], Permission)
  {
  }

  lemma {:induction false} PermissionUpsertsShape(args: Args, specs: seq<PermissionSpec>)
    ensures AllUpserts(PermissionUpserts(args, specs), Permission)
  {
    hide PermissionUpsert;
    if specs != [] {
      var last := PermissionUpsert(args, specs[|specs| - 1]);
      PermissionUpsertShape(args, specs[|specs| - 1]);
      assert [last][0] == last;
      PermissionUpsertsShape(args, specs[..|specs| - 1]);
    }
  }

  function Clean(args: Args): seq<Stmt> {
    if args.cleanLegacy then CleanLegacy(args.org) else []
  }

  function ModelPart(args: Args): seq<Stmt> {
    [UpsertAll(Model, (args.org, args.model), args.modelRow)]
  }

  function RulesPart(args: Args, specs: seq<PermissionSpec>): seq<Stmt> {
    [DeleteRulesOf(GeneratedIds(args.org, specs))] + Inserts(SpecRules(args.org, specs)) + [SetForeignKeyChecks(true)]
  }

  /** The program on one table, part by part; the rule statements touch no keyed table. */
  lemma ProgramByParts(args: Args, roles: seq<RoleSpec>, specs: seq<PermissionSpec>, t: TableName, table: Table)
    ensures RunTable(Program(args, roles, specs), t, table)
         == RunTable(PermissionUpserts(args, specs), t,
            RunTable(RoleUpserts(args, roles), t,
            RunTable(ModelPart(args), t,
            RunTable(Clean(args), t,
            RunTable(Head(args), t, table)))))
  {
    hide CleanLegacy, GeneratedIds, Inserts, UpsertAll, RunTable, Program, RulesPart;
    var h, c, m, r, p := Head(args), Clean(args), ModelPart(args), RoleUpserts(args, roles), PermissionUpserts(args, specs);
    var x := RulesPart(args, specs);
    ProgramIsParts(args, roles, specs);
    RunTableAppend(h + c + m + r + p, x, t, table);
    RunTableAppend(h + c + m + r, p, t, table);
    RunTableAppend(h + c + m, r, t, table);
    RunTableAppend(h + c, m, t, table);
    RunTableAppend(h, c, t, table);
    RulesPartShape(args, specs, t);
    UntouchedRun(x, t, RunTable(h + c + m + r + p, t, table));
  }

  lemma RulesPartShape(args: Args, specs: seq<PermissionSpec>, t: TableName)
    ensures Untouched(RulesPart(args, specs), t)
  {
  }

  lemma CleanShape(args: Args, t: TableName)
    requires t != Role && t != Permission
    ensures Untouched(Clean(args), t)
  {
    RenamesShape(args.org, LEGACY_ROLES, t);
  }

  lemma {:induction false} RenamesShape(org: string, legacy: seq<LegacyRole>, t: TableName)
    requires t != Role
    ensures Untouched(Renames(org, legacy), t)
  {
    if legacy != [] {
      RenamesShape(org, legacy[..|legacy| - 1], t);
    }
  }

  /** The organization, application, user and model tables are only upserted. */
  lemma PlainTableTwice(args: Args, roles: seq<RoleSpec>, specs: seq<PermissionSpec>, t: TableName, table: Table)
    requires t != Role && t != Permission
    ensures RunTable(Program(args, roles, specs), t, RunTable(Program(args, roles, specs), t, table))
         == RunTable(Program(args, roles, specs), t, table)
  {
    var program := Head(args) + ModelPart(args);
    forall table': Table ensures RunTable(Program(args, roles, specs), t, table') == RunTable(program, t, table') {
      hide RunTable;
      ProgramByParts(args, roles, specs, t, table');
      RoleUpsertsShape(args, roles);
      AllUpsertsTouch(RoleUpserts(args, roles), Role, t);
      PermissionUpsertsShape(args, specs);
      AllUpsertsTouch(PermissionUpserts(args, specs), Permission, t);
      CleanShape(args, t);
      RunTableAppend(Head(args), ModelPart(args), t, table');
      UntouchedRun(Clean(args), t, RunTable(Head(args), t, table'));
      UntouchedRun(RoleUpserts(args, roles), t, RunTable(program, t, table'));
      UntouchedRun(PermissionUpserts(args, specs), t, RunTable(program, t, table'));
    }
    UpsertsTwice(program, t, table);
  }

  lemma DeleteKeysAt(table: Table, owner: string, names: seq<string>, key: Key)
    ensures Find(DeleteKeys(table, owner, names), key)
         == if key.0 == owner && key.1 in names then None else Find(table, key)
  {
  }

  lemma CleanPermissions(args: Args, table: Table)
    ensures RunTable(Clean(args), Permission, table)
         == if args.cleanLegacy then DeleteKeys(table, args.org, LEGACY_PERMISSIONS) else table
  {
    if args.cleanLegacy {
      CleanByParts(args, Permission, table);
      RenamesShape(args.org, LEGACY_ROLES, Permission);
      UntouchedRun(Renames(args.org, LEGACY_ROLES), Permission, table);
    }
  }

  lemma CleanRoles(args: Args, table: Table)
    ensures RunTable(Clean(args), Role, table)
         == if args.cleanLegacy
            then DeleteKeys(RunTable(Renames(args.org, LEGACY_ROLES), Role, table), args.org, LEGACY_ROLE_NAMES)
            else table
  {
    if args.cleanLegacy {
      CleanByParts(args, Role, table);
    }
  }

  lemma CleanByParts(args: Args, t: TableName, table: Table)
    requires args.cleanLegacy && (t == Role || t == Permission)
    ensures RunTable(Clean(args), t, table)
         == DeleteKeys(RunTable(Renames(args.org, LEGACY_ROLES), t, table), args.org,
                       if t == Role then LEGACY_ROLE_NAMES else LEGACY_PERMISSIONS)
  {
    hide Renames, ScopedIds;
    var renames := Renames(args.org, LEGACY_ROLES);
    var a := DeleteLegacyRules(ScopedIds(args.org, LEGACY_ROLE_NAMES), ScopedIds(args.org, LEGACY_PERMISSIONS));
    var b, c := DeleteRows(Permission, args.org, LEGACY_PERMISSIONS), DeleteRows(Role, args.org, LEGACY_ROLE_NAMES);
    RunTableAppend(renames, [a, b, c], t, table);
    var renamed := RunTable(renames, t, table);
    assert [a, b, c][1..] == [b, c] && [b, c][1..] == [c] && [c][1..] == [];
    assert RunTable([c], t, TableStep(b, t, renamed)) == TableStep(c, t, TableStep(b, t, renamed));
    assert RunTable([b, c], t, renamed) == RunTable([c], t, TableStep(b, t, renamed));
  }

  /** Head and model statements leave the role and permission tables alone. */
  lemma RolesAndPermissionsByParts(args: Args, roles: seq<RoleSpec>, specs: seq<PermissionSpec>, t: TableName, table: Table)
    requires t == Role || t == Permission
    ensures RunTable(Program(args, roles, specs), t, table)
         == RunTable(if t == Role then RoleUpserts(args, roles) else PermissionUpserts(args, specs), t,
                     RunTable(Clean(args), t, table))
  {
    hide RunTable, Clean, RoleUpsert, PermissionUpsert;
    ProgramByParts(args, roles, specs, t, table);
    UntouchedRun(Head(args), t, table);
    UntouchedRun(ModelPart(args), t, RunTable(Clean(args), t, table));
    RoleUpsertsShape(args, roles);
    PermissionUpsertsShape(args, specs);
    AllUpsertsTouch(RoleUpserts(args, roles), Role, t);
    AllUpsertsTouch(PermissionUpserts(args, specs), Permission, t);
    if t == Permission {
      UntouchedRun(RoleUpserts(args, roles), t, RunTable(Clean(args), t, table));
    } else {
      UntouchedRun(PermissionUpserts(args, specs), t, RunTable(RoleUpserts(args, roles), t, RunTable(Clean(args), t, table)));
    }
  }

  lemma PermissionsTwice(args: Args, roles: seq<RoleSpec>, specs: seq<PermissionSpec>, table: Table)
    ensures RunTable(Program(args, roles, specs), Permission, RunTable(Program(args, roles, specs), Permission, table))
         == RunTable(Program(args, roles, specs), Permission, table)
  {
    hide RunTable, Program, DeleteKeys, Clean;
    var program, upserts := Program(args, roles, specs), PermissionUpserts(args, specs);
    var once := RunTable(program, Permission, table);
    var clean1, clean2 := RunTable(Clean(args), Permission, table), RunTable(Clean(args), Permission, once);
    RolesAndPermissionsByParts(args, roles, specs, Permission, table);
    RolesAndPermissionsByParts(args, roles, specs, Permission, once);
    CleanPermissions(args, table);
    CleanPermissions(args, once);
    PermissionUpsertsShape(args, specs);
    AllUpsertsTouch(upserts, Permission, Permission);
    forall key ensures Find(RunTable(upserts, Permission, clean2), key) == Find(once, key) {
      FindAfter(upserts, Permission, clean1, key);
      FindAfter(upserts, Permission, clean2, key);
      RowAfterTwice(upserts, Permission, key, Find(clean1, key));
      DeleteKeysAt(table, args.org, LEGACY_PERMISSIONS, key);
      DeleteKeysAt(once, args.org, LEGACY_PERMISSIONS, key);
    }
    SameTable(RunTable(upserts, Permission, clean2), once);
  }

  // ----- The role table: renames, deletions, upserts.

  /** No old name is a new name, and no name occurs twice. */
  predicate NamesApart(legacy: seq<LegacyRole>) {
    && (forall i, j :: 0 <= i < |legacy| && 0 <= j < |legacy| ==> legacy[i].from != legacy[j].to)
    && (forall i, j :: 0 <= i < j < |legacy| ==> legacy[i].from != legacy[j].from && legacy[i].to != legacy[j].to)
  }

  function Renamed(row: Row, legacy: LegacyRole): Row {
    row + map["display_name" := legacy.display, "description" := legacy.desc]
  }

  predicate Named(org: string, legacy: seq<LegacyRole>, key: Key) {
    exists i :: 0 <= i < |legacy| && (key == (org, legacy[i].from) || key == (org, legacy[i].to))
  }

  lemma RenameAt(table: Table, from: Key, to: Key, display: string, desc: string, key: Key)
    ensures Find(Rename(table, from, to, display, desc), key)
         == if !(from in table && to !in table) then Find(table, key)
            else if key == to then Some(table[from] + map["display_name" := display, "description" := desc])
            else if key == from then None
            else Find(table, key)
  {
  }

  /** What the renames leave under a new name: its own row, else the old name's row. */
  function RenamedRow(org: string, legacy: LegacyRole, table: Table): Option<Row> {
    if (org, legacy.to) in table then Some(table[(org, legacy.to)])
    else if (org, legacy.from) in table then Some(Renamed(table[(org, legacy.from)], legacy))
    else None
  }

  ghost predicate RenamesDone(org: string, legacy: seq<LegacyRole>, table: Table, renamed: Table) {
    && (forall key :: !Named(org, legacy, key) ==> Find(renamed, key) == Find(table, key))
    && (forall i :: 0 <= i < |legacy| ==>
         Find(renamed, (org, legacy[i].to)) == RenamedRow(org, legacy[i], table))
  }

  lemma RenameOneMore(org: string, legacy: seq<LegacyRole>, table: Table, renamed: Table)
    requires legacy != [] && NamesApart(legacy)
    requires RenamesDone(org, legacy[..|legacy| - 1], table, renamed)
    ensures var last := legacy[|legacy| - 1];
            RenamesDone(org, legacy, table, Rename(renamed, (org, last.from), (org, last.to), last.display, last.desc))
  {
    var n := |legacy| - 1;
    var before, last := legacy[..n], legacy[n];
    var from, to := (org, last.from), (org, last.to);
    var after := Rename(renamed, from, to, last.display, last.desc);
    assert !Named(org, before, from) && !Named(org, before, to);
    assert Find(renamed, from) == Find(table, from) && Find(renamed, to) == Find(table, to);
    forall key | !Named(org, legacy, key) ensures Find(after, key) == Find(table, key) {
      assert key != (org, legacy[n].from) && key != (org, legacy[n].to);
      assert !Named(org, before, key);
      RenameAt(renamed, from, to, last.display, last.desc, key);
    }
    forall i | 0 <= i < |legacy| ensures Find(after, (org, legacy[i].to)) == RenamedRow(org, legacy[i], table) {
      RenameAt(renamed, from, to, last.display, last.desc, (org, legacy[i].to));
      if i < n { assert before[i] == legacy[i]; }
    }
  }

  /** The renames keep an existing new role, else give it the old role's row. */
  lemma {:induction false} RenamesAt(org: string, legacy: seq<LegacyRole>, table: Table)
    requires NamesApart(legacy)
    ensures RenamesDone(org, legacy, table, RunTable(Renames(org, legacy), Role, table))
  {
    if legacy != [] {
      var before, last := legacy[..|legacy| - 1], legacy[|legacy| - 1];
      RenamesAt(org, before, table);
      RenameOneMore(org, legacy, table, RunTable(Renames(org, before), Role, table));
      hide RenamesDone, Rename;
      RunTableAppend(Renames(org, before), [RenameRole(org, last.from, last.to, last.display, last.desc)], Role, table);
    }
  }

  lemma LegacyNames()
    ensures NamesApart(LEGACY_ROLES)
    ensures forall i :: 0 <= i < |LEGACY_ROLES| ==> LEGACY_ROLES[i].to !in LEGACY_ROLE_NAMES
  {
    assert forall i :: 0 <= i < |LEGACY_ROLES| ==> LEGACY_ROLES[i].from[5] == 's' && LEGACY_ROLES[i].to[5] == 'a';
    assert LEGACY_ROLES[0].from[14] == 'a' && LEGACY_ROLES[0].to[11] == 'a';
    assert LEGACY_ROLES[1].from[14] == 'e' && LEGACY_ROLES[1].to[11] == 'e';
    assert LEGACY_ROLES[2].from[14] == 'v' && LEGACY_ROLES[2].to[11] == 'v';
  }

  /** The cleaned role table: no legacy name is left, new names get RenamedRow. */
  ghost predicate Cleaned(org: string, table: Table, cleaned: Table) {
    && (forall key :: !Named(org, LEGACY_ROLES, key) ==> Find(cleaned, key) == Find(table, key))
    && (forall i :: 0 <= i < |LEGACY_ROLES| ==>
         Find(cleaned, (org, LEGACY_ROLES[i].to)) == RenamedRow(org, LEGACY_ROLES[i], table))
    && (forall n :: n in LEGACY_ROLE_NAMES ==> (org, n) !in cleaned)
  }

  lemma CleanedRoles(args: Args, table: Table)
    requires args.cleanLegacy
    ensures Cleaned(args.org, table, RunTable(Clean(args), Role, table))
  {
    var renamed := RunTable(Renames(args.org, LEGACY_ROLES), Role, table);
    LegacyNames();
    RenamesAt(args.org, LEGACY_ROLES, table);
    CleanRoles(args, table);
    hide NamesApart, Renamed, RunTable;
    forall key { DeleteKeysAt(renamed, args.org, LEGACY_ROLE_NAMES, key); }
  }

  /** Cleaning changes nothing in a table without legacy names. */
  lemma CleanedIsSame(org: string, table: Table, cleaned: Table)
    requires Cleaned(org, table, cleaned)
    requires forall n :: n in LEGACY_ROLE_NAMES ==> (org, n) !in table
    ensures cleaned == table
  {
    forall key ensures Find(cleaned, key) == Find(table, key) {
      if Named(org, LEGACY_ROLES, key) {
        var i :| 0 <= i < |LEGACY_ROLES| && (key == (org, LEGACY_ROLES[i].from) || key == (org, LEGACY_ROLES[i].to));
        assert LEGACY_ROLES[i].from in LEGACY_ROLE_NAMES;
      }
    }
    SameTable(cleaned, table);
  }

  predicate NoLegacyNames(roles: seq<RoleSpec>) {
    forall i :: 0 <= i < |roles| ==> roles[i].name !in LEGACY_ROLE_NAMES
  }

  lemma {:induction false} UpsertsMissLegacy(args: Args, roles: seq<RoleSpec>, n: string, o: Option<Row>)
    requires NoLegacyNames(roles) && n in LEGACY_ROLE_NAMES
    ensures RowAfter(RoleUpserts(args, roles), Role, (args.org, n), o) == o
  {
    hide LEGACY_ROLES;
    RoleUpsertsMiss(args, roles, (args.org, n), o);
  }

  /** Upserts of other keys leave a row as it is. */
  lemma {:induction false} RoleUpsertsMiss(args: Args, roles: seq<RoleSpec>, key: Key, o: Option<Row>)
    requires forall i :: 0 <= i < |roles| ==> key != (args.org, roles[i].name)
    ensures RowAfter(RoleUpserts(args, roles), Role, key, o) == o
  {
    if roles != [] {
      var n := |roles| - 1;
      RoleUpsertsMiss(args, roles[..n], key, o);
      RowAfterAppend(RoleUpserts(args, roles[..n]), [RoleUpsert(args, roles[n])], Role, key, o);
    }
  }

  lemma {:induction false} RowAfterAppend(a: seq<Stmt>, b: seq<Stmt>, t: TableName, key: Key, o: Option<Row>)
    ensures RowAfter(a + b, t, key, o) == RowAfter(b, t, key, RowAfter(a, t, key, o))
  {
    if a == [] {
      assert a + b == b;
    } else {
      assert (a + b)[1..] == a[1..] + b;
      RowAfterAppend(a[1..], b, t, key, RowStep(a[0], t, key, o));
    }
  }

  lemma RolesTwice(args: Args, roles: seq<RoleSpec>, specs: seq<PermissionSpec>, table: Table)
    requires NoLegacyNames(roles)
    ensures RunTable(Program(args, roles, specs), Role, RunTable(Program(args, roles, specs), Role, table))
         == RunTable(Program(args, roles, specs), Role, table)
  {
    hide RunTable, Program, RoleUpserts, LEGACY_ROLES, Cleaned;
    var upserts := RoleUpserts(args, roles);
    var clean := RunTable(Clean(args), Role, table);
    var once := RunTable(upserts, Role, clean);
    RolesAndPermissionsByParts(args, roles, specs, Role, table);
    RolesAndPermissionsByParts(args, roles, specs, Role, once);
    RoleUpsertsShape(args, roles);
    AllUpsertsTouch(upserts, Role, Role);
    if args.cleanLegacy {
      CleanedRoles(args, table);
      CleanedRoles(args, once);
      forall n | n in LEGACY_ROLE_NAMES ensures (args.org, n) !in once {
        LegacyGone(args.org, table, clean, n);
        FindAfter(upserts, Role, clean, (args.org, n));
        UpsertsMissLegacy(args, roles, n, None);
      }
      CleanedIsSame(args.org, once, RunTable(Clean(args), Role, once));
    } else {
      UntouchedRun([], Role, once);
    }
    UpsertsTwice(upserts, Role, clean);
  }

  lemma LegacyGone(org: string, table: Table, cleaned: Table, n: string)
    requires Cleaned(org, table, cleaned) && n in LEGACY_ROLE_NAMES
    ensures (org, n) !in cleaned
  {
  }

  // ----- The permission rules.

  predicate TouchesRules(s: Stmt) {
    s.DeleteLegacyRules? || s.DeleteRulesOf? || s.InsertRule?
  }

  lemma {:induction false} RulesUntouched(program: seq<Stmt>, rules: multiset<Rule>)
    requires forall i :: 0 <= i < |program| ==> !TouchesRules(program[i])
    ensures RunRules(program, rules) == rules
  {
    if program != [] {
      RulesUntouched(program[1..], rules);
    }
  }

  lemma {:induction false} RulesInserted(inserted: seq<Rule>, rules: multiset<Rule>)
    ensures RunRules(Inserts(inserted), rules) == rules + multiset(inserted)
  {
    if inserted != [] {
      assert Inserts(inserted)[1..] == Inserts(inserted[1..]);
      assert inserted == [inserted[0]] + inserted[1..];
      RulesInserted(inserted[1..], rules + multiset{inserted[0]});
    }
  }

  ghost function NotLegacy(args: Args, rules: multiset<Rule>): multiset<Rule> {
    if args.cleanLegacy
    then Where(rules, r => !LegacyRule(r, ScopedIds(args.org, LEGACY_ROLE_NAMES), ScopedIds(args.org, LEGACY_PERMISSIONS)))
    else rules
  }

  ghost function NotGenerated(args: Args, specs: seq<PermissionSpec>, rules: multiset<Rule>): multiset<Rule> {
    Where(rules, (r: Rule) => r.v5 !in GeneratedIds(args.org, specs))
  }

  lemma {:induction false} RenamesKeepRules(org: string, legacy: seq<LegacyRole>)
    ensures forall i :: 0 <= i < |Renames(org, legacy)| ==> !TouchesRules(Renames(org, legacy)[i])
  {
    if legacy != [] {
      RenamesKeepRules(org, legacy[..|legacy| - 1]);
    }
  }

  lemma CleanRules(args: Args, rules: multiset<Rule>)
    ensures RunRules(Clean(args), rules) == NotLegacy(args, rules)
  {
    hide LEGACY_ROLES, ScopedIds, Where;
    if args.cleanLegacy {
      var renames := Renames(args.org, LEGACY_ROLES);
      var a := DeleteLegacyRules(ScopedIds(args.org, LEGACY_ROLE_NAMES), ScopedIds(args.org, LEGACY_PERMISSIONS));
      var b, c := DeleteRows(Permission, args.org, LEGACY_PERMISSIONS), DeleteRows(Role, args.org, LEGACY_ROLE_NAMES);
      RunRulesAppend(renames, [a, b, c], rules);
      RenamesKeepRules(args.org, LEGACY_ROLES);
      RulesUntouched(renames, rules);
      assert [a, b, c] == [a] + [b, c];
      RunRulesAppend([a], [b, c], rules);
      RulesUntouched([b, c], RunRules([a], rules));
    }
  }

  lemma UpsertsKeepRules(program: seq<Stmt>, t: TableName)
    requires AllUpserts(program, t)
    ensures forall i :: 0 <= i < |program| ==> !TouchesRules(program[i])
  {
  }

  lemma RulesPartRules(args: Args, specs: seq<PermissionSpec>, rules: multiset<Rule>)
    ensures RunRules(RulesPart(args, specs), rules)
         == NotGenerated(args, specs, rules) + multiset(SpecRules(args.org, specs))
  {
    hide Inserts, SpecRules, GeneratedIds, Where;
    var d, i, s := DeleteRulesOf(GeneratedIds(args.org, specs)), Inserts(SpecRules(args.org, specs)), SetForeignKeyChecks(true);
    RunRulesAppend([d] + i, [s], rules);
    RunRulesAppend([d], i, rules);
    RulesInserted(SpecRules(args.org, specs), RunRules([d], rules));
    assert RunRules([d], rules) == RulesStep(d, rules) == NotGenerated(args, specs, rules);
  }

  /** What the whole program leaves in permission_rule. */
  lemma ProgramRules(args: Args, roles: seq<RoleSpec>, specs: seq<PermissionSpec>, rules: multiset<Rule>)
    ensures RunRules(Program(args, roles, specs), rules)
         == NotGenerated(args, specs, NotLegacy(args, rules)) + multiset(SpecRules(args.org, specs))
  {
    hide Program, RulesPart, CleanLegacy, GeneratedIds, Inserts, UpsertAll, RunRules, NotGenerated, NotLegacy, Clean;
    var h, c, m, r, p := Head(args), Clean(args), ModelPart(args), RoleUpserts(args, roles), PermissionUpserts(args, specs);
    var x := RulesPart(args, specs);
    ProgramIsParts(args, roles, specs);
    RunRulesAppend(h + c + m + r + p, x, rules);
    RunRulesAppend(h + c + m + r, p, rules);
    RunRulesAppend(h + c + m, r, rules);
    RunRulesAppend(h + c, m, rules);
    RunRulesAppend(h, c, rules);
    HeadKeepsRules(args, rules);
    CleanRules(args, rules);
    RoleUpsertsShape(args, roles);
    PermissionUpsertsShape(args, specs);
    UpsertsKeepRules(r, Role);
    UpsertsKeepRules(p, Permission);
    RulesUntouched(r, NotLegacy(args, rules));
    RulesUntouched(p, NotLegacy(args, rules));
    RulesPartRules(args, specs, NotLegacy(args, rules));
  }

  lemma HeadKeepsRules(args: Args, rules: multiset<Rule>)
    ensures RunRules(Head(args), rules) == rules
    ensures forall rules' :: RunRules(ModelPart(args), rules') == rules'
  {
    RulesUntouched(Head(args), rules);
    forall rules' { RulesUntouched(ModelPart(args), rules'); }
  }

  lemma ProgramIsParts(args: Args, roles: seq<RoleSpec>, specs: seq<PermissionSpec>)
    ensures Program(args, roles, specs)
         == Head(args) + Clean(args) + ModelPart(args) + RoleUpserts(args, roles) + PermissionUpserts(args, specs)
            + RulesPart(args, specs)
  {
    hide Head, CleanLegacy, RoleUpserts, PermissionUpserts, GeneratedIds, Inserts, UpsertAll;
    var q := Head(args) + Clean(args) + ModelPart(args) + RoleUpserts(args, roles) + PermissionUpserts(args, specs);
    var d, i, s := [DeleteRulesOf(GeneratedIds(args.org, specs))], Inserts(SpecRules(args.org, specs)), [SetForeignKeyChecks(true)];
    assert q + d + i + s == q + (d + i + s);
  }
}
