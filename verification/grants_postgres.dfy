/** The Postgres grant service (internal/iam/postgres.go).  Its table is a list of rows in no
    particular order; a row carries the serial number that breaks ties in the ordering. */
module GrantsPostgres {
  import opened Grants
  import opened Paging
  import opened Text
  import opened Wrappers

  datatype Row = Row(serial: nat, grant: Grant)

  datatype Query = Query(app: string, orgId: string, projectId: string, resourceType: string, resourceId: string,
                         obj: string, subjectType: string, subjectId: string, limit: int, offset: int)

  datatype Column = App | OrgId | ProjectId | ResourceType | ResourceId | Object | SubjectType | SubjectId

  /** A condition "column = value" of a WHERE clause. */
  datatype Clause = Clause(column: Column, value: string)

  function ColumnOf(g: Grant, c: Column): string {
    match c
    case App => g.app
    case OrgId => g.orgId
    case ProjectId => g.projectId
    case ResourceType => g.resourceType
    case ResourceId => g.resourceId
    case Object => g.obj
    case SubjectType => g.subjectType
    case SubjectId => g.subjectId
  }

  function Add(clauses: seq<Clause>, c: Column, v: string): seq<Clause> {
    if TrimSpace(v) == "" then clauses else clauses + [Clause(c, TrimSpace(v))]
  }

  predicate Holds(clauses: seq<Clause>, g: Grant) {
    forall i :: 0 <= i < |clauses| ==> ColumnOf(g, clauses[i].column) == clauses[i].value
  }

  /** A blank filter lets every grant through, any other one only the grants equal to it. */
  predicate Passes(v: string, column: string) {
    TrimSpace(v) == "" || column == TrimSpace(v)
  }

  predicate MatchesQuery(q: Query, g: Grant) {
    && Passes(Normalize(q.app), g.app) && Passes(q.orgId, g.orgId) && Passes(q.projectId, g.projectId)
    && Passes(Normalize(q.resourceType), g.resourceType) && Passes(q.resourceId, g.resourceId) && Passes(q.obj, g.obj)
    && Passes(Normalize(q.subjectType), g.subjectType) && Passes(q.subjectId, g.subjectId)
  }

  lemma AddHolds(clauses: seq<Clause>, c: Column, v: string, g: Grant)
    ensures Holds(Add(clauses, c, v), g) <==> Holds(clauses, g) && Passes(v, ColumnOf(g, c))
  {
    hide TrimSpace;
    if TrimSpace(v) != "" {
      var added := Add(clauses, c, v);
      assert added[|clauses|] == Clause(c, TrimSpace(v));
      assert forall i :: 0 <= i < |clauses| ==> added[i] == clauses[i];
    }
  }

  /** pgGrantWhere: its conditions hold of exactly the grants that match the query. */
  method PgGrantWhere(q: Query) returns (clauses: seq<Clause>)
    ensures forall g :: Holds(clauses, g) <==> MatchesQuery(q, g)
  {
    hide Holds, Add, Passes, Normalize;
    var c0: seq<Clause> := [];
    var c1 := Add(c0, App, Normalize(q.app));
    var c2 := Add(c1, OrgId, q.orgId);
    var c3 := Add(c2, ProjectId, q.projectId);
    var c4 := Add(c3, ResourceType, Normalize(q.resourceType));
    var c5 := Add(c4, ResourceId, q.resourceId);
    var c6 := Add(c5, Object, q.obj);
    var c7 := Add(c6, SubjectType, Normalize(q.subjectType));
    clauses := Add(c7, SubjectId, q.subjectId);
    forall g ensures Holds(clauses, g) <==> MatchesQuery(q, g) {
      NoneHolds(g);
      AddHolds(c0, App, Normalize(q.app), g);
      AddHolds(c1, OrgId, q.orgId, g);
      AddHolds(c2, ProjectId, q.projectId, g);
      AddHolds(c3, ResourceType, Normalize(q.resourceType), g);
      AddHolds(c4, ResourceId, q.resourceId, g);
      AddHolds(c5, Object, q.obj, g);
      AddHolds(c6, SubjectType, Normalize(q.subjectType), g);
      AddHolds(c7, SubjectId, q.subjectId, g);
    }
  }

  lemma NoneHolds(g: Grant)
    ensures Holds([], g)
  {
  }

  // ----- ORDER BY updated_at DESC, id DESC.

  predicate Precedes(a: Row, b: Row) {
    a.grant.updatedAt > b.grant.updatedAt || (a.grant.updatedAt == b.grant.updatedAt && a.serial > b.serial)
  }

  function Select(rows: seq<Row>, q: Query): seq<Row> {
    if rows == [] then []
    else (if MatchesQuery(q, rows[0].grant) then [rows[0]] else []) + Select(rows[1..], q)
  }

  function Insert(row: Row, rows: seq<Row>): seq<Row> {
    if rows == [] || Precedes(row, rows[0]) then [row] + rows else [rows[0]] + Insert(row, rows[1..])
  }

  function OrderRows(rows: seq<Row>): seq<Row> {
    if rows == [] then [] else Insert(rows[0], OrderRows(rows[1..]))
  }

  function GrantsOf(rows: seq<Row>): (r: seq<Grant>)
    ensures |r| == |rows| && forall i :: 0 <= i < |rows| ==> r[i] == rows[i].grant
  {
    seq(|rows|, i requires 0 <= i < |rows| => rows[i].grant)
  }

  function Limit(q: Query): nat {
    if q.limit <= 0 || q.limit > 500 then 100 else q.limit
  }

  function Offset(q: Query): nat {
    if q.offset < 0 then 0 else q.offset
  }

  datatype Listing = Listing(items: seq<Grant>, total: nat)

  function List(rows: seq<Row>, q: Query): Listing {
    var selected := Select(rows, q);
    Listing(GrantsOf(Slice(OrderRows(selected), Offset(q), Limit(q))), |selected|)
  }

  /** The query CheckResourceGrant makes for a decision it is working on. */
  function QueryFor(d: Decision): Query {
    Query(d.app, "", "", d.resourceType, d.resourceId, "", "", "", 500, 0)
  }

  function Check(rows: seq<Row>, req: Request, now: int): Decision {
    Scan(List(rows, QueryFor(Start(req))).items, req, now)
  }

  // ----- Saving.

  /** What reading a row gives back for a saved grant: no blank creator, no negative times. */
  function StoredGrant(g: Grant, now: int): Grant {
    g.(createdBy := if TrimSpace(g.createdBy) == "" then "" else g.createdBy,
       expiresAt := if g.expiresAt <= 0 then 0 else g.expiresAt,
       createdAt := if g.createdAt <= 0 then now else g.createdAt,
       updatedAt := if g.updatedAt <= 0 then now else g.updatedAt)
  }

  function IndexOf(rows: seq<Row>, id: string): (i: nat)
    ensures i <= |rows|
    ensures i < |rows| ==> rows[i].grant.id == id
    ensures forall k :: 0 <= k < i ==> rows[k].grant.id != id
  {
    if rows == [] then 0 else if rows[0].grant.id == id then 0 else 1 + IndexOf(rows[1..], id)
  }

  /** Grant ids and serial numbers are unique. */
  predicate ValidRows(rows: seq<Row>, next: nat) {
    && (forall i :: 0 <= i < |rows| ==> rows[i].serial < next)
    && (forall i, j :: 0 <= i < j < |rows| ==> rows[i].serial != rows[j].serial && rows[i].grant.id != rows[j].grant.id)
  }

  lemma RemoveKeepsValid(rows: seq<Row>, next: nat, i: nat)
    requires ValidRows(rows, next) && i < |rows|
    ensures ValidRows(rows[..i] + rows[i + 1..], next)
  {
  }

  /** The rows whose grants satisfy the conditions, in table order. */
  method SelectRows(rows: seq<Row>, clauses: seq<Clause>, ghost q: Query) returns (selected: seq<Row>)
    requires forall g :: Holds(clauses, g) <==> MatchesQuery(q, g)
    ensures selected == Select(rows, q)
  {
    hide MatchesQuery, Holds;
    selected := [];
    for i := 0 to |rows|
      invariant selected + Select(rows[i..], q) == Select(rows, q)
    {
      assert rows[i..][1..] == rows[i + 1..];
      if Holds(clauses, rows[i].grant) {
        selected := selected + [rows[i]];
      }
    }
  }

  class PostgresService {
    var rows: seq<Row>
    var nextSerial: nat

    predicate Valid()
      reads this
    {
      ValidRows(rows, nextSerial)
    }

    constructor ()
      ensures Valid() && rows == []
    {
      rows, nextSerial := [], 1;
    }

    /** INSERT ... ON CONFLICT (grant_id) DO UPDATE: an update keeps the row's creation time. */
    method SaveResourceGrant(g: Grant, freshId: string, now: int) returns (saved: Grant)
      requires Valid()
      modifies this
      ensures Valid()
      ensures saved == Prepared(g, freshId, now)
      ensures var i := IndexOf(old(rows), saved.id);
        if i < |old(rows)|
        then rows == old(rows)[i := Row(old(rows)[i].serial, StoredGrant(saved, now).(createdAt := old(rows)[i].grant.createdAt))]
        else rows == old(rows) + [Row(old(nextSerial), StoredGrant(saved, now))]
    {
      saved := PrepareGrantForSave(g, freshId, now);
      hide Prepared;
      var stored := StoredGrant(saved, now);
      var i := IndexOf(rows, saved.id);
      if i < |rows| {
        rows := rows[i := Row(rows[i].serial, stored.(createdAt := rows[i].grant.createdAt))];
      } else {
        rows, nextSerial := rows + [Row(nextSerial, stored)], nextSerial + 1;
      }
    }

    method DeleteResourceGrant(id: string)
      requires Valid()
      modifies this
      ensures Valid()
      ensures var i := IndexOf(old(rows), TrimSpace(id));
        rows == if i < |old(rows)| then old(rows)[..i] + old(rows)[i + 1..] else old(rows)
    {
      hide TrimSpace;
      var i := IndexOf(rows, TrimSpace(id));
      if i < |rows| {
        RemoveKeepsValid(rows, nextSerial, i);
        rows := rows[..i] + rows[i + 1..];
      }
    }

    method ListResourceGrants(q: Query) returns (r: Listing)
      ensures r == List(rows, q)
    {
      hide Holds, Select, OrderRows;
      var clauses := PgGrantWhere(q);
      var selected := SelectRows(rows, clauses, q);
      var limit := if q.limit <= 0 || q.limit > 500 then 100 else q.limit;
      var offset := if q.offset < 0 then 0 else q.offset;
      r := Listing(GrantsOf(Slice(OrderRows(selected), offset, limit)), |selected|);
    }

    method CheckResourceGrant(req: Request, now: int) returns (d: Decision)
      ensures d == Check(rows, req, now)
    {
      hide Start, Applies, List;
      d := Start(req);
      if d.action == "" {
        return d.(reason := "missing_action");
      }
      var listing := ListResourceGrants(QueryFor(d));
      var items := listing.items;
      for i := 0 to |items|
        invariant FirstApplying(items, req, now) == FirstApplying(items[i..], req, now)
      {
        var g := items[i];
        assert items[i..][1..] == items[i + 1..];
        if Applies(g, req, now) {
          d := d.(matched := Some(g), allow := Lower(g.effect) != "deny");
          d := d.(reason := if d.allow then "matched_resource_grant" else "denied_by_resource_grant");
          return d;
        }
      }
    }
  }
}

/** The prefiltered check decides as a full scan, and prefers the grant updated last. */
module PostgresAgreement {
  import opened GrantOrders
  import opened GrantRights
  import opened GrantSaving
  import opened Grants
  import opened GrantsPostgres
  import opened Paging
  import opened Text
  import opened Wrappers

  predicate Ordered(rows: seq<Row>) {
    forall i, j :: 0 <= i < j < |rows| ==> !Precedes(rows[j], rows[i])
  }

  lemma {:induction false} InsertOrders(row: Row, rows: seq<Row>)
    requires Ordered(rows)
    ensures Ordered(Insert(row, rows)) && multiset(Insert(row, rows)) == multiset(rows) + multiset{row}
  {
    if rows == [] || Precedes(row, rows[0]) {
      InsertHead(row, rows);
    } else {
      InsertOrders(row, rows[1..]);
      InsertTail(row, rows, Insert(row, rows[1..]));
    }
  }

  lemma InsertHead(row: Row, rows: seq<Row>)
    requires Ordered(rows) && (rows == [] || Precedes(row, rows[0]))
    ensures Ordered([row] + rows)
  {
  }

  lemma InsertTail(row: Row, rows: seq<Row>, rest: seq<Row>)
    requires rows != [] && Ordered(rows) && !Precedes(row, rows[0])
    requires Ordered(rest) && multiset(rest) == multiset(rows[1..]) + multiset{row}
    ensures Ordered([rows[0]] + rest) && multiset([rows[0]] + rest) == multiset(rows) + multiset{row}
  {
    assert rows == [rows[0]] + rows[1..];
    var all := [rows[0]] + rest;
    forall i, j | 0 <= i < j < |all| ensures !Precedes(all[j], all[i]) {
      if i == 0 {
        var x := rest[j - 1];
        assert x in multiset(rest);
        if x != row {
          assert x in rows[1..];
          var k :| 0 <= k < |rows[1..]| && rows[1..][k] == x;
          assert !Precedes(rows[k + 1], rows[0]);
        }
      } else {
        assert !Precedes(rest[j - 1], rest[i - 1]);
      }
    }
  }

  lemma {:induction false} OrderRowsOrders(rows: seq<Row>)
    ensures Ordered(OrderRows(rows)) && multiset(OrderRows(rows)) == multiset(rows)
  {
    if rows != [] {
      OrderRowsOrders(rows[1..]);
      InsertOrders(rows[0], OrderRows(rows[1..]));
      assert rows == [rows[0]] + rows[1..];
    }
  }

  lemma {:induction false} SelectExact(rows: seq<Row>, q: Query, row: Row)
    ensures row in Select(rows, q) <==> row in rows && MatchesQuery(q, row.grant)
  {
    hide MatchesQuery;
    if rows != [] {
      SelectExact(rows[1..], q, row);
      assert rows == [rows[0]] + rows[1..];
    }
  }

  /** A grant on one concrete resource, as saving derives its object. */
  predicate Concrete(g: Grant) {
    && g.app != "" && g.app != "*" && ':' !in g.app && Normalize(g.app) == g.app
    && g.resourceType != "" && ':' !in g.resourceType && Normalize(g.resourceType) == g.resourceType
    && g.resourceId != "" && g.resourceId != "*" && Trimmed(g.resourceId, GO_SPACE) && !HasSuffix(g.resourceId, ":*")
    && g.obj == PrintObject(g.app, g.resourceType, g.resourceId)
  }

  /** Saving a grant on one resource without an object of its own stores a concrete one. */
  lemma SavedIsConcrete(g: Grant, freshId: string, now: int)
    requires TrimSpace(g.obj) == "" && Normalize(g.app) != "*" && ':' !in Normalize(g.app)
    requires Normalize(g.resourceType) != "" && ':' !in Normalize(g.resourceType)
    requires var id := TrimSpace(g.resourceId); id != "" && id != "*" && !HasSuffix(id, ":*")
    ensures Concrete(Prepared(g, freshId, now))
  {
    NormalizeTwice(g.app);
    NormalizeTwice(g.resourceType);
    TrimIsTrimmed(g.resourceId, GO_SPACE);
    AihubIsNormal();
  }

  /** The request names no object, or one that agrees with its other fields. */
  ghost predicate Coherent(req: Request) {
    var d := Start(req);
    d.obj == "" ||
    exists app :: app != "" && ':' !in app && ':' !in d.resourceType && d.resourceType != "" && d.resourceId != ""
                  && (d.app == "" || d.app == app) && d.obj == PrintObject(app, d.resourceType, d.resourceId)
  }

  lemma PrintInjective(app: string, typ: string, id: string, app': string, typ': string, id': string)
    requires ':' !in app && ':' !in typ && ':' !in app' && ':' !in typ'
    requires PrintObject(app, typ, id) == PrintObject(app', typ', id')
    ensures app == app' && typ == typ' && id == id'
  {
    hide Split, Join;
    assert PrintObject(app, typ, id) == app + [':'] + (typ + [':'] + id);
    assert PrintObject(app', typ', id') == app' + [':'] + (typ' + [':'] + id');
    SplitField(app, typ + [':'] + id, ':');
    SplitField(typ, id, ':');
    SplitField(app', typ' + [':'] + id', ':');
    SplitField(typ', id', ':');
    var parts := Split(PrintObject(app, typ, id), ':');
    assert parts[0] == app == app' && parts[1] == typ == typ';
    JoinSplit(id, ':');
    JoinSplit(id', ':');
    assert parts[2..] == Split(id, ':') && parts[2..] == Split(id', ':');
  }

  lemma StartIsNormal(req: Request)
    ensures var d := Start(req);
            && Normalize(d.app) == d.app && TrimSpace(d.app) == d.app
            && Normalize(d.resourceType) == d.resourceType && TrimSpace(d.resourceType) == d.resourceType
            && TrimSpace(d.obj) == d.obj
            && (d.obj == "" ==> TrimSpace(d.resourceId) == d.resourceId)
  {
    NormalizeTwice(req.app);
    NormalizeTwice(req.resourceType);
    TrimTwice(req.obj, GO_SPACE);
    TrimTwice(req.resourceId, GO_SPACE);
    var parts := Split(TrimSpace(TrimSpace(req.obj)), ':');
    if |parts| >= 3 {
      NormalizeTwice(parts[0]);
      NormalizeTwice(parts[1]);
    }
    NoParts();
    hide Normalize, TrimSpace, Split;
  }

  lemma NoParts()
    ensures ParseObject("") == ("", "", "") && TrimSpace("") == "" && Normalize("") == ""
  {
  }

  lemma ConcreteMatchesItself(g: Grant, obj: string)
    requires Concrete(g) && TrimSpace(obj) == obj && ObjectMatch(g.obj, obj)
    ensures g.obj == obj
  {
    ParsePrinted(g.app, g.resourceType, g.resourceId);
    hide TrimSpace;
    ConcreteHasNoStar(g);
  }

  lemma ConcreteHasNoStar(g: Grant)
    requires Concrete(g)
    ensures g.obj != "*" && !HasSuffix(g.obj, ":*")
  {
    hide Normalize;
    var id, n := g.resourceId, |g.obj|;
    if |id| >= 2 {
      assert g.obj[n - 2..] == id[|id| - 2..];
    } else {
      assert id == [id[0]] && id[0] != '*';
      assert g.obj[n - 2..][1] == id[0];
    }
  }

  /** Whatever the full scan accepts passes the prefilter. */
  lemma TargetsPassFilter(g: Grant, req: Request)
    requires Concrete(g) && Coherent(req)
    requires var d := Start(req); TargetsResource(g, d.app, d.obj, d.resourceType, d.resourceId)
    ensures MatchesQuery(QueryFor(Start(req)), g)
  {
    var d := Start(req);
    StartIsNormal(req);
    NoParts();
    hide Start, Normalize, ParseObject;
    if d.obj != "" {
      var app :| app != "" && ':' !in app && ':' !in d.resourceType && d.resourceType != "" && d.resourceId != ""
                 && (d.app == "" || d.app == app) && d.obj == PrintObject(app, d.resourceType, d.resourceId);
      ConcreteMatchesItself(g, d.obj);
      PrintInjective(g.app, g.resourceType, g.resourceId, app, d.resourceType, d.resourceId);
      TrimKeepsTrimmed(g.resourceId, GO_SPACE);
    }
    hide TrimSpace;
  }

  lemma GrantsOfPage(rows: seq<Row>, i: nat)
    requires i < |rows|
    ensures GrantsOf(rows)[i] == rows[i].grant
  {
  }

  /** The check takes, of the first 500 matching rows in order, the first that applies. */
  lemma CheckTakesFirst(rows: seq<Row>, req: Request, now: int)
    ensures var sorted := OrderRows(Select(rows, QueryFor(Start(req))));
            var seen := if |sorted| <= 500 then sorted else sorted[..500];
            var d := Check(rows, req, now);
            if d.matched.None? then forall i :: 0 <= i < |seen| ==> !Applies(seen[i].grant, req, now)
            else exists i :: 0 <= i < |seen| && seen[i].grant == d.matched.value && Applies(seen[i].grant, req, now)
                             && forall j :: 0 <= j < i ==> !Applies(seen[j].grant, req, now)
  {
    var q := QueryFor(Start(req));
    var sorted := OrderRows(Select(rows, q));
    var seen := if |sorted| <= 500 then sorted else sorted[..500];
    OrderRowsOrders(Select(rows, q));
    StartMatchesNothing(req);
    assert Slice(sorted, Offset(q), Limit(q)) == seen;
    hide Applies, Start, OrderRows, Select;
    FirstApplyingIsFirst(GrantsOf(seen), req, now);
    if Start(req).action == "" {
      forall i | 0 <= i < |seen| ensures !Applies(seen[i].grant, req, now) { NoActionNothingApplies(seen[i].grant, req, now); }
    } else if FirstApplying(GrantsOf(seen), req, now).Some? {
      var i :| 0 <= i < |seen| && GrantsOf(seen)[i] == FirstApplying(GrantsOf(seen), req, now).value
               && forall j :: 0 <= j < i ==> !Applies(GrantsOf(seen)[j], req, now);
      assert forall j :: 0 <= j < i ==> !Applies(seen[j].grant, req, now) by {
        forall j | 0 <= j < i ensures !Applies(seen[j].grant, req, now) { GrantsOfPage(seen, j); }
      }
      assert seen[i].grant == Check(rows, req, now).matched.value;
    } else {
      forall i | 0 <= i < |seen| ensures !Applies(seen[i].grant, req, now) { GrantsOfPage(seen, i); }
    }
  }

  ghost predicate SomeRowApplies(rows: seq<Row>, req: Request, now: int) {
    exists row :: row in rows && Applies(row.grant, req, now)
  }

  /** An applying row that no applying row precedes: the greatest (updated_at, id). */
  ghost predicate LatestApplying(rows: seq<Row>, req: Request, now: int, row: Row) {
    row in rows && Applies(row.grant, req, now)
    && forall other :: other in rows && Applies(other.grant, req, now) ==> !Precedes(other, row)
  }

  lemma SameRows(rows: seq<Row>, q: Query, row: Row)
    ensures |OrderRows(Select(rows, q))| == |Select(rows, q)|
    ensures row in OrderRows(Select(rows, q)) <==> row in rows && MatchesQuery(q, row.grant)
  {
    OrderRowsOrders(Select(rows, q));
    SelectExact(rows, q, row);
    hide OrderRows, Select;
    var selected, sorted := Select(rows, q), OrderRows(Select(rows, q));
    assert |multiset(sorted)| == |sorted| && |multiset(selected)| == |selected|;
    assert row in sorted <==> row in multiset(sorted);
    assert row in selected <==> row in multiset(selected);
  }

  /** A row whose grant applies and that the prefilter lets through. */
  predicate Visible(row: Row, req: Request, now: int) {
    Applies(row.grant, req, now) && MatchesQuery(QueryFor(Start(req)), row.grant)
  }

  /** A visible row that no visible row precedes. */
  ghost predicate LatestVisible(rows: seq<Row>, req: Request, now: int, row: Row) {
    row in rows && Visible(row, req, now)
    && forall other :: other in rows && Visible(other, req, now) ==> !Precedes(other, row)
  }

  /** In an ordered list of the rows that match the query, the first one that applies is latest. */
  lemma FirstIsLatest(rows: seq<Row>, sorted: seq<Row>, req: Request, now: int, i: nat)
    requires Ordered(sorted) && i < |sorted| && Applies(sorted[i].grant, req, now)
    requires forall j :: 0 <= j < i ==> !Applies(sorted[j].grant, req, now)
    requires forall row :: row in sorted <==> row in rows && MatchesQuery(QueryFor(Start(req)), row.grant)
    ensures LatestVisible(rows, req, now, sorted[i])
  {
    hide Applies, MatchesQuery, Start;
    assert sorted[i] in sorted;
    forall other | other in rows && Visible(other, req, now) ensures !Precedes(other, sorted[i]) {
      assert other in sorted;
      var k :| 0 <= k < |sorted| && sorted[k] == other;
    }
  }

  /** Whatever the grants and the request, with at most 500 matching rows the check matches
      exactly when some applying grant passes the prefilter, and takes the latest such. */
  lemma CheckIsExact(rows: seq<Row>, req: Request, now: int)
    requires |Select(rows, QueryFor(Start(req)))| <= 500
    ensures var d := Check(rows, req, now);
            && (d.matched.Some? <==> exists row :: row in rows && Visible(row, req, now))
            && (d.matched.Some? ==> exists row :: LatestVisible(rows, req, now, row) && d.matched.value == row.grant)
  {
    hide Applies, MatchesQuery, Start, Check, OrderRows, Select, LatestVisible, Ordered;
    var q, d := QueryFor(Start(req)), Check(rows, req, now);
    var sorted := OrderRows(Select(rows, q));
    CheckTakesFirst(rows, req, now);
    OrderRowsOrders(Select(rows, q));
    forall row ensures row in sorted <==> row in rows && MatchesQuery(q, row.grant) { SameRows(rows, q, row); }
    if d.matched.Some? {
      var i :| 0 <= i < |sorted| && sorted[i].grant == d.matched.value && Applies(sorted[i].grant, req, now)
               && forall j :: 0 <= j < i ==> !Applies(sorted[j].grant, req, now);
      FirstIsLatest(rows, sorted, req, now, i);
      assert sorted[i] in sorted;
      assert Visible(sorted[i], req, now);
    } else if row :| row in rows && Visible(row, req, now) {
      SameRows(rows, q, row);
    }
  }

  // ----- Tables with more than 500 matching rows.

  predicate UniqueSerials(rows: seq<Row>) {
    forall i, j :: 0 <= i < j < |rows| ==> rows[i].serial != rows[j].serial
  }

  /** How many of the rows come before a row in the listing. */
  function Before(rows: seq<Row>, row: Row): nat {
    if rows == [] then 0 else (if Precedes(rows[0], row) then 1 else 0) + Before(rows[1..], row)
  }

  lemma {:induction false} InsertCounts(x: Row, rows: seq<Row>, row: Row)
    ensures Before(Insert(x, rows), row) == Before(rows, row) + if Precedes(x, row) then 1 else 0
  {
    hide Precedes;
    if rows == [] || Precedes(x, rows[0]) {
      assert ([x] + rows)[1..] == rows;
    } else {
      InsertCounts(x, rows[1..], row);
      assert ([rows[0]] + Insert(x, rows[1..]))[1..] == Insert(x, rows[1..]);
    }
  }

  /** Ordering the rows changes no count. */
  lemma {:induction false} OrderCounts(rows: seq<Row>, row: Row)
    ensures Before(OrderRows(rows), row) == Before(rows, row)
  {
    hide Precedes;
    if rows != [] {
      OrderCounts(rows[1..], row);
      InsertCounts(rows[0], OrderRows(rows[1..]), row);
    }
  }

  lemma {:induction false} SelectUnique(rows: seq<Row>, q: Query)
    requires UniqueSerials(rows)
    ensures UniqueSerials(Select(rows, q))
  {
    hide MatchesQuery;
    if rows != [] {
      var rest := Select(rows[1..], q);
      SelectUnique(rows[1..], q);
      forall k | 0 <= k < |rest| ensures rest[k].serial != rows[0].serial {
        SelectExact(rows[1..], q, rest[k]);
      }
    }
  }

  lemma {:induction false} InsertUnique(x: Row, rows: seq<Row>)
    requires UniqueSerials(rows) && forall k :: 0 <= k < |rows| ==> rows[k].serial != x.serial
    ensures UniqueSerials(Insert(x, rows))
    ensures forall row :: row in Insert(x, rows) ==> row == x || row in rows
  {
    hide Precedes;
    if !(rows == [] || Precedes(x, rows[0])) {
      var rest := Insert(x, rows[1..]);
      InsertUnique(x, rows[1..]);
      forall k | 0 <= k < |rest| ensures rest[k].serial != rows[0].serial {
        assert rest[k] in rest;
      }
    }
  }

  lemma {:induction false} OrderUnique(rows: seq<Row>)
    requires UniqueSerials(rows)
    ensures UniqueSerials(OrderRows(rows)) && forall row :: row in OrderRows(rows) ==> row in rows
  {
    if rows != [] {
      var rest := OrderRows(rows[1..]);
      OrderUnique(rows[1..]);
      forall k | 0 <= k < |rest| ensures rest[k].serial != rows[0].serial {
        assert rest[k] in rest;
      }
      InsertUnique(rows[0], rest);
    }
  }

  /** In an ordered list the i-th row has i rows before it. */
  lemma {:induction false} BeforeIsIndex(sorted: seq<Row>, i: nat)
    requires Ordered(sorted) && UniqueSerials(sorted) && i < |sorted|
    ensures Before(sorted, sorted[i]) == i
  {
    if i == 0 {
      NothingBefore(sorted, sorted[0]);
    } else {
      var rest := sorted[1..];
      assert Ordered(rest) && UniqueSerials(rest) && rest[i - 1] == sorted[i];
      assert !Precedes(sorted[i], sorted[0]) && sorted[0].serial != sorted[i].serial;
      BeforeIsIndex(rest, i - 1);
    }
  }

  lemma {:induction false} NothingBefore(rows: seq<Row>, row: Row)
    requires forall k :: 0 <= k < |rows| ==> !Precedes(rows[k], row)
    ensures Before(rows, row) == 0
  {
    if rows != [] {
      NothingBefore(rows[1..], row);
    }
  }

  /** A visible row among the first 500 of the rows that match the query. */
  ghost predicate Reached(rows: seq<Row>, req: Request, now: int, row: Row) {
    row in rows && Visible(row, req, now) && Before(Select(rows, QueryFor(Start(req))), row) < 500
  }

  lemma SortedPlace(rows: seq<Row>, q: Query, i: nat)
    requires UniqueSerials(rows) && i < |OrderRows(Select(rows, q))|
    ensures Before(Select(rows, q), OrderRows(Select(rows, q))[i]) == i
  {
    hide MatchesQuery, Precedes, Select, OrderRows;
    var sorted := OrderRows(Select(rows, q));
    SelectUnique(rows, q);
    OrderUnique(Select(rows, q));
    OrderRowsOrders(Select(rows, q));
    BeforeIsIndex(sorted, i);
    OrderCounts(Select(rows, q), sorted[i]);
  }

  /** Whatever the number of matching rows, the check matches exactly when some applying grant
      passes the prefilter with fewer than 500 matching rows before it, and takes the latest
      grant that passes.  An applying grant in the 501st row is missed. */
  lemma CheckReaches(rows: seq<Row>, req: Request, now: int)
    requires UniqueSerials(rows)
    ensures var d := Check(rows, req, now);
            && (d.matched.Some? <==> exists row :: Reached(rows, req, now, row))
            && (d.matched.Some? ==> exists row :: LatestVisible(rows, req, now, row) && d.matched.value == row.grant)
  {
    hide Applies, MatchesQuery, Start, Check, OrderRows, Select, LatestVisible, Ordered, UniqueSerials;
    var q, d := QueryFor(Start(req)), Check(rows, req, now);
    var sorted := OrderRows(Select(rows, q));
    CheckTakesFirst(rows, req, now);
    OrderRowsOrders(Select(rows, q));
    forall row ensures row in sorted <==> row in rows && MatchesQuery(q, row.grant) { SameRows(rows, q, row); }
    if d.matched.Some? {
      var i :| 0 <= i < |sorted| && i < 500 && sorted[i].grant == d.matched.value && Applies(sorted[i].grant, req, now)
               && forall j :: 0 <= j < i ==> !Applies(sorted[j].grant, req, now);
      FirstIsLatest(rows, sorted, req, now, i);
      SortedPlace(rows, q, i);
      assert sorted[i] in sorted;
      assert Reached(rows, req, now, sorted[i]);
    } else if row :| Reached(rows, req, now, row) {
      var i :| 0 <= i < |sorted| && sorted[i] == row;
      SortedPlace(rows, q, i);
    }
  }

  /** Serial numbers are unique in a valid table, and so is its latest row. */
  lemma LatestIsUnique(rows: seq<Row>, next: nat, req: Request, now: int, a: Row, b: Row)
    requires ValidRows(rows, next) && LatestVisible(rows, req, now, a) && LatestVisible(rows, req, now, b)
    ensures a == b
  {
    hide Applies, MatchesQuery, Start;
    assert !Precedes(a, b) && !Precedes(b, a);
    var i :| 0 <= i < |rows| && rows[i] == a;
    var j :| 0 <= j < |rows| && rows[j] == b;
  }

  /** The prefilter drops exactly the grants whose app, type or id is not the one asked for. */
  lemma PrefilterDrops(g: Grant, req: Request)
    ensures var d := Start(req); !MatchesQuery(QueryFor(d), g) <==>
              || (d.app != "" && g.app != d.app)
              || (d.resourceType != "" && g.resourceType != d.resourceType)
              || (TrimSpace(d.resourceId) != "" && g.resourceId != TrimSpace(d.resourceId))
  {
    StartIsNormal(req);
    NoParts();
    hide Start, Normalize, TrimSpace;
  }

  lemma ConcretePasses(row: Row, req: Request, now: int)
    requires Coherent(req) && Concrete(row.grant) && Applies(row.grant, req, now)
    ensures Visible(row, req, now)
  {
    TargetsPassFilter(row.grant, req);
    hide Concrete, Coherent, MatchesQuery;
  }

  /** For coherent requests, concrete grants and at most 500 matching rows, the prefiltered
      check matches exactly when a full scan can, and takes the applicable grant that was
      updated last. */
  lemma PostgresAgreesWithScan(rows: seq<Row>, req: Request, now: int)
    requires Coherent(req) && forall row :: row in rows ==> Concrete(row.grant)
    requires |Select(rows, QueryFor(Start(req)))| <= 500
    ensures var d := Check(rows, req, now);
            && (d.matched.Some? <==> SomeRowApplies(rows, req, now))
            && (d.matched.Some? ==> exists row :: LatestApplying(rows, req, now, row) && d.matched.value == row.grant)
  {
    hide Applies, Concrete, Coherent, MatchesQuery, Start, Check, Select;
    CheckIsExact(rows, req, now);
    forall row | row in rows && Applies(row.grant, req, now) ensures Visible(row, req, now) {
      ConcretePasses(row, req, now);
    }
    var d := Check(rows, req, now);
    if d.matched.Some? {
      var row :| LatestVisible(rows, req, now, row) && d.matched.value == row.grant;
      assert LatestApplying(rows, req, now, row);
    }
  }

  ghost predicate InRows(rows: seq<Row>, g: Grant) {
    exists row :: row in rows && row.grant == g
  }

  ghost predicate InMemory(grants: map<string, Grant>, g: Grant) {
    exists id :: id in grants && grants[id] == g
  }

  /** Against the in-memory service holding the same grants: one matches iff the other can. */
  lemma PostgresAgreesWithMemory(rows: seq<Row>, grants: map<string, Grant>, req: Request, now: int, order: seq<string>)
    requires Coherent(req) && forall row :: row in rows ==> Concrete(row.grant)
    requires |Select(rows, QueryFor(Start(req)))| <= 500
    requires forall g :: InRows(rows, g) <==> InMemory(grants, g)
    requires Enumerates(order, grants)
    ensures Check(rows, req, now).matched.Some? <==> Scan(Listed(order, grants), req, now).matched.Some?
  {
    hide Applies, Concrete, Coherent, Start, Check, Select, Scan;
    PostgresAgreesWithScan(rows, req, now);
    ScanMatches(order, grants, req, now);
    if row :| row in rows && Applies(row.grant, req, now) {
      assert InRows(rows, row.grant);
    }
    if id :| id in grants && Applies(grants[id], req, now) {
      assert InMemory(grants, grants[id]);
    }
  }

  /** The two services differ, whatever the grants, the request and their number, exactly when
      some grant applies and every one that does is dropped by the prefilter or has 500 matching
      rows before it. */
  lemma ServicesDifferIff(rows: seq<Row>, grants: map<string, Grant>, req: Request, now: int, order: seq<string>)
    requires UniqueSerials(rows)
    requires forall g :: InRows(rows, g) <==> InMemory(grants, g)
    requires Enumerates(order, grants)
    ensures Check(rows, req, now).matched.Some? != Scan(Listed(order, grants), req, now).matched.Some? <==>
            SomeRowApplies(rows, req, now)
            && forall row :: row in rows && Applies(row.grant, req, now) ==>
                 !MatchesQuery(QueryFor(Start(req)), row.grant) || Before(Select(rows, QueryFor(Start(req))), row) >= 500
  {
    hide Applies, MatchesQuery, Start, Check, Select, Scan, Before;
    CheckReaches(rows, req, now);
    ScanMatches(order, grants, req, now);
    if row :| row in rows && Applies(row.grant, req, now) {
      assert InRows(rows, row.grant);
    }
    if id :| id in grants && Applies(grants[id], req, now) {
      assert InMemory(grants, grants[id]);
    }
    assert forall row :: Reached(rows, req, now, row) ==> row in rows && Applies(row.grant, req, now);
    if row :| row in rows && Applies(row.grant, req, now) && MatchesQuery(QueryFor(Start(req)), row.grant)
              && Before(Select(rows, QueryFor(Start(req))), row) < 500 {
      assert Reached(rows, req, now, row);
    }
  }

  // ----- The order, in times and serial numbers.

  /** No older than another row: updated later, or at the same time with a serial number at
      least as great. */
  predicate NoOlder(a: Row, b: Row) {
    a.grant.updatedAt > b.grant.updatedAt || (a.grant.updatedAt == b.grant.updatedAt && a.serial >= b.serial)
  }

  /** The row that the check takes is visible and no older than any other visible row. */
  lemma CheckTakesNewest(rows: seq<Row>, req: Request, now: int) returns (row: Row)
    requires UniqueSerials(rows) && Check(rows, req, now).matched.Some?
    ensures row in rows && row.grant == Check(rows, req, now).matched.value && Visible(row, req, now)
    ensures forall other :: other in rows && Visible(other, req, now) ==> NoOlder(row, other)
  {
    hide Visible, Check;
    CheckReaches(rows, req, now);
    row :| LatestVisible(rows, req, now, row) && Check(rows, req, now).matched.value == row.grant;
  }

  /** A listing is all matching rows from the newest to the oldest. */
  lemma ListedNewestFirst(rows: seq<Row>, q: Query)
    ensures var sorted := OrderRows(Select(rows, q));
      && multiset(sorted) == multiset(Select(rows, q))
      && (forall i, j :: 0 <= i < j < |sorted| ==> NoOlder(sorted[i], sorted[j]))
      && (UniqueSerials(rows) ==> forall i, j :: 0 <= i < j < |sorted| && sorted[i].grant.updatedAt == sorted[j].grant.updatedAt ==>
            sorted[i].serial > sorted[j].serial)
  {
    var sorted := OrderRows(Select(rows, q));
    OrderRowsOrders(Select(rows, q));
    hide MatchesQuery, Select, OrderRows;
    forall i, j | 0 <= i < j < |sorted| ensures NoOlder(sorted[i], sorted[j]) {
      assert !Precedes(sorted[j], sorted[i]);
    }
    if UniqueSerials(rows) {
      SelectUnique(rows, q);
      OrderUnique(Select(rows, q));
    }
  }

  // ----- Listing, page by page.

  /** The grants of the first n pages of a listing, asked for one by one. */
  function PagesListed(rows: seq<Row>, q: Query, n: nat): seq<Grant> {
    if n == 0 then [] else PagesListed(rows, q, n - 1) + List(rows, q.(offset := (n - 1) * Limit(q))).items
  }

  lemma GrantsOfAppend(a: seq<Row>, b: seq<Row>)
    ensures GrantsOf(a + b) == GrantsOf(a) + GrantsOf(b)
  {
  }

  lemma OffsetMeansNothing(rows: seq<Row>, q: Query, offset: int)
    ensures Select(rows, q.(offset := offset)) == Select(rows, q)
  {
    SelectSame(rows, q, q.(offset := offset));
  }

  lemma {:induction false} SelectSame(rows: seq<Row>, q: Query, q': Query)
    requires q' == q.(offset := q'.offset)
    ensures Select(rows, q) == Select(rows, q')
  {
    hide Passes, Normalize;
    if rows != [] {
      SelectSame(rows[1..], q, q');
      assert MatchesQuery(q, rows[0].grant) == MatchesQuery(q', rows[0].grant);
    }
  }

  lemma {:induction false} ListedIsPages(rows: seq<Row>, q: Query, n: nat)
    ensures PagesListed(rows, q, n) == GrantsOf(Pages(OrderRows(Select(rows, q)), Limit(q), n))
  {
    hide OrderRows, Select, GrantsOf, Slice;
    if n > 0 {
      ListedIsPages(rows, q, n - 1);
      OffsetMeansNothing(rows, q, (n - 1) * Limit(q));
      GrantsOfAppend(Pages(OrderRows(Select(rows, q)), Limit(q), n - 1), Slice(OrderRows(Select(rows, q)), (n - 1) * Limit(q), Limit(q)));
    } else {
      assert GrantsOf([]) == [];
    }
  }

  lemma GrantsOfPrefix(a: seq<Row>, b: seq<Row>)
    requires a <= b
    ensures GrantsOf(a) <= GrantsOf(b)
  {
  }

  lemma PagesPrefix<T>(s: seq<T>, limit: nat, n: nat)
    requires limit >= 1
    ensures Pages(s, limit, n) <= s && (|Pages(s, limit, n)| < |s| ==> |Pages(s, limit, n)| == n * limit)
  {
    PagesTile(s, limit, n);
  }

  /** Successive pages of an unchanged table tile the matching grants from the newest to the
      oldest, without gap or overlap. */
  lemma ListingTiles(rows: seq<Row>, q: Query, n: nat)
    ensures PagesListed(rows, q, n) <= GrantsOf(OrderRows(Select(rows, q)))
    ensures |PagesListed(rows, q, n)| < |Select(rows, q)| ==> |PagesListed(rows, q, n)| == n * Limit(q)
  {
    hide OrderRows, Select, PagesListed, Pages;
    var sorted := OrderRows(Select(rows, q));
    ListedIsPages(rows, q, n);
    PagesPrefix(sorted, Limit(q), n);
    OrderedSize(rows, q);
    hide Limit;
    GrantsOfPrefix(Pages(sorted, Limit(q), n), sorted);
  }

  /** A page has as many grants as asked for at most, never more than 500, and 100 if nothing
      sensible was asked for; it says how many match in all. */
  lemma ListingBounds(rows: seq<Row>, q: Query)
    ensures |List(rows, q).items| <= (if 0 < q.limit <= 500 then q.limit else 100)
    ensures List(rows, q).total == |Select(rows, q)|
    ensures q.offset <= 0 && |Select(rows, q)| >= 100 && !(0 < q.limit <= 500) ==> |List(rows, q).items| == 100
  {
    OrderedSize(rows, q);
    hide OrderRows, Select;
  }

  lemma OrderedSize(rows: seq<Row>, q: Query)
    ensures |OrderRows(Select(rows, q))| == |Select(rows, q)|
  {
    OrderRowsOrders(Select(rows, q));
    hide OrderRows, Select;
    assert |multiset(OrderRows(Select(rows, q)))| == |OrderRows(Select(rows, q))|;
    assert |multiset(Select(rows, q))| == |Select(rows, q)|;
  }

  /** A field asked for in vain, or found. */
  predicate Agrees(asked: string, held: string) {
    asked == "" || asked == held
  }

  /** Asking with the fields of one grant finds another that was saved exactly if they agree in
      each of the eight, where blanks mean nothing, capitals only in ids, and a blank field asks
      nothing; a grant saved without an app is one of aihub. */
  lemma SavedIsFoundIff(g: Grant, freshId: string, now: int, f: Grant, limit: int, offset: int)
    requires TrimSpace(g.obj) != "" && Normalize(g.subjectType) != "public"
    ensures MatchesQuery(Query(f.app, f.orgId, f.projectId, f.resourceType, f.resourceId, f.obj, f.subjectType, f.subjectId, limit, offset),
                         Prepared(g, freshId, now)) <==>
      && Agrees(Normalize(f.app), if Normalize(g.app) == "" then "aihub" else Normalize(g.app))
      && Agrees(TrimSpace(f.orgId), TrimSpace(g.orgId)) && Agrees(TrimSpace(f.projectId), TrimSpace(g.projectId))
      && Agrees(Normalize(f.resourceType), Normalize(g.resourceType)) && Agrees(TrimSpace(f.resourceId), TrimSpace(g.resourceId))
      && Agrees(TrimSpace(f.obj), TrimSpace(g.obj))
      && Agrees(Normalize(f.subjectType), Normalize(g.subjectType)) && Agrees(TrimSpace(f.subjectId), TrimSpace(g.subjectId))
  {
    NormalizeTwice(f.app);
    NormalizeTwice(f.resourceType);
    NormalizeTwice(f.subjectType);
    hide TrimSpace, Normalize;
  }

  /** A grant is read back as it was saved exactly if it has a creator or none, no deadline or one
      after the epoch, and its times are after the epoch or now. */
  lemma ReadBackAsSavedIff(g: Grant, now: int)
    ensures StoredGrant(g, now) == g <==>
      && (g.createdBy == "" || TrimSpace(g.createdBy) != "") && g.expiresAt >= 0
      && (g.createdAt > 0 || g.createdAt == now) && (g.updatedAt > 0 || g.updatedAt == now)
  {
    hide TrimSpace;
  }

  // ----- The newest grant decides.

  lemma AfterOneSave(rows: seq<Row>, next: nat, i: nat, saved: Row)
    requires ValidRows(rows, next) && i <= |rows| && saved.serial == if i < |rows| then rows[i].serial else next
    requires forall k :: 0 <= k < |rows| ==> rows[k].grant.updatedAt < saved.grant.updatedAt
    ensures var rows' := if i < |rows| then rows[i := saved] else rows + [saved];
      && UniqueSerials(rows') && saved in rows'
      && forall other :: other in rows' && other != saved ==> other.grant.updatedAt < saved.grant.updatedAt
  {
    var rows' := if i < |rows| then rows[i := saved] else rows + [saved];
    assert rows'[i] == saved;
  }

  lemma ScanDecides(grants: seq<Grant>, req: Request, now: int)
    ensures var d := Scan(grants, req, now); d.matched.Some? ==> (d.allow <==> !Denies(d.matched.value))
  {
    hide Applies, Denies;
  }

  /** A visible row that is newer than all others decides, by its own effect. */
  lemma NewestDecides(rows: seq<Row>, row: Row, req: Request, now: int)
    requires UniqueSerials(rows) && row in rows && Visible(row, req, now)
    requires forall other :: other in rows && other != row ==> other.grant.updatedAt < row.grant.updatedAt
    ensures var d := Check(rows, req, now); d.matched == Some(row.grant) && (d.allow <==> !Denies(row.grant))
  {
    hide Visible, Check, Select, MatchesQuery, Start, Denies;
    var selected := Select(rows, QueryFor(Start(req)));
    forall k | 0 <= k < |selected| ensures !Precedes(selected[k], row) {
      SelectExact(rows, QueryFor(Start(req)), selected[k]);
    }
    NothingBefore(selected, row);
    assert Reached(rows, req, now, row);
    CheckReaches(rows, req, now);
    var latest :| LatestVisible(rows, req, now, latest) && Check(rows, req, now).matched.value == latest.grant;
    CheckScans(rows, req, now);
  }

  lemma CheckScans(rows: seq<Row>, req: Request, now: int)
    ensures var d := Check(rows, req, now); d.matched.Some? ==> (d.allow <==> !Denies(d.matched.value))
  {
    ScanDecides(List(rows, QueryFor(Start(req))).items, req, now);
    hide Scan, List, Start, Denies;
  }

  /** Storing keeps what a grant is for, and when it ends. */
  lemma StoredApplies(s: Grant, stored: Grant, req: Request, now: int)
    requires stored == s.(createdBy := stored.createdBy, expiresAt := if s.expiresAt <= 0 then 0 else s.expiresAt,
                          createdAt := stored.createdAt, updatedAt := stored.updatedAt)
    requires Concrete(s) && Applies(s, req, now)
    ensures Concrete(stored) && Applies(stored, req, now) && Denies(stored) == Denies(s)
  {
    var bare := s.(createdBy := stored.createdBy, expiresAt := 0, createdAt := stored.createdAt, updatedAt := stored.updatedAt);
    StoredTargets(s, bare, req);
    AppliesUntil(s, req, now);
    AppliesUntil(stored, req, now);
    assert stored.(expiresAt := 0) == bare;
    hide TargetsResource, TargetsSubject, AllowsAction, Start, Normalize;
  }

  lemma StoredTargets(s: Grant, bare: Grant, req: Request)
    requires bare == s.(createdBy := bare.createdBy, expiresAt := bare.expiresAt, createdAt := bare.createdAt, updatedAt := bare.updatedAt)
    ensures (forall app, obj, typ, id :: TargetsResource(s, app, obj, typ, id) == TargetsResource(bare, app, obj, typ, id))
    ensures TargetsSubject(s, req) == TargetsSubject(bare, req)
    ensures forall action :: AllowsAction(s, action) == AllowsAction(bare, action)
  {
    hide ObjectMatch, ContainsAny, HierarchyMatch, Covers, Normalize;
  }

  /** Saving a grant on one resource and checking, in a table that was last written before: if the
      saved grant applies it decides, by its own effect, whatever else the table holds. */
  method SaveDecides(service: PostgresService, g: Grant, freshId: string, saved: int, req: Request, now: int) returns (d: Decision)
    requires service.Valid() && saved > 0 && Coherent(req)
    requires forall k :: 0 <= k < |service.rows| ==> service.rows[k].grant.updatedAt < saved
    requires TrimSpace(g.obj) == "" && Normalize(g.app) != "*" && ':' !in Normalize(g.app)
    requires Normalize(g.resourceType) != "" && ':' !in Normalize(g.resourceType)
    requires var id := TrimSpace(g.resourceId); id != "" && id != "*" && !HasSuffix(id, ":*")
    requires Applies(Prepared(g, freshId, saved), req, now)
    modifies service
    ensures d.matched.Some? && d.matched.value.id == Prepared(g, freshId, saved).id
    ensures d.allow <==> Normalize(g.effect) != "deny"
  {
    ghost var rows, next := service.rows, service.nextSerial;
    SavedIsConcrete(g, freshId, saved);
    SavedDeniesIff(g, freshId, saved);
    SavedNow(g, freshId, saved);
    hide Prepared, Applies, Concrete, Coherent, Denies, Normalize, TrimSpace, Check;
    var s := service.SaveResourceGrant(g, freshId, saved);
    ghost var i := IndexOf(rows, s.id);
    ghost var row := service.rows[i];
    StoredApplies(s, row.grant, req, now);
    AfterOneSave(rows, next, i, row);
    ConcretePasses(row, req, now);
    NewestDecides(service.rows, row, req, now);
    d := service.CheckResourceGrant(req, now);
  }

  lemma SavedNow(g: Grant, freshId: string, saved: int)
    ensures Prepared(g, freshId, saved).updatedAt == saved
  {
  }
}
