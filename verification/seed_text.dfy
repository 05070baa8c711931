/** The text of the seed's statements, and that the importer reads it back statement by
    statement: scripts/casdoor/render-casdoor-seed.py against iter_sql_statements of
    scripts/casdoor/bootstrap-casdoor-mysql.py. */
module SeedText {
  import opened SeedTables
  import opened SqlStatements
  import opened SqlText
  import opened Text
  import Laws = SqlStatementsLaws
  import opened SqlWalk
  import Rows = SqlRows

  // ----- Text in pieces.

  /** A stretch of SQL, or a string literal. */
  datatype Piece = Raw(text: string) | Lit(value: string)

  function PieceText(p: Piece): string {
    match p case Raw(text) => text case Lit(value) => SqlQuote(Str(value))
  }

  function PiecesText(pieces: seq<Piece>): string {
    if pieces == [] then "" else PieceText(pieces[0]) + PiecesText(pieces[1..])
  }

  /** Text that the scanner copies whatever stands next to it. */
  predicate Simple(s: string) {
    forall k :: 0 <= k < |s| ==> s[k] != QUOTE && s[k] != '"' && s[k] != ';' && s[k] != '-' && s[k] != BACKSLASH
  }

  /** A piece that may follow a literal. */
  predicate Parts(pieces: seq<Piece>) {
    pieces == [] || (pieces[0].Raw? && pieces[0].text != "")
  }

  /** The stretches are simple and no two literals touch; with `safe`, no value ends in a backslash. */
  predicate Readable(pieces: seq<Piece>, safe: bool) {
    pieces == [] ||
    (Readable(pieces[1..], safe) &&
     match pieces[0] case Raw(text) => Simple(text) case Lit(value) => (safe ==> !EndsInBackslash(value)) && Parts(pieces[1..]))
  }

  /** The pieces as the scanner's round trip takes them: each literal with the text after it. */
  function Statement(pieces: seq<Piece>): Laws.Statement {
    if pieces == [] then Laws.Statement("", [])
    else
      var rest := Statement(pieces[1..]);
      match pieces[0]
      case Raw(text) => Laws.Statement(text + rest.head, rest.segments)
      case Lit(value) => Laws.Statement("", [Laws.Segment(value, rest.head)] + rest.segments)
  }

  lemma {:induction false} StatementPrints(pieces: seq<Piece>)
    ensures Laws.StatementText(Statement(pieces)) == PiecesText(pieces)
  {
    hide SqlQuote;
    if pieces != [] {
      var rest := Statement(pieces[1..]);
      StatementPrints(pieces[1..]);
      match pieces[0]
      case Raw(text) =>
        assert text + rest.head + Laws.SegmentsText(rest.segments) == text + (rest.head + Laws.SegmentsText(rest.segments));
      case Lit(value) =>
        SegmentsCons(value, rest);
    }
  }

  lemma SegmentsCons(value: string, rest: Laws.Statement)
    ensures "" + Laws.SegmentsText([Laws.Segment(value, rest.head)] + rest.segments) == SqlQuote(Str(value)) + Laws.StatementText(rest)
  {
    hide SqlQuote;
    var segments := [Laws.Segment(value, rest.head)] + rest.segments;
    assert segments[1..] == rest.segments;
  }

  lemma SimpleIsPlain(s: string)
    requires Simple(s)
    ensures Plain(s) && !EndsInBackslash(s)
  {
  }

  lemma SimpleAppend(a: string, b: string)
    requires Simple(a) && Simple(b)
    ensures Simple(a + b)
  {
  }

  lemma {:induction false} StatementIsShaped(pieces: seq<Piece>, safe: bool)
    requires Readable(pieces, safe)
    ensures var s := Statement(pieces);
            Simple(s.head) && Laws.Shaped(s.segments) && (safe ==> Laws.Safe(s.segments)) && (Parts(pieces) && pieces != [] ==> s.head != "")
  {
    hide Simple, Plain, EndsInBackslash;
    EmptyIsSimple();
    if pieces != [] {
      var rest := Statement(pieces[1..]);
      StatementIsShaped(pieces[1..], safe);
      SimpleIsPlain(rest.head);
      if pieces[0].Raw? {
        SimpleAppend(pieces[0].text, rest.head);
      } else {
        LitStarts(pieces[0].value, rest, safe);
      }
    }
  }

  lemma EmptyIsSimple()
    ensures Simple("")
  {
  }

  lemma LitStarts(value: string, rest: Laws.Statement, safe: bool)
    requires safe ==> !EndsInBackslash(value) && Laws.Safe(rest.segments)
    requires Plain(rest.head) && !EndsInBackslash(rest.head) && Laws.Shaped(rest.segments) && (rest.segments != [] ==> rest.head != "")
    ensures var segments := [Laws.Segment(value, rest.head)] + rest.segments;
            Laws.Shaped(segments) && (safe ==> Laws.Safe(segments))
  {
    hide Plain, EndsInBackslash;
  }

  /** The literals among the pieces, in order. */
  function Literals(pieces: seq<Piece>): seq<string> {
    if pieces == [] then []
    else (match pieces[0] case Raw(_) => [] case Lit(value) => [value]) + Literals(pieces[1..])
  }

  /** Where the scanner is after literals with these values. */
  function Through(values: seq<string>, at: Place): Place
    decreases |values|
  {
    if values == [] then at else Through(values[1..], Over(values[0], at))
  }

  lemma {:induction false} EndsThrough(pieces: seq<Piece>, at: Place)
    ensures Laws.Follow(Statement(pieces).segments, at) == Through(Literals(pieces), at)
    decreases |pieces|
  {
    hide Over;
    if pieces != [] {
      if pieces[0].Raw? {
        EndsThrough(pieces[1..], at);
        assert Literals(pieces) == Literals(pieces[1..]);
      } else {
        var value, rest := pieces[0].value, Statement(pieces[1..]);
        EndsThrough(pieces[1..], Over(value, at));
        assert Statement(pieces).segments[1..] == rest.segments;
        assert Literals(pieces)[1..] == Literals(pieces[1..]);
      }
    }
  }

  /** Such pieces make a statement that the scanner's law speaks of, and one that it finds if
      they are safe. */
  lemma ReadableIsWellFormed(pieces: seq<Piece>, safe: bool)
    requires Readable(pieces, safe)
    ensures Laws.WellFormedStatement(Statement(pieces)) && Laws.End(Statement(pieces)) == Through(Literals(pieces), Out)
    ensures safe ==> Through(Literals(pieces), Out) == Out
  {
    StatementIsShaped(pieces, safe);
    SimpleIsPlain(Statement(pieces).head);
    EndsThrough(pieces, Out);
    if safe { Laws.SafeEndsOutside(Statement(pieces).segments); }
  }

  /** Two readable stretches stay readable side by side if no two literals meet. */
  lemma {:induction false} ReadableAppend(a: seq<Piece>, b: seq<Piece>, safe: bool)
    requires Readable(a, safe) && Readable(b, safe) && (a != [] && a[|a| - 1].Lit? ==> Parts(b))
    ensures Readable(a + b, safe)
  {
    hide Simple, EndsInBackslash;
    if a == [] {
      assert a + b == b;
    } else {
      assert (a + b)[1..] == a[1..] + b;
      ReadableAppend(a[1..], b, safe);
    }
  }

  // ----- Values, separated by commas.

  predicate ReadableValue(v: Value, safe: bool) {
    match v case Null => true case Number(text) => Simple(text) case Str(value) => safe ==> !EndsInBackslash(value)
  }

  function ValuePiece(v: Value): Piece {
    match v case Str(value) => Lit(value) case _ => Raw(SqlQuote(v))
  }

  function FieldPieces(values: seq<Value>): seq<Piece> {
    if values == [] then []
    else if |values| == 1 then [ValuePiece(values[0])]
    else [ValuePiece(values[0]), Raw(", ")] + FieldPieces(values[1..])
  }

  lemma ValuePrints(v: Value)
    ensures PieceText(ValuePiece(v)) == SqlQuote(v)
  {
  }

  lemma FewPieces(a: Piece, b: Piece, rest: seq<Piece>)
    ensures PiecesText([a]) == PieceText(a)
    ensures PiecesText([a, b] + rest) == PieceText(a) + PieceText(b) + PiecesText(rest)
  {
    hide PieceText;
    assert [a][1..] == [];
    assert ([a, b] + rest)[1..] == [b] + rest && ([b] + rest)[1..] == rest;
    assert PieceText(a) + (PieceText(b) + PiecesText(rest)) == PieceText(a) + PieceText(b) + PiecesText(rest);
  }

  lemma {:induction false} FieldsPrint(values: seq<Value>)
    ensures PiecesText(FieldPieces(values)) == Rows.PrintFields(values)
  {
    hide SqlQuote, PieceText, ValuePiece;
    if values != [] {
      var rest := FieldPieces(values[1..]);
      ValuePrints(values[0]);
      FewPieces(ValuePiece(values[0]), Raw(", "), rest);
      CommaPrints();
      FieldsPrint(values[1..]);
      hide PiecesText;
    }
  }

  lemma CommaPrints()
    ensures PieceText(Raw(", ")) == ", "
  {
  }

  lemma ValueReadable(v: Value, rest: seq<Piece>, safe: bool)
    requires ReadableValue(v, safe) && Readable(rest, safe)
    ensures Readable([ValuePiece(v)], safe) && Readable([ValuePiece(v), Raw(", ")] + rest, safe)
  {
    assert Simple(", ");
    hide EndsInBackslash, Simple;
    var pieces := [ValuePiece(v), Raw(", ")] + rest;
    assert [ValuePiece(v)][1..] == [];
    assert pieces[1..] == [Raw(", ")] + rest && pieces[1..][1..] == rest;
  }

  lemma {:induction false} FieldsReadable(values: seq<Value>, safe: bool)
    requires forall i :: 0 <= i < |values| ==> ReadableValue(values[i], safe)
    ensures Readable(FieldPieces(values), safe)
  {
    if values != [] {
      FieldsReadable(values[1..], safe);
      assert ReadableValue(values[0], safe);
      ValueReadable(values[0], FieldPieces(values[1..]), safe);
    }
  }

  /** A list of values between two stretches of SQL. */
  function Around(before: string, values: seq<Value>, after: string): seq<Piece> {
    [Raw(before)] + FieldPieces(values) + [Raw(after)]
  }

  lemma AroundReadable(before: string, values: seq<Value>, after: string, safe: bool)
    requires Simple(before) && Simple(after) && after != "" && forall i :: 0 <= i < |values| ==> ReadableValue(values[i], safe)
    ensures Readable(Around(before, values, after), safe)
  {
    hide Simple, ReadableValue, FieldPieces;
    FieldsReadable(values, safe);
    assert [Raw(before)][1..] == [] && [Raw(after)][1..] == [];
    ReadableAppend([Raw(before)], FieldPieces(values), safe);
    ReadableAppend([Raw(before)] + FieldPieces(values), [Raw(after)], safe);
  }

  lemma {:induction false} PiecesTextAppend(a: seq<Piece>, b: seq<Piece>)
    ensures PiecesText(a + b) == PiecesText(a) + PiecesText(b)
  {
    hide PieceText;
    if a == [] {
      assert a + b == b;
    } else {
      assert (a + b)[1..] == a[1..] + b;
      PiecesTextAppend(a[1..], b);
    }
  }

  lemma AroundPrints(before: string, values: seq<Value>, after: string)
    ensures PiecesText(Around(before, values, after)) == before + Rows.PrintFields(values) + after
  {
    hide FieldPieces;
    FieldsPrint(values);
    assert [Raw(before)][1..] == [] && [Raw(after)][1..] == [];
    PiecesTextAppend([Raw(before)], FieldPieces(values));
    PiecesTextAppend([Raw(before)] + FieldPieces(values), [Raw(after)]);
  }

  // ----- insert_on_duplicate.

  function Commas(parts: seq<string>): string {
    if parts == [] then "" else if |parts| == 1 then parts[0] else parts[0] + ", " + Commas(parts[1..])
  }

  function Ticked(column: string): string { "`" + column + "`" }

  function Assigned(column: string): string { Ticked(column) + "=VALUES(" + Ticked(column) + ")" }

  function TickedAll(columns: seq<string>): seq<string> {
    if columns == [] then [] else [Ticked(columns[0])] + TickedAll(columns[1..])
  }

  function AssignedAll(columns: seq<string>): seq<string> {
    if columns == [] then [] else [Assigned(columns[0])] + AssignedAll(columns[1..])
  }

  function Opening(table: string, columns: seq<string>): string {
    "INSERT INTO " + Ticked(table) + " (" + Commas(TickedAll(columns)) + ") VALUES ("
  }

  function Closing(update: seq<string>): string {
    ") ON DUPLICATE KEY UPDATE " + Commas(AssignedAll(update))
  }

  /** insert_on_duplicate, without the closing semicolon. */
  function InsertOnDuplicate(table: string, columns: seq<string>, values: seq<Value>, update: seq<string>): string {
    Opening(table, columns) + Rows.PrintFields(values) + Closing(update)
  }

  predicate SimpleAll(parts: seq<string>) {
    forall i :: 0 <= i < |parts| ==> Simple(parts[i])
  }

  lemma {:induction false} CommasSimple(parts: seq<string>)
    requires SimpleAll(parts)
    ensures Simple(Commas(parts))
  {
    if |parts| > 1 {
      CommasSimple(parts[1..]);
    }
  }

  lemma TickedSimple(column: string)
    requires Simple(column)
    ensures Simple(Ticked(column)) && Simple(Assigned(column))
  {
  }

  lemma {:induction false} ColumnsSimple(columns: seq<string>)
    requires SimpleAll(columns)
    ensures SimpleAll(TickedAll(columns)) && SimpleAll(AssignedAll(columns))
  {
    hide Simple, Assigned;
    if columns != [] {
      ColumnsSimple(columns[1..]);
      TickedSimple(columns[0]);
    }
  }

  lemma OpeningSimple(table: string, columns: seq<string>)
    requires Simple(table) && SimpleAll(columns)
    ensures Simple(Opening(table, columns))
  {
    ColumnsSimple(columns);
    CommasSimple(TickedAll(columns));
    hide Commas, TickedAll;
  }

  lemma ClosingSimple(update: seq<string>)
    requires SimpleAll(update)
    ensures Simple(Closing(update)) && Closing(update) != ""
  {
    ColumnsSimple(update);
    CommasSimple(AssignedAll(update));
    hide Commas, AssignedAll;
  }

  // ----- The statements of the seed program.

  function TableText(t: TableName): string {
    match t
    case Organization => "organization"
    case Application => "application"
    case User => "user"
    case Model => "model"
    case Role => "role"
    case Permission => "permission"
  }

  /** How rows are written: the columns of each table after owner and name, in order, and the
      columns whose values are written without quotes. */
  datatype Layout = Layout(columns: map<TableName, seq<string>>, numeric: set<string>) {
    function Columns(t: TableName): seq<string> {
      if t in columns then columns[t] else []
    }

    function ColumnValue(row: Row, column: string): Value {
      var text := if column in row then row[column] else "";
      if column in numeric then Number(text) else Str(text)
    }
  }

  function RowValues(l: Layout, row: Row, columns: seq<string>): (r: seq<Value>)
    ensures |r| == |columns| && forall i :: 0 <= i < |r| ==> r[i] == l.ColumnValue(row, columns[i])
  {
    seq(|columns|, i requires 0 <= i < |columns| => l.ColumnValue(row, columns[i]))
  }

  function Filtered(columns: seq<string>, update: set<string>): (r: seq<string>)
    ensures forall c :: c in r ==> c in columns
  {
    if columns == [] then []
    else (if columns[0] in update then [columns[0]] else []) + Filtered(columns[1..], update)
  }

  function Strs(texts: seq<string>): (r: seq<Value>)
    ensures |r| == |texts| && forall i :: 0 <= i < |r| ==> r[i] == Str(texts[i])
  {
    seq(|texts|, i requires 0 <= i < |texts| => Str(texts[i]))
  }

  /** Text and literals in turn. */
  function Alternate(texts: seq<string>, values: seq<string>, last: string): seq<Piece>
    requires |texts| == |values|
  {
    if texts == [] then [Raw(last)] else [Raw(texts[0]), Lit(values[0])] + Alternate(texts[1..], values[1..], last)
  }

  lemma {:induction false} AlternateReadable(texts: seq<string>, values: seq<string>, last: string, safe: bool)
    requires |texts| == |values| && SimpleAll(texts) && SafeTexts(values, safe) && Simple(last) && last != ""
    requires forall i :: 0 < i < |texts| ==> texts[i] != ""
    ensures Readable(Alternate(texts, values, last), safe)
    ensures (texts != [] ==> texts[0] != "") ==> Parts(Alternate(texts, values, last))
    ensures Alternate(texts, values, last)[|Alternate(texts, values, last)| - 1].Raw?
  {
    hide Simple, EndsInBackslash;
    if texts == [] {
      assert [Raw(last)][1..] == [];
    } else {
      AlternateReadable(texts[1..], values[1..], last, safe);
      assert Simple(texts[0]) && (safe ==> !EndsInBackslash(values[0]));
      hide SimpleAll, SafeTexts;
      RawLitReadable(texts[0], values[0], Alternate(texts[1..], values[1..], last), safe);
    }
  }

  lemma RawLitReadable(text: string, value: string, rest: seq<Piece>, safe: bool)
    requires Simple(text) && (safe ==> !EndsInBackslash(value)) && Readable(rest, safe) && Parts(rest)
    ensures Readable([Raw(text), Lit(value)] + rest, safe)
  {
    hide Simple, EndsInBackslash;
    var pieces := [Raw(text), Lit(value)] + rest;
    assert pieces[1..] == [Lit(value)] + rest && pieces[1..][1..] == rest;
  }

  /** A readable beginning, a list of values, and an end. */
  lemma EndingReadable(before: seq<Piece>, texts: seq<string>, after: string, safe: bool)
    requires Readable(before, safe) && before != [] && before[|before| - 1].Raw? && SafeTexts(texts, safe) && Simple(after) && after != ""
    ensures Readable(before + FieldPieces(Strs(texts)) + [Raw(after)], safe)
  {
    hide Simple, ReadableValue, FieldPieces;
    StrsReadable(texts, safe);
    FieldsReadable(Strs(texts), safe);
    assert [Raw(after)][1..] == [];
    ReadableAppend(before, FieldPieces(Strs(texts)), safe);
    ReadableAppend(before + FieldPieces(Strs(texts)), [Raw(after)], safe);
  }

  const DELETE_RULES := "DELETE FROM `permission_rule` "

  const INSERT_RULE := "INSERT INTO `permission_rule` " + ("(`ptype`, `v0`, `v1`, `v2`, " + "`v3`, `v4`, `v5`) VALUES (")

  const NOT_EXISTS := " AND NOT EXISTS (SELECT 1 FROM (" + "SELECT 1 FROM `role` WHERE `owner`="

  lemma DeleteRulesSimple()
    ensures Simple(DELETE_RULES + "WHERE `v0` IN (") && Simple(DELETE_RULES + "WHERE `v5` IN (")
  {
    assert Simple(DELETE_RULES) && Simple("WHERE `v0` IN (") && Simple("WHERE `v5` IN (");
    hide Simple;
    SimpleAppend(DELETE_RULES, "WHERE `v0` IN (");
    SimpleAppend(DELETE_RULES, "WHERE `v5` IN (");
  }

  lemma InsertRuleSimple()
    ensures Simple(INSERT_RULE)
  {
    assert Simple("INSERT INTO `permission_rule` ") && Simple("(`ptype`, `v0`, `v1`, `v2`, ") && Simple("`v3`, `v4`, `v5`) VALUES (");
    hide Simple;
    SimpleAppend("(`ptype`, `v0`, `v1`, `v2`, ", "`v3`, `v4`, `v5`) VALUES (");
    SimpleAppend("INSERT INTO `permission_rule` ", "(`ptype`, `v0`, `v1`, `v2`, " + "`v3`, `v4`, `v5`) VALUES (");
  }

  lemma NotExistsSimple()
    ensures Simple(NOT_EXISTS) && NOT_EXISTS != ""
  {
    assert Simple(" AND NOT EXISTS (SELECT 1 FROM (") && Simple("SELECT 1 FROM `role` WHERE `owner`=");
    hide Simple;
    SimpleAppend(" AND NOT EXISTS (SELECT 1 FROM (", "SELECT 1 FROM `role` WHERE `owner`=");
  }

  /** A statement as it is printed, without the closing semicolon. */
  function Pieces(l: Layout, s: Stmt): seq<Piece> {
    match s
    case SetForeignKeyChecks(on) => [Raw("SET FOREIGN_KEY_CHECKS=" + if on then "1" else "0")]
    case Upsert(t, key, values, update) =>
      Around(Opening(TableText(t), ["owner", "name"] + l.Columns(t)),
             Strs([key.0, key.1]) + RowValues(l, values, l.Columns(t)),
             Closing(Filtered(l.Columns(t), update)))
    case RenameRole(owner, from, to, display, desc) =>
      Alternate(["UPDATE `role` SET `name`=", ", `display_name`=", ", `description`=", " WHERE `owner`=", " AND `name`=",
                 NOT_EXISTS, " AND `name`="],
                [to, display, desc, owner, from, owner, to], " LIMIT 1) AS existing_role)")
    case DeleteRows(t, owner, names) =>
      Alternate(["DELETE FROM " + Ticked(TableText(t)) + " WHERE `owner`="], [owner], " AND `name` IN (")
      + FieldPieces(Strs(names)) + [Raw(")")]
    case DeleteLegacyRules(roleIds, permissionIds) =>
      Around(DELETE_RULES + "WHERE `v0` IN (", Strs(roleIds), ") ")
      + Alternate(["OR `v1` LIKE ", " OR `v1` LIKE ", " OR `v1` LIKE "], ["skillhub:%", "skill:%", "group:%"], " OR `v5` IN (")
      + FieldPieces(Strs(permissionIds)) + [Raw(")")]
    case DeleteRulesOf(permissionIds) =>
      Around(DELETE_RULES + "WHERE `v5` IN (", Strs(permissionIds), ")")
    case InsertRule(r) =>
      Around(INSERT_RULE,
             Strs([r.ptype, r.v0, r.v1, r.v2, r.v3, r.v4, r.v5]), ")")
  }

  function StmtText(l: Layout, s: Stmt): string {
    PiecesText(Pieces(l, s))
  }

  /** The upsert statement is what insert_on_duplicate prints. */
  lemma UpsertPrints(l: Layout, t: TableName, key: Key, values: Row, update: set<string>)
    ensures StmtText(l, Upsert(t, key, values, update))
         == InsertOnDuplicate(TableText(t), ["owner", "name"] + l.Columns(t),
                              Strs([key.0, key.1]) + RowValues(l, values, l.Columns(t)), Filtered(l.Columns(t), update))
  {
    hide Opening, Closing, RowValues, Filtered, TableText, Strs, Around;
    AroundPrints(Opening(TableText(t), ["owner", "name"] + l.Columns(t)),
                 Strs([key.0, key.1]) + RowValues(l, values, l.Columns(t)), Closing(Filtered(l.Columns(t), update)));
  }

  /** A text as sql_quote prints it, and a list of them between commas. */
  function Quoted(text: string): string {
    SqlQuote(Str(text))
  }

  function QuotedAll(texts: seq<string>): string {
    Rows.PrintFields(Strs(texts))
  }

  lemma AlternateOne(text: string, value: string, texts: seq<string>, values: seq<string>, last: string,
                     all: seq<string>, allValues: seq<string>)
    requires |texts| == |values| && all == [text] + texts && allValues == [value] + values
    ensures PiecesText(Alternate(all, allValues, last)) == text + Quoted(value) + PiecesText(Alternate(texts, values, last))
  {
    hide SqlQuote;
    var rest := Alternate(texts, values, last);
    assert all[1..] == texts && allValues[1..] == values;
    FewPieces(Raw(text), Lit(value), rest);
  }

  lemma AlternateNone(last: string)
    ensures PiecesText(Alternate([], [], last)) == last
  {
    assert [Raw(last)][1..] == [];
  }

  /** The rename, as render_clean_legacy_sql writes it. */
  lemma RenamePrints(l: Layout, owner: string, from: string, to: string, display: string, desc: string)
    ensures StmtText(l, RenameRole(owner, from, to, display, desc))
         == "UPDATE `role` SET `name`=" + Quoted(to) + (", `display_name`=" + Quoted(display) + (", `description`=" + Quoted(desc)
            + (" WHERE `owner`=" + Quoted(owner) + (" AND `name`=" + Quoted(from)
            + ((" AND NOT EXISTS (SELECT 1 FROM (" + "SELECT 1 FROM `role` WHERE `owner`=") + Quoted(owner)
            + (" AND `name`=" + Quoted(to) + " LIMIT 1) AS existing_role)"))))))
  {
    hide Quoted, Alternate, PiecesText, NOT_EXISTS;
    var end := " LIMIT 1) AS existing_role)";
    var t7, v7 := [" AND `name`="], [to];
    var t6, v6 := [NOT_EXISTS, " AND `name`="], [owner, to];
    var t5, v5 := [" AND `name`=", NOT_EXISTS, " AND `name`="], [from, owner, to];
    var t4, v4 := [" WHERE `owner`=", " AND `name`=", NOT_EXISTS, " AND `name`="], [owner, from, owner, to];
    var t3, v3 := [", `description`=", " WHERE `owner`=", " AND `name`=", NOT_EXISTS, " AND `name`="], [desc, owner, from, owner, to];
    var t2, v2 := [", `display_name`=", ", `description`=", " WHERE `owner`=", " AND `name`=", NOT_EXISTS, " AND `name`="],
                  [display, desc, owner, from, owner, to];
    AlternateNone(end);
    AlternateOne(" AND `name`=", to, [], [], end, t7, v7);
    AlternateOne(NOT_EXISTS, owner, t7, v7, end, t6, v6);
    AlternateOne(" AND `name`=", from, t6, v6, end, t5, v5);
    AlternateOne(" WHERE `owner`=", owner, t5, v5, end, t4, v4);
    AlternateOne(", `description`=", desc, t4, v4, end, t3, v3);
    AlternateOne(", `display_name`=", display, t3, v3, end, t2, v2);
    AlternateOne("UPDATE `role` SET `name`=", to, t2, v2, end,
                 ["UPDATE `role` SET `name`=", ", `display_name`=", ", `description`=", " WHERE `owner`=", " AND `name`=",
                  NOT_EXISTS, " AND `name`="],
                 [to, display, desc, owner, from, owner, to]);
    NotExistsText();
  }

  lemma NotExistsText()
    ensures NOT_EXISTS == " AND NOT EXISTS (SELECT 1 FROM (" + "SELECT 1 FROM `role` WHERE `owner`="
  {
  }

  /** The deletions and the insertion of rules, as the source writes them. */
  lemma RuleTextsPrint(l: Layout, ids: seq<string>, r: Rule)
    ensures StmtText(l, DeleteRulesOf(ids)) == "DELETE FROM `permission_rule` WHERE `v5` IN (" + QuotedAll(ids) + ")"
    ensures StmtText(l, InsertRule(r))
         == "INSERT INTO `permission_rule` " + ("(`ptype`, `v0`, `v1`, `v2`, " + "`v3`, `v4`, `v5`) VALUES (")
            + QuotedAll([r.ptype, r.v0, r.v1, r.v2, r.v3, r.v4, r.v5]) + ")"
  {
    RuleConstants();
    hide Around, DELETE_RULES, INSERT_RULE, Rows.PrintFields;
    AroundPrints(DELETE_RULES + "WHERE `v5` IN (", Strs(ids), ")");
    AroundPrints(INSERT_RULE, Strs([r.ptype, r.v0, r.v1, r.v2, r.v3, r.v4, r.v5]), ")");
  }

  lemma RuleConstants()
    ensures DELETE_RULES + "WHERE `v5` IN (" == "DELETE FROM `permission_rule` WHERE `v5` IN ("
    ensures DELETE_RULES + "WHERE `v0` IN (" == "DELETE FROM `permission_rule` WHERE `v0` IN ("
    ensures INSERT_RULE == "INSERT INTO `permission_rule` " + ("(`ptype`, `v0`, `v1`, `v2`, " + "`v3`, `v4`, `v5`) VALUES (")
  {
  }

  lemma ListPrints(before: seq<Piece>, texts: seq<string>, after: string)
    ensures PiecesText(before + FieldPieces(Strs(texts)) + [Raw(after)]) == PiecesText(before) + QuotedAll(texts) + after
  {
    hide FieldPieces, Strs;
    FieldsPrint(Strs(texts));
    assert [Raw(after)][1..] == [];
    PiecesTextAppend(before, FieldPieces(Strs(texts)));
    PiecesTextAppend(before + FieldPieces(Strs(texts)), [Raw(after)]);
  }

  lemma DeleteRowsPrints(l: Layout, t: TableName, owner: string, names: seq<string>)
    ensures StmtText(l, DeleteRows(t, owner, names))
         == "DELETE FROM `" + TableText(t) + "` WHERE `owner`=" + Quoted(owner) + " AND `name` IN (" + QuotedAll(names) + ")"
  {
    hide Quoted, QuotedAll, Alternate, PiecesText, FieldPieces, TableText;
    var first := "DELETE FROM " + Ticked(TableText(t)) + " WHERE `owner`=";
    assert first == "DELETE FROM `" + TableText(t) + "` WHERE `owner`=";
    AlternateNone(" AND `name` IN (");
    AlternateOne(first, owner, [], [], " AND `name` IN (", [first], [owner]);
    ListPrints(Alternate([first], [owner], " AND `name` IN ("), names, ")");
  }

  lemma LegacyPrints(l: Layout, roleIds: seq<string>, permissionIds: seq<string>)
    ensures StmtText(l, DeleteLegacyRules(roleIds, permissionIds))
         == "DELETE FROM `permission_rule` WHERE `v0` IN (" + QuotedAll(roleIds) + ") "
            + ("OR `v1` LIKE " + Quoted("skillhub:%") + (" OR `v1` LIKE " + Quoted("skill:%")
            + (" OR `v1` LIKE " + Quoted("group:%") + " OR `v5` IN ("))) + QuotedAll(permissionIds) + ")"
  {
    RuleConstants();
    hide Quoted, Alternate, PiecesText, FieldPieces, DELETE_RULES, Around, Rows.PrintFields;
    var first := Around(DELETE_RULES + "WHERE `v0` IN (", Strs(roleIds), ") ");
    var second := Alternate(["OR `v1` LIKE ", " OR `v1` LIKE ", " OR `v1` LIKE "], ["skillhub:%", "skill:%", "group:%"], " OR `v5` IN (");
    AroundPrints(DELETE_RULES + "WHERE `v0` IN (", Strs(roleIds), ") ");
    AlternateNone(" OR `v5` IN (");
    var t3, v3, t2, v2 := [" OR `v1` LIKE "], ["group:%"], [" OR `v1` LIKE ", " OR `v1` LIKE "], ["skill:%", "group:%"];
    AlternateOne(" OR `v1` LIKE ", "group:%", [], [], " OR `v5` IN (", t3, v3);
    AlternateOne(" OR `v1` LIKE ", "skill:%", t3, v3, " OR `v5` IN (", t2, v2);
    AlternateOne("OR `v1` LIKE ", "skillhub:%", t2, v2, " OR `v5` IN (",
                 ["OR `v1` LIKE ", " OR `v1` LIKE ", " OR `v1` LIKE "], ["skillhub:%", "skill:%", "group:%"]);
    PiecesTextAppend(first, second);
    ListPrints(first + second, permissionIds, ")");
  }

  // ----- What an upsert's text says.

  predicate Tickless(columns: seq<string>) {
    forall i :: 0 <= i < |columns| ==> '`' !in columns[i]
  }

  lemma TickFirst(a: string, rest: string, b: string, rest': string)
    requires Ticked(a) + rest == Ticked(b) + rest' && '`' !in a && '`' !in b
    ensures a == b && rest == rest'
  {
    MarkedFirst(a, rest, b, rest', '`');
  }

  lemma CommasFirst(part: string, parts: seq<string>)
    ensures Commas([part] + parts) == part + if parts == [] then "" else ", " + Commas(parts)
  {
    assert ([part] + parts)[1..] == parts;
    assert part + ", " + Commas(parts) == part + (", " + Commas(parts));
  }

  lemma {:induction false} TickedApart(a: seq<string>, b: seq<string>)
    requires Tickless(a) && Tickless(b) && Commas(TickedAll(a)) == Commas(TickedAll(b))
    ensures a == b
  {
    if a != [] && b != [] {
      CommasFirst(Ticked(a[0]), TickedAll(a[1..]));
      CommasFirst(Ticked(b[0]), TickedAll(b[1..]));
      var restA := if a[1..] == [] then "" else ", " + Commas(TickedAll(a[1..]));
      var restB := if b[1..] == [] then "" else ", " + Commas(TickedAll(b[1..]));
      hide Ticked;
      TickFirst(a[0], restA, b[0], restB);
      if a[1..] != [] && b[1..] != [] {
        assert restA[2..] == Commas(TickedAll(a[1..])) && restB[2..] == Commas(TickedAll(b[1..]));
        TickedApart(a[1..], b[1..]);
      }
      assert a == [a[0]] + a[1..] && b == [b[0]] + b[1..];
    } else {
      TickedNotEmpty(a);
      TickedNotEmpty(b);
    }
  }

  lemma TickedNotEmpty(columns: seq<string>)
    ensures columns == [] <==> Commas(TickedAll(columns)) == ""
    ensures columns == [] <==> Commas(AssignedAll(columns)) == ""
  {
  }

  lemma {:induction false} AssignedApart(a: seq<string>, b: seq<string>)
    requires Tickless(a) && Tickless(b) && Commas(AssignedAll(a)) == Commas(AssignedAll(b))
    ensures a == b
  {
    if a != [] && b != [] {
      CommasFirst(Assigned(a[0]), AssignedAll(a[1..]));
      CommasFirst(Assigned(b[0]), AssignedAll(b[1..]));
      var restA := if a[1..] == [] then "" else ", " + Commas(AssignedAll(a[1..]));
      var restB := if b[1..] == [] then "" else ", " + Commas(AssignedAll(b[1..]));
      AssignedFirst(a[0], restA, b[0], restB);
      if a[1..] != [] && b[1..] != [] {
        assert restA[2..] == Commas(AssignedAll(a[1..])) && restB[2..] == Commas(AssignedAll(b[1..]));
        AssignedApart(a[1..], b[1..]);
      }
      assert a == [a[0]] + a[1..] && b == [b[0]] + b[1..];
    } else {
      TickedNotEmpty(a);
      TickedNotEmpty(b);
    }
  }

  lemma AssignedFirst(a: string, rest: string, b: string, rest': string)
    requires Assigned(a) + rest == Assigned(b) + rest' && '`' !in a && '`' !in b
    ensures a == b && rest == rest'
  {
    var more, more' := "=VALUES(" + Ticked(a) + ")" + rest, "=VALUES(" + Ticked(b) + ")" + rest';
    assert Assigned(a) + rest == Ticked(a) + more && Assigned(b) + rest' == Ticked(b) + more';
    TickFirst(a, more, b, more');
    assert rest == more[|Ticked(a)| + 9..] && rest' == more'[|Ticked(b)| + 9..];
  }

  lemma {:induction false} FilteredExact(columns: seq<string>, update: set<string>, c: string)
    ensures c in Filtered(columns, update) <==> c in columns && c in update
  {
    if columns != [] {
      FilteredExact(columns[1..], update, c);
      assert columns == [columns[0]] + columns[1..];
    }
  }

  /** The text of an upsert says which columns it inserts and which of them it updates, in order,
      and each column's value is the row's. */
  lemma UpsertSays(l: Layout, row: Row, columns: seq<string>, others: seq<string>, update: set<string>, i: nat)
    requires Tickless(columns) && Tickless(others) && i < |columns|
    ensures Opening("t", columns) == Opening("t", others) ==> columns == others
    ensures Closing(columns) == Closing(others) ==> columns == others
    ensures columns[i] in Filtered(columns, update) <==> columns[i] in update
    ensures var text := if columns[i] in row then row[columns[i]] else "";
            RowValues(l, row, columns)[i] == if columns[i] in l.numeric then Number(text) else Str(text)
  {
    FilteredExact(columns, update, columns[i]);
    hide Ticked, Commas, TickedAll, AssignedAll;
    if Opening("t", columns) == Opening("t", others) {
      MiddleSame("INSERT INTO " + Ticked("t") + " (", Commas(TickedAll(columns)), Commas(TickedAll(others)), ") VALUES (");
      TickedApart(columns, others);
    }
    if Closing(columns) == Closing(others) {
      MiddleSame(") ON DUPLICATE KEY UPDATE ", Commas(AssignedAll(columns)), Commas(AssignedAll(others)), "");
      AssignedApart(columns, others);
    }
  }

  lemma MiddleSame(before: string, a: string, b: string, after: string)
    requires before + a + after == before + b + after
    ensures a == b
  {
    assert |a| == |b|;
    assert a == (before + a + after)[|before|..|before| + |a|] && b == (before + b + after)[|before|..|before| + |b|];
  }

  predicate SafeTexts(texts: seq<string>, safe: bool) {
    safe ==> forall i :: 0 <= i < |texts| ==> !EndsInBackslash(texts[i])
  }

  /** Columns and unquoted values are plain; with `safe`, no text in the statement ends in a backslash. */
  predicate ReadableStmt(l: Layout, s: Stmt, safe: bool) {
    match s
    case SetForeignKeyChecks(_) => true
    case Upsert(t, key, values, _) =>
      && SafeTexts([key.0, key.1], safe) && SimpleAll(l.Columns(t))
      && forall i :: 0 <= i < |l.Columns(t)| ==> ReadableValue(l.ColumnValue(values, l.Columns(t)[i]), safe)
    case RenameRole(owner, from, to, display, desc) => SafeTexts([owner, from, to, display, desc], safe)
    case DeleteRows(_, owner, names) => SafeTexts([owner], safe) && SafeTexts(names, safe)
    case DeleteLegacyRules(roleIds, permissionIds) => SafeTexts(roleIds, safe) && SafeTexts(permissionIds, safe)
    case DeleteRulesOf(permissionIds) => SafeTexts(permissionIds, safe)
    case InsertRule(r) => SafeTexts([r.ptype, r.v0, r.v1, r.v2, r.v3, r.v4, r.v5], safe)
  }

  lemma StrsReadable(texts: seq<string>, safe: bool)
    requires SafeTexts(texts, safe)
    ensures forall i :: 0 <= i < |Strs(texts)| ==> ReadableValue(Strs(texts)[i], safe)
  {
  }

  lemma UpsertReadable(l: Layout, s: Stmt, safe: bool)
    requires s.Upsert? && ReadableStmt(l, s, safe)
    ensures Readable(Pieces(l, s), safe)
  {
    var columns := l.Columns(s.table);
    assert Simple(TableText(s.table)) && Simple("owner") && Simple("name");
    hide TableText, Opening, Closing, Around, Simple, ReadableValue;
    var update := Filtered(columns, s.update);
    assert SimpleAll(update) by {
      forall i | 0 <= i < |update| ensures Simple(update[i]) {
        assert update[i] in columns;
      }
    }
    OpeningSimple(TableText(s.table), ["owner", "name"] + columns);
    ClosingSimple(update);
    StrsReadable([s.key.0, s.key.1], safe);
    AroundReadable(Opening(TableText(s.table), ["owner", "name"] + columns),
                   Strs([s.key.0, s.key.1]) + RowValues(l, s.values, columns), Closing(update), safe);
  }

  lemma RenameTextsSimple()
    ensures Simple("UPDATE `role` SET `name`=") && Simple(", `display_name`=") && Simple(", `description`=")
    ensures Simple(" WHERE `owner`=") && Simple(" AND `name`=") && Simple(" LIMIT 1) AS existing_role)")
  {
  }

  lemma RenameReadable(l: Layout, s: Stmt, safe: bool)
    requires s.RenameRole? && ReadableStmt(l, s, safe)
    ensures Readable(Pieces(l, s), safe)
  {
    NotExistsSimple();
    RenameTextsSimple();
    hide Simple, Alternate, EndsInBackslash, NOT_EXISTS;
    var values := [s.owner, s.from, s.to, s.display, s.desc];
    assert safe ==> forall i :: 0 <= i < 5 ==> !EndsInBackslash(values[i]);
    assert SafeTexts([values[2], values[3], values[4], values[0], values[1], values[0], values[2]], safe);
    AlternateReadable(["UPDATE `role` SET `name`=", ", `display_name`=", ", `description`=", " WHERE `owner`=", " AND `name`=",
                       NOT_EXISTS, " AND `name`="],
                      [s.to, s.display, s.desc, s.owner, s.from, s.owner, s.to], " LIMIT 1) AS existing_role)", safe);
  }

  lemma DeleteTextsSimple(t: TableName)
    ensures Simple("DELETE FROM " + Ticked(TableText(t)) + " WHERE `owner`=") && Simple(" AND `name` IN (") && Simple(")")
  {
    assert Simple(TableText(t)) && Simple("`") && Simple("DELETE FROM ") && Simple(" WHERE `owner`=");
    hide Simple, TableText;
    SimpleAppend("`", TableText(t));
    SimpleAppend("`" + TableText(t), "`");
    SimpleAppend("DELETE FROM ", Ticked(TableText(t)));
    SimpleAppend("DELETE FROM " + Ticked(TableText(t)), " WHERE `owner`=");
  }

  lemma DeleteReadable(l: Layout, s: Stmt, safe: bool)
    requires s.DeleteRows? && ReadableStmt(l, s, safe)
    ensures Readable(Pieces(l, s), safe)
  {
    var text := "DELETE FROM " + Ticked(TableText(s.table)) + " WHERE `owner`=";
    DeleteTextsSimple(s.table);
    hide Simple, Alternate, FieldPieces;
    AlternateReadable([text], [s.owner], " AND `name` IN (", safe);
    EndingReadable(Alternate([text], [s.owner], " AND `name` IN ("), s.names, ")", safe);
  }

  lemma LegacyTextsSimple(safe: bool)
    ensures Simple(") ") && Simple(")") && Simple("OR `v1` LIKE ") && Simple(" OR `v1` LIKE ") && Simple(" OR `v5` IN (")
    ensures SafeTexts(["skillhub:%", "skill:%", "group:%"], safe)
  {
  }

  lemma LegacyReadable(l: Layout, s: Stmt, safe: bool)
    requires s.DeleteLegacyRules? && ReadableStmt(l, s, safe)
    ensures Readable(Pieces(l, s), safe)
  {
    DeleteRulesSimple();
    LegacyTextsSimple(safe);
    hide Simple, Alternate, FieldPieces, SafeTexts, DELETE_RULES;
    var first := Around(DELETE_RULES + "WHERE `v0` IN (", Strs(s.roleIds), ") ");
    var second := Alternate(["OR `v1` LIKE ", " OR `v1` LIKE ", " OR `v1` LIKE "], ["skillhub:%", "skill:%", "group:%"], " OR `v5` IN (");
    StrsReadable(s.roleIds, safe);
    AroundReadable(DELETE_RULES + "WHERE `v0` IN (", Strs(s.roleIds), ") ", safe);
    AlternateReadable(["OR `v1` LIKE ", " OR `v1` LIKE ", " OR `v1` LIKE "], ["skillhub:%", "skill:%", "group:%"], " OR `v5` IN (", safe);
    ReadableAppend(first, second, safe);
    EndingReadable(first + second, s.permissionIds, ")", safe);
  }

  lemma ValuesReadable(before: string, texts: seq<string>, safe: bool)
    requires Simple(before) && SafeTexts(texts, safe)
    ensures Readable(Around(before, Strs(texts), ")"), safe)
  {
    assert Simple(")");
    hide Simple;
    StrsReadable(texts, safe);
    AroundReadable(before, Strs(texts), ")", safe);
  }

  /** Every statement has the shape that the scanner's law speaks of. */
  lemma StmtReadable(l: Layout, s: Stmt, safe: bool)
    requires ReadableStmt(l, s, safe)
    ensures Readable(Pieces(l, s), safe)
  {
    match s
    case Upsert(_, _, _, _) => UpsertReadable(l, s, safe);
    case SetForeignKeyChecks(on) => SwitchReadable(l, s, safe);
    case RenameRole(_, _, _, _, _) => RenameReadable(l, s, safe);
    case DeleteRows(_, _, _) => DeleteReadable(l, s, safe);
    case DeleteLegacyRules(_, _) => LegacyReadable(l, s, safe);
    case DeleteRulesOf(permissionIds) =>
      DeleteRulesSimple();
      hide Simple, SafeTexts;
      ValuesReadable(DELETE_RULES + "WHERE `v5` IN (", permissionIds, safe);
    case InsertRule(r) =>
      InsertRuleSimple();
      hide Simple, SafeTexts;
      ValuesReadable(INSERT_RULE, [r.ptype, r.v0, r.v1, r.v2, r.v3, r.v4, r.v5], safe);
  }

  lemma SwitchReadable(l: Layout, s: Stmt, safe: bool)
    requires s.SetForeignKeyChecks?
    ensures Readable(Pieces(l, s), safe)
  {
    assert Simple("SET FOREIGN_KEY_CHECKS=") && Simple("1") && Simple("0");
    hide Simple;
    SimpleAppend("SET FOREIGN_KEY_CHECKS=", if s.on then "1" else "0");
    assert Pieces(l, s)[1..] == [];
  }

  // ----- A whole file.

  /** A line of a seed file. */
  datatype Line = Blank | Note(text: string) | Command(stmt: Stmt)

  predicate PlainLine(l: Layout, line: Line) {
    match line
    case Blank => true
    case Note(text) => Laws.WellFormed(Laws.Comment(text))
    case Command(s) => ReadableStmt(l, s, false)
  }

  predicate PlainLines(l: Layout, lines: seq<Line>) {
    forall i :: 0 <= i < |lines| ==> PlainLine(l, lines[i])
  }

  function LineText(l: Layout, line: Line): string {
    match line
    case Blank => "\n"
    case Note(text) => "--" + text + "\n"
    case Command(s) => StmtText(l, s) + ";\n"
  }

  function SeedFile(l: Layout, lines: seq<Line>): string {
    if lines == [] then "" else LineText(l, lines[0]) + SeedFile(l, lines[1..])
  }

  /** The program that a file's lines hold, blank lines and comments left out. */
  function Commands(lines: seq<Line>): seq<Stmt> {
    if lines == [] then []
    else (if lines[0].Command? then [lines[0].stmt] else []) + Commands(lines[1..])
  }

  /** The statements of a program, as the importer is to find them. */
  function Printed(l: Layout, program: seq<Stmt>): seq<string> {
    if program == [] then [] else Emit([], StmtText(l, program[0])) + Printed(l, program[1..])
  }

  /** Where the scanner takes itself to be at the end of a statement. */
  function StmtEnd(l: Layout, s: Stmt): Place {
    Through(Literals(Pieces(l, s)), Out)
  }

  predicate AllEndOutside(l: Layout, program: seq<Stmt>) {
    forall i :: 0 <= i < |program| ==> StmtEnd(l, program[i]) == Out
  }

  function LineItems(l: Layout, line: Line): seq<Laws.Item> {
    match line
    case Blank => [Laws.NewLine]
    case Note(text) => [Laws.Comment(text)]
    case Command(s) => [Laws.Stmt(Statement(Pieces(l, s))), Laws.NewLine]
  }

  function Items(l: Layout, lines: seq<Line>): seq<Laws.Item> {
    if lines == [] then [] else LineItems(l, lines[0]) + Items(l, lines[1..])
  }

  lemma {:induction false} ItemsAppend(a: seq<Laws.Item>, b: seq<Laws.Item>)
    ensures Laws.FileText(a + b) == Laws.FileText(a) + Laws.FileText(b)
    ensures Laws.StatementsOf(a + b) == Laws.StatementsOf(a) + Laws.StatementsOf(b)
  {
    hide Laws.ItemText, Emit, Laws.StatementText;
    if a == [] {
      assert a + b == b;
    } else {
      assert (a + b)[1..] == a[1..] + b;
      ItemsAppend(a[1..], b);
    }
  }

  predicate WellFormedItems(items: seq<Laws.Item>) {
    forall k :: 0 <= k < |items| ==> Laws.WellFormed(items[k])
  }

  predicate FoundItems(items: seq<Laws.Item>) {
    forall k :: 0 <= k < |items| ==> Laws.Found(items[k])
  }

  lemma ItemsTogether(a: seq<Laws.Item>, b: seq<Laws.Item>)
    ensures WellFormedItems(a + b) <==> WellFormedItems(a) && WellFormedItems(b)
    ensures FoundItems(a + b) <==> FoundItems(a) && FoundItems(b)
  {
    hide Laws.WellFormed, Laws.Found;
    forall k | 0 <= k < |b| ensures (a + b)[|a| + k] == b[k] {
    }
    forall k | 0 <= k < |a| ensures (a + b)[k] == a[k] {
    }
  }

  lemma LineItemsText(l: Layout, line: Line)
    requires PlainLine(l, line)
    ensures Laws.FileText(LineItems(l, line)) == LineText(l, line)
    ensures Laws.StatementsOf(LineItems(l, line)) == if line.Command? then Emit([], StmtText(l, line.stmt)) else []
    ensures WellFormedItems(LineItems(l, line))
    ensures FoundItems(LineItems(l, line)) <==> (line.Command? ==> StmtEnd(l, line.stmt) == Out)
  {
    hide Laws.StatementText, Emit, Laws.WellFormedStatement, Pieces, ReadableStmt, Laws.End, Through, Literals;
    var items := LineItems(l, line);
    if line.Command? {
      var pieces, text := Pieces(l, line.stmt), StmtText(l, line.stmt);
      StmtReadable(l, line.stmt, false);
      StatementPrints(pieces);
      ReadableIsWellFormed(pieces, false);
      hide Statement, StmtText;
      assert items[1..] == [Laws.NewLine] && [Laws.NewLine][1..] == [];
      assert Laws.FileText([Laws.NewLine]) == "\n" + "";
      assert Laws.FileText(items) == text + ";" + Laws.FileText([Laws.NewLine]) == text + ";\n";
      assert Laws.StatementsOf([Laws.NewLine]) == [] + [];
      assert Laws.StatementsOf(items) == Emit([], text) + [];
      assert Laws.Found(items[0]) <==> StmtEnd(l, line.stmt) == Out;
    } else {
      assert items[1..] == [];
    }
  }

  lemma CommandsCons(l: Layout, lines: seq<Line>)
    requires lines != []
    ensures Printed(l, Commands(lines))
         == (if lines[0].Command? then Emit([], StmtText(l, lines[0].stmt)) else []) + Printed(l, Commands(lines[1..]))
    ensures AllEndOutside(l, Commands(lines)) <==>
            (lines[0].Command? ==> StmtEnd(l, lines[0].stmt) == Out) && AllEndOutside(l, Commands(lines[1..]))
  {
    hide StmtText, Emit, StmtEnd;
    var program, rest := Commands(lines), Commands(lines[1..]);
    if lines[0].Command? {
      assert program == [lines[0].stmt] + rest && program[1..] == rest;
      forall i | 0 <= i < |rest| ensures program[i + 1] == rest[i] {
      }
    } else {
      assert program == rest;
    }
  }

  lemma NoLines(l: Layout)
    ensures Laws.FileText(Items(l, [])) == SeedFile(l, []) && Laws.StatementsOf(Items(l, [])) == Printed(l, Commands([]))
    ensures WellFormedItems(Items(l, [])) && FoundItems(Items(l, [])) && AllEndOutside(l, Commands([]))
  {
  }

  lemma {:induction false} SeedFileItems(l: Layout, lines: seq<Line>)
    requires PlainLines(l, lines)
    ensures Laws.FileText(Items(l, lines)) == SeedFile(l, lines) && Laws.StatementsOf(Items(l, lines)) == Printed(l, Commands(lines))
    ensures WellFormedItems(Items(l, lines)) && (FoundItems(Items(l, lines)) <==> AllEndOutside(l, Commands(lines)))
  {
    hide LineItems, LineText, PlainLine, StmtText, StmtEnd, Emit, Printed, Commands, Laws.FileText, Laws.StatementsOf,
         WellFormedItems, FoundItems, AllEndOutside;
    if lines == [] {
      NoLines(l);
    } else {
      SeedFileItems(l, lines[1..]);
      LineItemsText(l, lines[0]);
      ItemsAppend(LineItems(l, lines[0]), Items(l, lines[1..]));
      ItemsTogether(LineItems(l, lines[0]), Items(l, lines[1..]));
      CommandsCons(l, lines);
    }
  }

  /** Whatever the values of its statements: the importer finds exactly the statements that the
      generator printed, in order, if and only if each of them ends outside. */
  lemma SeedReadBackIff(l: Layout, lines: seq<Line>)
    requires PlainLines(l, lines)
    ensures Statements(SeedFile(l, lines)) == Printed(l, Commands(lines)) <==> AllEndOutside(l, Commands(lines))
  {
    var items := Items(l, lines);
    SeedFileItems(l, lines);
    Laws.NoTail();
    hide Statements, StmtEnd, SeedFile, Printed, Commands, Emit, PlainLines, Items, AllEndOutside, Laws.FileText, Laws.StatementsOf,
         Laws.StatementText, Laws.WellFormed, Laws.Found, Laws.WellFormedStatement, Laws.End;
    Laws.ReadBackIff(items, Laws.NOTHING);
    assert Laws.FileText(items) + "" == Laws.FileText(items) && Laws.StatementsOf(items) + [] == Laws.StatementsOf(items);
  }

  // ----- The texts themselves.

  /** The texts of a program's statements. */
  function Texts(l: Layout, program: seq<Stmt>): seq<string> {
    if program == [] then [] else [StmtText(l, program[0])] + Texts(l, program[1..])
  }

  /** An upsert names a column to update. */
  ghost predicate Updates(l: Layout, s: Stmt) {
    s.Upsert? ==> exists c :: c in l.Columns(s.table) && c in s.update
  }

  lemma {:induction false} FilteredKeeps(columns: seq<string>, update: set<string>, c: string)
    requires c in columns && c in update
    ensures Filtered(columns, update) != []
  {
    if columns[0] !in update {
      assert columns == [columns[0]] + columns[1..];
      FilteredKeeps(columns[1..], update, c);
    }
  }

  predicate Begins(s: string) {
    s != "" && '!' <= s[0] <= '~'
  }

  predicate Ends(s: string) {
    s != "" && '!' <= s[|s| - 1] <= '~'
  }

  lemma EndsAppend(a: string, b: string)
    ensures Begins(a) ==> Begins(a + b)
    ensures Ends(b) ==> Ends(a + b)
  {
  }

  lemma {:induction false} AssignedEnds(update: seq<string>)
    requires update != []
    ensures Ends(Commas(AssignedAll(update)))
  {
    if |update| > 1 {
      AssignedEnds(update[1..]);
      assert AssignedAll(update)[1..] == AssignedAll(update[1..]);
    }
  }

  lemma UpsertEnds(t: TableName, columns: seq<string>, update: seq<string>)
    requires update != []
    ensures Begins(Opening(TableText(t), columns)) && Ends(Closing(update))
  {
    AssignedEnds(update);
    assert Begins("INSERT INTO ");
    hide Ends, Commas;
    EndsAppend(") ON DUPLICATE KEY UPDATE ", Commas(AssignedAll(update)));
  }

  /** Pieces between two stretches begin and end as those do. */
  lemma Framed(pieces: seq<Piece>)
    requires |pieces| >= 1 && pieces[0].Raw? && pieces[|pieces| - 1].Raw?
    requires Begins(pieces[0].text) && Ends(pieces[|pieces| - 1].text)
    ensures Laws.Solid(PiecesText(pieces))
  {
    hide Begins, Ends;
    var n := |pieces| - 1;
    var first, last := pieces[0].text, pieces[n].text;
    assert [Raw(first)][1..] == [] && [Raw(last)][1..] == [];
    assert PiecesText([Raw(first)]) == first && PiecesText([Raw(last)]) == last;
    assert pieces == pieces[..n] + [Raw(last)] && pieces == [Raw(first)] + pieces[1..];
    PiecesTextAppend(pieces[..n], [Raw(last)]);
    PiecesTextAppend([Raw(first)], pieces[1..]);
    EndsAppend(first, PiecesText(pieces[1..]));
    EndsAppend(PiecesText(pieces[..n]), last);
    BeginsEnds(PiecesText(pieces));
  }

  lemma BeginsEnds(s: string)
    requires Begins(s) && Ends(s)
    ensures Laws.Solid(s)
  {
  }

  lemma {:induction false} AlternateEnds(texts: seq<string>, values: seq<string>, last: string)
    requires |texts| == |values| && texts != []
    ensures var pieces := Alternate(texts, values, last);
            pieces[0] == Raw(texts[0]) && |pieces| > 1 && pieces[|pieces| - 1] == Raw(last)
  {
    if |texts| > 1 {
      AlternateEnds(texts[1..], values[1..], last);
    }
  }

  lemma FixedEnds()
    ensures Ends("0") && Ends("1") && Ends(")") && Ends(" LIMIT 1) AS existing_role)")
    ensures Begins("SET FOREIGN_KEY_CHECKS=") && Begins("UPDATE `role` SET `name`=") && Begins("DELETE FROM ")
    ensures Begins(DELETE_RULES) && Begins(INSERT_RULE)
  {
    assert Begins("INSERT INTO `permission_rule` ");
  }

  lemma UpsertSolid(l: Layout, s: Stmt)
    requires s.Upsert? && Updates(l, s)
    ensures Laws.Solid(StmtText(l, s))
  {
    var columns := l.Columns(s.table);
    var c :| c in columns && c in s.update;
    FilteredKeeps(columns, s.update, c);
    UpsertEnds(s.table, ["owner", "name"] + columns, Filtered(columns, s.update));
    hide Begins, Ends, Opening, Closing, FieldPieces, Filtered, RowValues;
    Framed(Pieces(l, s));
  }

  lemma RenameSolid(l: Layout, s: Stmt)
    requires s.RenameRole?
    ensures Laws.Solid(StmtText(l, s))
  {
    FixedEnds();
    AlternateEnds(["UPDATE `role` SET `name`=", ", `display_name`=", ", `description`=", " WHERE `owner`=", " AND `name`=",
                   NOT_EXISTS, " AND `name`="],
                  [s.to, s.display, s.desc, s.owner, s.from, s.owner, s.to], " LIMIT 1) AS existing_role)");
    hide Begins, Ends, Alternate;
    Framed(Pieces(l, s));
  }

  lemma DeleteSolid(l: Layout, s: Stmt)
    requires s.DeleteRows?
    ensures Laws.Solid(StmtText(l, s))
  {
    FixedEnds();
    var first := "DELETE FROM " + Ticked(TableText(s.table)) + " WHERE `owner`=";
    AlternateEnds([first], [s.owner], " AND `name` IN (");
    hide Begins, Ends, Alternate, FieldPieces, TableText;
    EndsAppend("DELETE FROM ", Ticked(TableText(s.table)) + " WHERE `owner`=");
    assert first == "DELETE FROM " + (Ticked(TableText(s.table)) + " WHERE `owner`=");
    Framed(Pieces(l, s));
  }

  /** Every statement begins and ends with a printed character. */
  lemma StmtSolid(l: Layout, s: Stmt)
    requires Updates(l, s)
    ensures Laws.Solid(StmtText(l, s))
  {
    hide Begins, Ends, Alternate, FieldPieces, DELETE_RULES, INSERT_RULE, Updates, StmtText;
    match s
    case Upsert(_, _, _, _) => UpsertSolid(l, s);
    case RenameRole(_, _, _, _, _) => RenameSolid(l, s);
    case DeleteRows(_, _, _) => DeleteSolid(l, s);
    case _ => OtherSolid(l, s);
  }

  lemma OtherSolid(l: Layout, s: Stmt)
    requires s.SetForeignKeyChecks? || s.DeleteLegacyRules? || s.DeleteRulesOf? || s.InsertRule?
    ensures Laws.Solid(StmtText(l, s))
  {
    FixedEnds();
    hide Begins, Ends, Alternate, FieldPieces, DELETE_RULES, INSERT_RULE;
    EndsAppend("SET FOREIGN_KEY_CHECKS=", "0");
    EndsAppend("SET FOREIGN_KEY_CHECKS=", "1");
    EndsAppend(DELETE_RULES, "WHERE `v0` IN (");
    EndsAppend(DELETE_RULES, "WHERE `v5` IN (");
    Framed(Pieces(l, s));
  }

  lemma {:induction false} PrintedWhole(l: Layout, program: seq<Stmt>)
    requires forall i :: 0 <= i < |program| ==> Updates(l, program[i])
    ensures Printed(l, program) == Texts(l, program)
  {
    hide StmtText, Updates, Emit;
    if program != [] {
      StmtSolid(l, program[0]);
      SolidPadsItself(StmtText(l, program[0]));
      Laws.EmitPadded(StmtText(l, program[0]), StmtText(l, program[0]));
      PrintedWhole(l, program[1..]);
    }
  }

  lemma SolidPadsItself(s: string)
    requires Laws.Solid(s)
    ensures Laws.PaddedWith(s, s)
  {
    assert Laws.Blanks("") && s == "" + s + "";
  }

  /** The importer gets the very texts that the generator printed, in order, if and only if each
      statement ends outside. */
  lemma SeedComesBackIff(l: Layout, lines: seq<Line>)
    requires PlainLines(l, lines) && forall i :: 0 <= i < |Commands(lines)| ==> Updates(l, Commands(lines)[i])
    ensures Statements(SeedFile(l, lines)) == Texts(l, Commands(lines)) <==> AllEndOutside(l, Commands(lines))
  {
    hide Updates, PlainLines, Statements, SeedFile, AllEndOutside, Commands, Texts, Printed;
    PrintedWhole(l, Commands(lines));
    SeedReadBackIff(l, lines);
  }
}
