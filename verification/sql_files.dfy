/** What the scanner returns for the files the seed generator writes. */
module SqlStatementsLaws {
  import opened Text
  import opened SqlText
  import opened SqlStatements
  import opened SqlWalk

  /** A string literal and the plain SQL after it. */
  datatype Segment = Segment(value: string, chunk: string)

  datatype Statement = Statement(head: string, segments: seq<Segment>)

  datatype Item = NewLine | Comment(text: string) | Stmt(stmt: Statement)

  function SegmentText(segment: Segment): string {
    SqlQuote(Str(segment.value)) + segment.chunk
  }

  function SegmentsText(segments: seq<Segment>): string {
    if segments == [] then "" else SegmentText(segments[0]) + SegmentsText(segments[1..])
  }

  function StatementText(s: Statement): string {
    s.head + SegmentsText(s.segments)
  }

  function ItemText(item: Item): string {
    match item
    case NewLine => "\n"
    case Comment(text) => "--" + text + "\n"
    case Stmt(stmt) => StatementText(stmt) + ";"
  }

  function FileText(items: seq<Item>): string {
    if items == [] then "" else ItemText(items[0]) + FileText(items[1..])
  }

  /** The statements of a file, in order. */
  function StatementsOf(items: seq<Item>): seq<string> {
    if items == [] then []
    else (if items[0].Stmt? then Emit([], StatementText(items[0].stmt)) else []) + StatementsOf(items[1..])
  }

  /** The text between literals is plain, no two literals touch, and none follows a backslash. */
  predicate Shaped(segments: seq<Segment>) {
    forall k :: 0 <= k < |segments| ==>
      && Plain(segments[k].chunk)
      && (k + 1 < |segments| ==> segments[k].chunk != "" && !EndsInBackslash(segments[k].chunk))
  }

  predicate WellFormedStatement(s: Statement) {
    Plain(s.head) && (s.segments != [] ==> !EndsInBackslash(s.head)) && Shaped(s.segments)
  }

  /** Where the scanner is after literals that it begins to read at a place. */
  function Follow(segments: seq<Segment>, at: Place): Place
    decreases |segments|
  {
    if segments == [] then at else Follow(segments[1..], Over(segments[0].value, at))
  }

  /** Where the scanner takes itself to be at the end of a statement. */
  function End(s: Statement): Place {
    Follow(s.segments, Out)
  }

  // ----- The place in terms of the values: parity.

  /** No value ends in a backslash. */
  predicate Safe(segments: seq<Segment>) {
    forall k :: 0 <= k < |segments| ==> !EndsInBackslash(segments[k].value)
  }

  lemma {:induction false} FollowLost(segments: seq<Segment>)
    ensures Follow(segments, Lost) == Lost
  {
    hide Walk;
    if segments != [] {
      OverFromOutside(segments[0].value);
      FollowLost(segments[1..]);
    }
  }

  /** A statement whose values do not end in a backslash ends outside, whatever else they hold. */
  lemma {:induction false} SafeEndsOutside(segments: seq<Segment>)
    requires Safe(segments)
    ensures Follow(segments, Out) == Out
  {
    hide Over, EndsInBackslash;
    if segments != [] {
      OverFromOutside(segments[0].value);
      SafeEndsOutside(segments[1..]);
    }
  }

  /** An odd number of the values end in a backslash. */
  predicate Odd(segments: seq<Segment>) {
    segments != [] && EndsInBackslash(segments[0].value) != Odd(segments[1..])
  }

  /** Each value that follows an odd number of values ending in a backslash is calm; `open` says
      whether the number before these segments is odd. */
  predicate CalmWhenOpen(open: bool, segments: seq<Segment>)
    decreases |segments|
  {
    segments == [] ||
    ((open ==> Calm(segments[0].value, false, false)) && CalmWhenOpen(open != EndsInBackslash(segments[0].value), segments[1..]))
  }

  /** With such values the place is decided by parity. */
  lemma {:induction false} FollowParity(open: bool, segments: seq<Segment>)
    requires CalmWhenOpen(open, segments)
    ensures Follow(segments, if open then Single else Out) == if open != Odd(segments) then Single else Out
    decreases |segments|
  {
    hide Over, EndsInBackslash, Calm;
    if segments != [] {
      OverFromOutside(segments[0].value);
      if open { OverFromInside(segments[0].value); }
      FollowParity(open != EndsInBackslash(segments[0].value), segments[1..]);
    }
  }

  predicate WellFormed(item: Item) {
    match item
    case NewLine => true
    case Comment(text) => forall k :: 0 <= k < |text| ==> text[k] != '\n' && text[k] != '\r'
    case Stmt(stmt) => WellFormedStatement(stmt)
  }

  function Outside(buf: string, done: seq<string>): State {
    Standing(Out, buf, done)
  }

  /** A statement ends at a semicolon or with the text. */
  predicate EndsAt(text: string, i: nat) {
    i == |text| || (i < |text| && text[i] == ';')
  }

  lemma LiteralStart(value: string)
    ensures SqlQuote(Str(value)) != "" && SqlQuote(Str(value))[0] == QUOTE
  {
  }

  /** After a chunk comes the quote of the next literal, or the end of the statement. */
  lemma TailStart(text: string, i: nat, segments: seq<Segment>)
    requires At(text, i, SegmentsText(segments)) && EndsAt(text, i + |SegmentsText(segments)|)
    ensures NotAt(text, i, '-')
    ensures if segments == [] then EndsAt(text, i) else i < |text| && text[i] == QUOTE
  {
    hide SqlQuote;
    if segments != [] {
      LiteralStart(segments[0].value);
      AtChar(text, i, SegmentsText(segments), 0);
    }
  }

  lemma ChunkStart(text: string, i: nat, chunk: string)
    requires At(text, i, chunk) && Plain(chunk) && (chunk == "" ==> EndsAt(text, i))
    ensures NotAt(text, i, QUOTE)
  {
    if chunk != "" { AtChar(text, i, chunk, 0); }
  }

  lemma ChunkEnd(text: string, i: nat, chunk: string)
    requires At(text, i, chunk) && chunk != "" && !EndsInBackslash(chunk)
    ensures !Hidden(text, i + |chunk|)
  {
    AtChar(text, i, chunk, |chunk| - 1);
  }

  /** A literal and the chunk after it, up to a quote or the end of the statement. */
  lemma ScanSegment(text: string, i: nat, segment: Segment, at: Place, buf: string, done: seq<string>)
    requires At(text, i, SegmentText(segment)) && Plain(segment.chunk) && at != Lost && !Hidden(text, i)
    requires var n := i + |SegmentText(segment)|; NotAt(text, n, '-') && (segment.chunk == "" ==> EndsAt(text, n))
    ensures Leads(text, i, Standing(at, buf, done), SegmentText(segment), Over(segment.value, at))
  {
    hide Leads, Plain, At, SqlQuote, Hidden, Over;
    var literal, to := SqlQuote(Str(segment.value)), Over(segment.value, at);
    AtAppend(text, i, literal, segment.chunk);
    ChunkStart(text, i + |literal|, segment.chunk);
    ScanLiteral(text, i, segment.value, at, buf, done);
    if to == Lost {
      LostStays(text, i, Standing(at, buf, done), literal, segment.chunk);
    } else {
      ScanPlain(text, i + |literal|, segment.chunk, to, buf + literal, done);
      LeadsOn(text, i, Standing(at, buf, done), literal, to, segment.chunk, to);
    }
  }

  /** A chunk that another literal follows does not end in a backslash. */
  lemma SegmentEnds(text: string, i: nat, segment: Segment)
    requires At(text, i, SegmentText(segment)) && segment.chunk != "" && !EndsInBackslash(segment.chunk)
    ensures !Hidden(text, i + |SegmentText(segment)|)
  {
    hide At, SqlQuote;
    AtAppend(text, i, SqlQuote(Str(segment.value)), segment.chunk);
    ChunkEnd(text, i + |SqlQuote(Str(segment.value))|, segment.chunk);
  }

  lemma {:induction false} ScanSegments(text: string, i: nat, segments: seq<Segment>, at: Place, buf: string, done: seq<string>)
    requires At(text, i, SegmentsText(segments)) && Shaped(segments) && at != Lost
    requires EndsAt(text, i + |SegmentsText(segments)|)
    requires segments != [] ==> !Hidden(text, i)
    ensures Leads(text, i, Standing(at, buf, done), SegmentsText(segments), Follow(segments, at))
    decreases |segments|
  {
    hide Leads, Plain, At, SegmentText, EndsInBackslash, Hidden, Over, EndsAt, NotAt;
    if segments == [] {
      LeadsNowhere(text, i, at, buf, done);
    } else {
      var rest, to, first := segments[1..], Over(segments[0].value, at), SegmentText(segments[0]);
      var n := i + |first|;
      AtAppend(text, i, first, SegmentsText(rest));
      TailStart(text, n, rest);
      ScanSegment(text, i, segments[0], at, buf, done);
      if to == Lost {
        FollowLost(rest);
        LostStays(text, i, Standing(at, buf, done), first, SegmentsText(rest));
      } else {
        if rest != [] { SegmentEnds(text, i, segments[0]); }
        assert forall k :: 0 <= k < |rest| ==> rest[k] == segments[k + 1];
        ScanSegments(text, n, rest, to, buf + first, done);
        LeadsOn(text, i, Standing(at, buf, done), first, to, SegmentsText(rest), Follow(rest, to));
      }
    }
  }

  lemma LeadsNowhere(text: string, i: nat, at: Place, buf: string, done: seq<string>)
    requires EndsAt(text, i) && at != Lost
    ensures Leads(text, i, Standing(at, buf, done), "", at)
  {
    hide Scan;
    assert buf + "" == buf;
  }

  /** A statement is copied up to its end, or lost on the way. */
  lemma ScanStatement(text: string, i: nat, s: Statement, buf: string, done: seq<string>)
    requires At(text, i, StatementText(s)) && EndsAt(text, i + |StatementText(s)|) && WellFormedStatement(s) && !Hidden(text, i)
    ensures Leads(text, i, Outside(buf, done), StatementText(s), End(s))
  {
    hide Leads, Plain, At, Shaped, Follow, SegmentsText, Hidden, EndsInBackslash;
    var tail := SegmentsText(s.segments);
    AtAppend(text, i, s.head, tail);
    TailStart(text, i + |s.head|, s.segments);
    ScanPlain(text, i, s.head, Out, buf, done);
    if s.segments != [] && s.head != "" { ChunkEnd(text, i, s.head); }
    ScanSegments(text, i + |s.head|, s.segments, Out, buf + s.head, done);
    LeadsOn(text, i, Outside(buf, done), s.head, Out, tail, End(s));
  }

  lemma ScanSemicolon(text: string, i: nat, at: Place, buf: string, done: seq<string>)
    requires i < |text| && text[i] == ';' && at != Lost
    ensures Scan(text, i, Standing(at, buf, done))
         == Scan(text, i + 1, if at == Out then Outside("", Emit(done, buf)) else Standing(at, buf + ";", done))
  {
    hide Strip;
  }

  function InComment(buf: string, done: seq<string>): State {
    State(false, false, true, buf, done)
  }

  lemma ScanDashes(text: string, i: nat, buf: string, done: seq<string>)
    requires i + 2 <= |text| && text[i] == '-' && text[i + 1] == '-'
    ensures Scan(text, i, Outside(buf, done)) == Scan(text, i + 2, InComment(buf, done))
  {
    hide Strip;
  }

  lemma ScanCommentChar(text: string, i: nat, buf: string, done: seq<string>)
    requires i < |text| && text[i] != '\r'
    ensures Scan(text, i, InComment(buf, done))
         == Scan(text, i + 1, if text[i] == '\n' then Outside(buf + "\n", done) else InComment(buf, done))
  {
    hide Strip;
  }

  lemma {:induction false} ScanCommentText(text: string, i: nat, comment: string, buf: string, done: seq<string>)
    requires At(text, i, comment + "\n") && WellFormed(Comment(comment))
    ensures Scan(text, i, InComment(buf, done)) == Scan(text, i + |comment| + 1, Outside(buf + "\n", done))
    decreases |comment|
  {
    hide Scan, At;
    AtChar(text, i, comment + "\n", 0);
    ScanCommentChar(text, i, buf, done);
    if comment != "" {
      assert comment + "\n" == comment[..1] + (comment[1..] + "\n");
      AtAppend(text, i, comment[..1], comment[1..] + "\n");
      ScanCommentText(text, i + 1, comment[1..], buf, done);
    }
  }

  /** An item that is no statement, or one that the scanner ends outside. */
  predicate Found(item: Item) {
    item.Stmt? ==> End(item.stmt) == Out
  }

  /** The scanner after an item that is found. */
  function After(item: Item, buf: string, done: seq<string>): State {
    if item.Stmt? then Outside("", Emit(done, buf + StatementText(item.stmt))) else Outside(buf + "\n", done)
  }

  lemma ItemEnds(text: string, i: nat, item: Item)
    requires At(text, i, ItemText(item))
    ensures !Hidden(text, i + |ItemText(item)|)
  {
    hide StatementText;
    AtChar(text, i, ItemText(item), |ItemText(item)| - 1);
  }

  lemma StatementAt(text: string, i: nat, s: Statement)
    requires At(text, i, StatementText(s) + ";")
    ensures At(text, i, StatementText(s)) && EndsAt(text, i + |StatementText(s)|)
    ensures var n := i + |StatementText(s)|; n < |text| && text[n] == ';'
  {
    hide StatementText, At;
    AtAppend(text, i, StatementText(s), ";");
    AtChar(text, i + |StatementText(s)|, ";", 0);
  }

  /** A character, as the scanner's lemmas ask for it. */
  lemma OneAt(text: string, i: nat, c: char)
    requires At(text, i, [c])
    ensures i < |text| && text[i] == c
  {
    AtChar(text, i, [c], 0);
  }

  lemma TwoAt(text: string, i: nat, a: string, b: string)
    requires At(text, i, a + b)
    ensures At(text, i, a) && At(text, i + |a|, b)
  {
    AtAppend(text, i, a, b);
  }

  lemma ScanNewLine(text: string, i: nat, buf: string, done: seq<string>)
    requires At(text, i, "\n")
    ensures Scan(text, i, Outside(buf, done)) == Scan(text, i + 1, Outside(buf + "\n", done))
  {
    AtChar(text, i, "\n", 0);
    CopyOne(text, i, Out, buf, done);
    hide Scan;
  }

  lemma ScanComment(text: string, i: nat, comment: string, buf: string, done: seq<string>)
    requires At(text, i, "--" + comment + "\n") && WellFormed(Comment(comment))
    ensures Scan(text, i, Outside(buf, done)) == Scan(text, i + |comment| + 3, Outside(buf + "\n", done))
  {
    hide Scan, At;
    assert "--" + comment + "\n" == ['-'] + (['-'] + (comment + "\n"));
    TwoAt(text, i, ['-'], ['-'] + (comment + "\n"));
    TwoAt(text, i + 1, ['-'], comment + "\n");
    OneAt(text, i, '-');
    OneAt(text, i + 1, '-');
    ScanDashes(text, i, buf, done);
    ScanCommentText(text, i + 2, comment, buf, done);
  }

  lemma ScanItem(text: string, i: nat, item: Item, buf: string, done: seq<string>)
    requires At(text, i, ItemText(item)) && WellFormed(item) && Found(item) && !Hidden(text, i)
    ensures Scan(text, i, Outside(buf, done)) == Scan(text, i + |ItemText(item)|, After(item, buf, done))
  {
    hide Scan, Emit, StatementText, At, WellFormedStatement, Hidden, End;
    match item
    case NewLine => ScanNewLine(text, i, buf, done);
    case Comment(comment) => ScanComment(text, i, comment, buf, done);
    case Stmt(s) =>
      StatementAt(text, i, s);
      ScanStatement(text, i, s, buf, done);
      ScanSemicolon(text, i + |StatementText(s)|, Out, buf + StatementText(s), done);
  }

  predicate NewLines(buf: string) {
    forall c :: c in buf ==> c == '\n'
  }

  lemma EmitAfterNewLines(done: seq<string>, buf: string, s: string)
    requires NewLines(buf)
    ensures Emit(done, buf + s) == done + Emit([], s)
  {
    TrimDropsPrefix(buf, s, PY_SPACE);
  }

  lemma ScanEnd(text: string, st: State)
    ensures Scan(text, |text|, st) == st
  {
  }

  lemma FileSplit(items: seq<Item>, last: string)
    requires items != []
    ensures FileText(items) + last == ItemText(items[0]) + (FileText(items[1..]) + last)
  {
    hide ItemText;
  }

  /** The statements found after an item that is found. */
  lemma StatementsSplit(items: seq<Item>, last: seq<string>, buf: string, done: seq<string>)
    requires items != [] && NewLines(buf)
    ensures NewLines(After(items[0], buf, done).buf)
    ensures After(items[0], buf, done).statements + (StatementsOf(items[1..]) + last) == done + (StatementsOf(items) + last)
    ensures var next := After(items[0], buf, done); next == Outside(next.buf, next.statements)
  {
    hide Emit, StatementText;
    if items[0].Stmt? {
      EmitAfterNewLines(done, buf, StatementText(items[0].stmt));
      Regrouped4(done, Emit([], StatementText(items[0].stmt)), StatementsOf(items[1..]), last);
    } else {
      NewLineKeeps(items);
      NewLinesMore(buf);
    }
  }

  lemma Regrouped4(a: seq<string>, b: seq<string>, c: seq<string>, d: seq<string>)
    ensures a + b + (c + d) == a + (b + c + d)
  {
  }

  lemma NewLineKeeps(items: seq<Item>)
    requires items != [] && !items[0].Stmt?
    ensures StatementsOf(items) == StatementsOf(items[1..])
  {
    hide Emit;
    assert StatementsOf(items) == [] + StatementsOf(items[1..]);
  }

  lemma NewLinesMore(buf: string)
    requires NewLines(buf)
    ensures NewLines(buf + "\n")
  {
  }

  /** A file is a list of items and a last statement, possibly empty, without a semicolon. */
  predicate WellFormedFile(items: seq<Item>, tail: Statement) {
    (forall k :: 0 <= k < |items| ==> WellFormed(items[k])) && WellFormedStatement(tail)
  }

  /** The scanner returns exactly the statements of the file, in order. */
  predicate ReadBack(items: seq<Item>, tail: Statement) {
    Statements(FileText(items) + StatementText(tail)) == StatementsOf(items) + Emit([], StatementText(tail))
  }

  /** What the scanner returns from a place in the text on. */
  function Result(text: string, i: nat, st: State): seq<string>
    requires i <= |text|
  {
    var end := Scan(text, i, st);
    Emit(end.statements, end.buf)
  }

  /** Every statement is found: each one with a semicolon ends outside, the last one anywhere. */
  predicate AllFound(items: seq<Item>, tail: Statement) {
    (forall k :: 0 <= k < |items| ==> Found(items[k])) && End(tail) != Lost
  }

  /** The last statement is returned wherever the scanner takes itself to be at its end. */
  lemma ScanTail(text: string, i: nat, tail: Statement, buf: string, done: seq<string>)
    requires At(text, i, StatementText(tail)) && i + |StatementText(tail)| == |text|
    requires WellFormedStatement(tail) && End(tail) != Lost && NewLines(buf) && !Hidden(text, i)
    ensures Result(text, i, Outside(buf, done)) == done + Emit([], StatementText(tail))
  {
    hide Scan, Emit, WellFormedStatement, StatementText, At, End, NewLines;
    ScanStatement(text, i, tail, buf, done);
    ScanEnd(text, Standing(End(tail), buf + StatementText(tail), done));
    EmitAfterNewLines(done, buf, StatementText(tail));
  }

  lemma {:induction false} ScanFile(text: string, i: nat, items: seq<Item>, tail: Statement, buf: string, done: seq<string>)
    requires At(text, i, FileText(items) + StatementText(tail)) && i + |FileText(items) + StatementText(tail)| == |text|
    requires WellFormedFile(items, tail) && NewLines(buf) && !Hidden(text, i) && AllFound(items, tail)
    ensures Result(text, i, Outside(buf, done)) == done + (StatementsOf(items) + Emit([], StatementText(tail)))
    decreases |items|
  {
    hide Scan, Emit, WellFormed, WellFormedStatement, StatementText, ItemText, At, Hidden, Found, End, After, NewLines;
    var last := StatementText(tail);
    if items == [] {
      assert "" + last == last && [] + Emit([], last) == Emit([], last);
      ScanTail(text, i, tail, buf, done);
    } else {
      FileSplit(items, last);
      AtAppend(text, i, ItemText(items[0]), FileText(items[1..]) + last);
      ScanItem(text, i, items[0], buf, done);
      ItemEnds(text, i, items[0]);
      StatementsSplit(items, Emit([], last), buf, done);
      var next := After(items[0], buf, done);
      ScanFile(text, i + |ItemText(items[0])|, items[1..], tail, next.buf, next.statements);
    }
  }

  // ----- A statement that does not end outside is never read back.

  lemma {:induction false} StatementsStay(text: string, i: nat, st: State)
    requires i <= |text|
    ensures st.statements <= Scan(text, i, st).statements
    decreases |text| - i
  {
    hide Strip;
    if i < |text| {
      StatementsStay(text, Turn(text, i, st).0, Turn(text, i, st).1);
    }
  }

  /** A character that stripping keeps. */
  predicate Marked(begun: string) {
    exists k :: 0 <= k < |begun| && begun[k] !in PY_SPACE
  }

  lemma MarkedStays(begun: string, whole: string)
    requires begun <= whole && Marked(begun)
    ensures Strip(whole) != "" && Marked(whole)
  {
    var k :| 0 <= k < |begun| && begun[k] !in PY_SPACE;
    assert whole[k] == begun[k];
    TrimKeeps(whole, k, PY_SPACE);
  }

  lemma MarkedStarts(begun: string)
    requires Marked(begun)
    ensures TrimLeft(begun, PY_SPACE) != ""
  {
    MarkedStays(begun, begun);
  }

  /** In the place of a statement stands one that begins with `begun`. */
  ghost predicate Carries(result: seq<string>, done: seq<string>, begun: string) {
    |done| < |result| && exists whole :: begun <= whole && result[|done|] == Strip(whole)
  }

  lemma CarriesNow(text: string, i: nat, st: State, done: seq<string>, begun: string, whole: string)
    requires i <= |text| && done + [Strip(whole)] <= st.statements && begun <= whole
    ensures Carries(Result(text, i, st), done, begun)
    ensures Result(text, i, st)[|done|] == Strip(whole)
  {
    StatementsStay(text, i, st);
    hide Strip, Scan;
    assert Result(text, i, st)[|done|] == (done + [Strip(whole)])[|done|];
  }

  /** The text ends: what has been collected is the last statement. */
  lemma CarriesLast(text: string, st: State, begun: string)
    requires begun <= st.buf && Strip(st.buf) != ""
    ensures Carries(Result(text, |text|, st), st.statements, begun)
    ensures Result(text, |text|, st)[|st.statements|] == Strip(st.buf)
  {
    hide Strip;
    assert Result(text, |text|, st) == st.statements + [Strip(st.buf)];
  }

  /** What has been collected is never dropped. */
  lemma {:induction false} BegunIsCarried(text: string, i: nat, st: State, begun: string)
    requires i <= |text| && begun <= st.buf && Marked(begun)
    ensures Carries(Result(text, i, st), st.statements, begun)
    decreases |text| - i
  {
    hide Strip, Carries, Marked;
    MarkedStays(begun, st.buf);
    if i == |text| {
      CarriesLast(text, st, begun);
    } else {
      var (next, st') := Turn(text, i, st);
      if st'.statements == st.statements && begun <= st'.buf {
        BegunIsCarried(text, next, st', begun);
      } else {
        CarriesNow(text, next, st', st.statements, begun, st.buf);
      }
      ResultStep(text, i, st);
    }
  }

  lemma ResultStep(text: string, i: nat, st: State)
    requires i < |text|
    ensures Result(text, i, st) == Result(text, Turn(text, i, st).0, Turn(text, i, st).1)
  {
    hide Strip;
  }

  /** In the place of a statement stands one that breaks off after `begun` or does not go on with c. */
  ghost predicate Breaks(result: seq<string>, done: seq<string>, begun: string, c: char) {
    |done| < |result| && (result[|done|] == Strip(begun) || exists d :: d != c && Carries(result, done, begun + [d]))
  }

  /** From a comment on, what has been collected goes on with the end of a line, if at all. */
  lemma {:induction false} CommentBreaks(text: string, i: nat, begun: string, done: seq<string>)
    requires i <= |text| && Marked(begun)
    ensures Breaks(Result(text, i, InComment(begun, done)), done, begun, '-')
    decreases |text| - i
  {
    hide Strip, Carries, Marked;
    if i == |text| {
      MarkedStays(begun, begun);
      CarriesLast(text, InComment(begun, done), begun);
    } else {
      var (next, st') := Turn(text, i, InComment(begun, done));
      ResultStep(text, i, InComment(begun, done));
      if st'.inComment {
        CommentBreaks(text, next, begun, done);
      } else {
        MarkedStays(begun, begun + [text[i]]);
        BegunIsCarried(text, next, st', begun + [text[i]]);
        LongEnough(Result(text, next, st'), done, begun + [text[i]]);
      }
    }
  }

  lemma LongEnough(result: seq<string>, done: seq<string>, begun: string)
    requires Carries(result, done, begun)
    ensures |done| < |result|
  {
  }

  /** At a semicolon or a double dash outside. */
  lemma LostBreaks(text: string, i: nat, begun: string, done: seq<string>, c: char)
    requires i < |text| && text[i] == c && (c == ';' || (c == '-' && NextIs(text, i, '-'))) && Marked(begun)
    ensures Breaks(Result(text, i, Outside(begun, done)), done, begun, c)
  {
    MarkedStays(begun, begun);
    hide Strip, Carries, Marked;
    ResultStep(text, i, Outside(begun, done));
    if c == ';' {
      CarriesNow(text, i + 1, Outside("", Emit(done, begun)), done, begun, begun);
      LongEnough(Result(text, i + 1, Outside("", Emit(done, begun))), done, begun);
    } else {
      CommentBreaks(text, i + 2, begun, done);
    }
  }

  /** What breaks off early or goes on in another way does not strip to the statement. */
  lemma OtherStrips(begun: string, c: char, statement: string, whole: string)
    requires Marked(begun) && c !in PY_SPACE && begun + [c] <= statement
    requires begun <= whole && (|whole| > |begun| ==> whole[|begun|] != c)
    ensures Strip(whole) != Strip(statement)
  {
    var more, rest := statement[|begun|..], whole[|begun|..];
    assert statement == begun + more && more[0] == c && whole == begun + rest;
    MarkedStarts(begun);
    hide Marked, TrimLeft, TrimRight;
    var start := TrimLeft(begun, PY_SPACE);
    TrimLeftExtends(begun, more, PY_SPACE);
    TrimLeftExtends(begun, rest, PY_SPACE);
    TrimRightKeeps(start + more, |start|, PY_SPACE);
    TrimRightTrimmed(start + more, PY_SPACE);
    TrimRightTrimmed(start + rest, PY_SPACE);
    assert Strip(statement)[|start|] == c;
    if |Strip(whole)| > |start| {
      assert Strip(whole)[|start|] == (start + rest)[|start|] == rest[0];
    }
  }

  lemma InPlace(buf: string, s: string, done: seq<string>, rest: seq<string>)
    requires NewLines(buf) && Marked(buf + s)
    ensures (done + (Emit([], s) + rest))[|done|..] != [] && (done + (Emit([], s) + rest))[|done|] == Strip(buf + s)
  {
    TrimDropsPrefix(buf, s, PY_SPACE);
    MarkedStays(buf + s, buf + s);
  }

  lemma LostIsNotFound(buf: string, s: string, m: nat, done: seq<string>, result: seq<string>, rest: seq<string>)
    requires NewLines(buf) && m < |s| && (s[m] == ';' || s[m] == '-') && Marked(buf + s[..m])
    requires Breaks(result, done, buf + s[..m], s[m])
    ensures result != done + (Emit([], s) + rest)
  {
    hide Strip, Marked;
    var begun := buf + s[..m];
    assert begun + [s[m]] <= buf + s;
    MarkedStays(begun, buf + s);
    InPlace(buf, s, done, rest);
    if result[|done|] == Strip(begun) {
      OtherStrips(begun, s[m], buf + s, begun);
    } else {
      var d :| d != s[m] && Carries(result, done, begun + [d]);
      var whole :| begun + [d] <= whole && result[|done|] == Strip(whole);
      assert whole[|begun|] == (begun + [d])[|begun|];
      OtherStrips(begun, s[m], buf + s, whole);
    }
  }

  lemma OpenIsNotFound(buf: string, s: string, done: seq<string>, result: seq<string>, rest: seq<string>)
    requires NewLines(buf) && Marked(buf + s) && Carries(result, done, buf + s + ";")
    ensures result != done + (Emit([], s) + rest)
  {
    hide Strip, Marked;
    InPlace(buf, s, done, rest);
    var whole :| buf + s + ";" <= whole && result[|done|] == Strip(whole);
    assert buf + s + [';'] <= whole && buf + s <= buf + s;
    OtherStrips(buf + s, ';', whole, buf + s);
  }

  lemma QuoteMarks(text: string, k: nat)
    requires k < |text| && text[k] == QUOTE
    ensures Marked(text)
  {
  }

  lemma SegmentsStart(segments: seq<Segment>)
    requires segments != []
    ensures SegmentsText(segments) != "" && SegmentsText(segments)[0] == QUOTE
  {
    hide SqlQuote;
    LiteralStart(segments[0].value);
  }

  /** A statement is lost only behind the quote of its first literal. */
  lemma QuoteComesFirst(s: Statement, m: nat)
    requires WellFormedStatement(s) && m < |StatementText(s)|
    requires StatementText(s)[m] == ';' || StartsDashes(StatementText(s)[m..])
    ensures Marked(StatementText(s)[..m])
  {
    var text, n := StatementText(s), |s.head|;
    if s.segments != [] { SegmentsStart(s.segments); }
    hide SegmentsText, Marked;
    if m > n {
      QuoteMarks(text[..m], n);
    }
  }

  lemma MarkedAfter(buf: string, s: string)
    requires Marked(s)
    ensures Marked(buf + s)
  {
    var k :| 0 <= k < |s| && s[k] !in PY_SPACE;
    assert (buf + s)[|buf| + k] == s[k];
  }

  lemma LiteralIsMarked(s: Statement)
    requires s.segments != []
    ensures Marked(StatementText(s))
  {
    SegmentsStart(s.segments);
    hide SegmentsText, Marked;
    QuoteMarks(StatementText(s), |s.head|);
  }

  lemma LostStatement(text: string, i: nat, s: Statement, m: nat, buf: string, done: seq<string>, rest: seq<string>)
    requires At(text, i, StatementText(s)) && WellFormedStatement(s) && NewLines(buf)
    requires LostAt(text, i, Outside(buf, done), StatementText(s), m)
    ensures Result(text, i, Outside(buf, done)) != done + (Emit([], StatementText(s)) + rest)
  {
    hide Scan, Emit, WellFormedStatement, StatementText, NewLines, Marked, Breaks, Result;
    var t := StatementText(s);
    AtChar(text, i, t, m);
    if t[m] == '-' { AtChar(text, i, t, m + 1); }
    QuoteComesFirst(s, m);
    MarkedAfter(buf, t[..m]);
    LostBreaks(text, i + m, buf + t[..m], done, t[m]);
    SameResult(text, i, Outside(buf, done), i + m, Outside(buf + t[..m], done));
    LostIsNotFound(buf, t, m, done, Result(text, i, Outside(buf, done)), rest);
  }

  lemma OpenStatement(text: string, i: nat, s: Statement, buf: string, done: seq<string>, rest: seq<string>)
    requires WellFormedStatement(s) && NewLines(buf) && End(s) != Lost && End(s) != Out
    requires var n := i + |StatementText(s)|; EndsAt(text, n) && n < |text|
    requires Leads(text, i, Outside(buf, done), StatementText(s), End(s))
    ensures Result(text, i, Outside(buf, done)) != done + (Emit([], StatementText(s)) + rest)
  {
    assert s.segments != [];
    hide Scan, Emit, WellFormedStatement, StatementText, End, NewLines, Marked, Carries, Result;
    var t, n := StatementText(s), i + |StatementText(s)|;
    var st := Standing(End(s), buf + t + ";", done);
    LiteralIsMarked(s);
    MarkedAfter(buf, t);
    MarkedStays(buf + t, buf + t + ";");
    ScanSemicolon(text, n, End(s), buf + t, done);
    BegunIsCarried(text, n + 1, st, buf + t + ";");
    SameResult(text, i, Outside(buf, done), n + 1, st);
    OpenIsNotFound(buf, t, done, Result(text, i, Outside(buf, done)), rest);
  }

  /** In the place of a statement that is not found stands another one. */
  lemma StatementNotFound(text: string, i: nat, s: Statement, buf: string, done: seq<string>, rest: seq<string>)
    requires At(text, i, StatementText(s)) && EndsAt(text, i + |StatementText(s)|) && WellFormedStatement(s) && !Hidden(text, i)
    requires NewLines(buf) && (End(s) == Lost || (End(s) != Out && i + |StatementText(s)| < |text|))
    ensures Result(text, i, Outside(buf, done)) != done + (Emit([], StatementText(s)) + rest)
  {
    hide Emit, WellFormedStatement, StatementText, Hidden, End, NewLines, Result, Scan, LostAt;
    ScanStatement(text, i, s, buf, done);
    if End(s) == Lost {
      var m: nat :| LostAt(text, i, Outside(buf, done), StatementText(s), m);
      LostStatement(text, i, s, m, buf, done, rest);
    } else {
      OpenStatement(text, i, s, buf, done, rest);
    }
  }

  lemma SameResult(text: string, i: nat, st: State, j: nat, st': State)
    requires i <= |text| && j <= |text| && Scan(text, i, st) == Scan(text, j, st')
    ensures Result(text, i, st) == Result(text, j, st')
  {
    hide Scan, Emit;
  }

  lemma {:induction false} ScanFileNotFound(text: string, i: nat, items: seq<Item>, tail: Statement, buf: string, done: seq<string>)
    requires At(text, i, FileText(items) + StatementText(tail)) && i + |FileText(items) + StatementText(tail)| == |text|
    requires WellFormedFile(items, tail) && NewLines(buf) && !Hidden(text, i) && !AllFound(items, tail)
    ensures Result(text, i, Outside(buf, done)) != done + (StatementsOf(items) + Emit([], StatementText(tail)))
    decreases |items|
  {
    hide Scan, Emit, WellFormed, WellFormedStatement, StatementText, ItemText, At, Hidden, End, After, NewLines, Result;
    var last := StatementText(tail);
    if items == [] {
      assert "" + last == last && [] + Emit([], last) == Emit([], last) + [];
      StatementNotFound(text, i, tail, buf, done, []);
    } else {
      var item, rest := items[0], items[1..];
      var n, next := i + |ItemText(item)|, After(item, buf, done);
      FileSplit(items, last);
      AtAppend(text, i, ItemText(item), FileText(rest) + last);
      if Found(item) {
        ScanItem(text, i, item, buf, done);
        ItemEnds(text, i, item);
        StatementsSplit(items, Emit([], last), buf, done);
        SameResult(text, i, Outside(buf, done), n, next);
        assert forall k :: 0 <= k < |rest| ==> rest[k] == items[k + 1];
        ScanFileNotFound(text, n, rest, tail, next.buf, next.statements);
      } else {
        ItemStatementAt(text, i, item);
        StatementNotFound(text, i, item.stmt, buf, done, StatementsOf(rest) + Emit([], last));
        Regrouped(Emit([], StatementText(item.stmt)), StatementsOf(rest), Emit([], last));
      }
    }
  }

  lemma ItemStatementAt(text: string, i: nat, item: Item)
    requires item.Stmt? && At(text, i, ItemText(item)) && WellFormed(item)
    ensures At(text, i, StatementText(item.stmt)) && WellFormedStatement(item.stmt)
    ensures var n := i + |StatementText(item.stmt)|; EndsAt(text, n) && n < |text|
  {
    hide StatementText, At, WellFormedStatement;
    StatementAt(text, i, item.stmt);
  }

  lemma Regrouped(a: seq<string>, b: seq<string>, c: seq<string>)
    ensures a + b + c == a + (b + c)
  {
  }

  /** The exact law, whatever the values: a file is read back if and only if the scanner takes
      itself to be outside at the end of each statement, and is nowhere lost; a last statement
      without a semicolon may also end inside. */
  lemma ReadBackIff(items: seq<Item>, tail: Statement)
    requires WellFormedFile(items, tail)
    ensures ReadBack(items, tail) <==> AllFound(items, tail)
  {
    hide Scan, StatementText, WellFormed, WellFormedStatement, End, Emit;
    var text := FileText(items) + StatementText(tail);
    WholeAt(text);
    if AllFound(items, tail) {
      ScanFile(text, 0, items, tail, "", []);
    } else {
      ScanFileNotFound(text, 0, items, tail, "", []);
    }
  }

  /** Each value that the scanner meets inside a literal is calm. */
  predicate CalmItem(item: Item) {
    item.Stmt? ==> CalmWhenOpen(false, item.stmt.segments)
  }

  /** With calm values a file is read back if and only if in each statement an even number of
      values end in a backslash. */
  lemma ReadBackIffEven(items: seq<Item>)
    requires WellFormedFile(items, NOTHING) && forall k :: 0 <= k < |items| ==> CalmItem(items[k])
    ensures ReadBack(items, NOTHING) <==> forall k :: 0 <= k < |items| && items[k].Stmt? ==> !Odd(items[k].stmt.segments)
  {
    hide ReadBack, Odd, CalmWhenOpen, WellFormed;
    ReadBackIff(items, NOTHING);
    forall k | 0 <= k < |items| && items[k].Stmt? ensures Found(items[k]) <==> !Odd(items[k].stmt.segments) {
      assert CalmItem(items[k]);
      FollowParity(false, items[k].stmt.segments);
    }
    assert End(NOTHING) == Out;
  }

  const NOTHING: Statement := Statement("", [])

  /** After a statement with an odd number of such values the closing semicolon is taken for
      part of a literal. */
  lemma BackslashSwallows(s: Statement)
    requires WellFormedStatement(s) && CalmWhenOpen(false, s.segments) && Odd(s.segments)
    ensures Statements(StatementText(s) + ";") == Emit([], StatementText(s) + ";")
  {
    FollowParity(false, s.segments);
    hide Emit, StatementText, WellFormedStatement, At, Odd, CalmWhenOpen;
    var text, n := StatementText(s) + ";", |StatementText(s)|;
    WholeAt(text);
    StatementAt(text, 0, s);
    ScanStatement(text, 0, s, "", []);
    assert "" + StatementText(s) == StatementText(s);
    ScanSemicolon(text, n, Single, StatementText(s), []);
    ScanEnd(text, Standing(Single, text, []));
  }

  /** A statement around one literal, whatever its value, is read back if and only if the value
      does not end in a backslash. */
  lemma OneLiteralIff(head: string, value: string, tail: string)
    requires Plain(head) && !EndsInBackslash(head) && Plain(tail)
    ensures ReadBack([Stmt(Statement(head, [Segment(value, tail)]))], NOTHING) <==> !EndsInBackslash(value)
  {
    var segments := [Segment(value, tail)];
    assert segments[1..] == [];
    OverFromOutside(value);
    assert Follow(segments, Out) == Over(value, Out);
    hide Plain, EndsInBackslash, ReadBack, Over, Follow;
    var items := [Stmt(Statement(head, segments))];
    ReadBackIff(items, NOTHING);
    assert Found(items[0]) <==> !EndsInBackslash(value);
  }

  /** Round trip: a file whose values do not end in a backslash is read back, whatever else
      they hold. */
  lemma FileRoundTrip(items: seq<Item>)
    requires forall k :: 0 <= k < |items| ==> WellFormed(items[k]) && (items[k].Stmt? ==> Safe(items[k].stmt.segments))
    ensures Statements(FileText(items)) == StatementsOf(items)
  {
    hide Statements, WellFormedStatement, Safe, Emit;
    NoTail();
    forall k | 0 <= k < |items| ensures Found(items[k]) {
      if items[k].Stmt? { SafeEndsOutside(items[k].stmt.segments); }
    }
    ReadBackIff(items, NOTHING);
    assert FileText(items) + "" == FileText(items) && StatementsOf(items) + [] == StatementsOf(items);
  }

  // ----- The texts themselves.

  /** A text that begins and ends with a printed character. */
  predicate Solid(s: string) {
    s != "" && '!' <= s[0] <= '~' && '!' <= s[|s| - 1] <= '~'
  }

  predicate Blanks(s: string) {
    forall c :: c in s ==> c in " \t\r\n"
  }

  ghost predicate PaddedWith(padded: string, s: string) {
    Solid(s) && exists before, after :: Blanks(before) && Blanks(after) && padded == before + s + after
  }

  /** The texts that the statements of a file hold, in order, blanks around them left out. */
  ghost predicate Holds(items: seq<Item>, texts: seq<string>) {
    if items == [] then texts == []
    else if items[0].Stmt? then texts != [] && PaddedWith(StatementText(items[0].stmt), texts[0]) && Holds(items[1..], texts[1..])
    else Holds(items[1..], texts)
  }

  lemma EmitPadded(padded: string, s: string)
    requires PaddedWith(padded, s)
    ensures Emit([], padded) == [s]
  {
    var before, after :| Blanks(before) && Blanks(after) && padded == before + s + after;
    PrintedIsNoSpace(s[0]);
    PrintedIsNoSpace(s[|s| - 1]);
    BlanksAreSpace(before);
    BlanksAreSpace(after);
    hide PY_SPACE, Blanks, Trim;
    TrimPadded(before, s, after, PY_SPACE);
  }

  lemma {:induction false} HeldTexts(items: seq<Item>, texts: seq<string>)
    requires Holds(items, texts)
    ensures StatementsOf(items) == texts
  {
    hide Emit, PaddedWith, StatementText;
    if items != [] {
      if items[0].Stmt? {
        EmitPadded(StatementText(items[0].stmt), texts[0]);
        HeldTexts(items[1..], texts[1..]);
      } else {
        HeldTexts(items[1..], texts);
      }
    }
  }

  /** Whatever the values: the texts of a file's statements come back, each of them whole, in
      order and without the blanks around it, if and only if each statement ends outside. */
  lemma TextsComeBackIff(items: seq<Item>, texts: seq<string>)
    requires WellFormedFile(items, NOTHING) && Holds(items, texts)
    ensures Statements(FileText(items)) == texts <==> forall k :: 0 <= k < |items| && items[k].Stmt? ==> End(items[k].stmt) == Out
  {
    hide Statements, WellFormed, WellFormedStatement, Emit, Holds, End;
    NoTail();
    HeldTexts(items, texts);
    ReadBackIff(items, NOTHING);
    assert FileText(items) + "" == FileText(items) && StatementsOf(items) + [] == StatementsOf(items);
    forall k | 0 <= k < |items| ensures Found(items[k]) <==> (items[k].Stmt? ==> End(items[k].stmt) == Out) {
    }
  }

  lemma NoTail()
    ensures WellFormedStatement(NOTHING) && StatementText(NOTHING) == "" && Emit([], "") == [] && End(NOTHING) == Out
  {
  }

  lemma WholeAt(text: string)
    ensures At(text, 0, text)
  {
  }

  // ----- Comments and double quotes inside a statement.

  lemma ThreeAt(text: string, i: nat, a: string, b: string, c: string)
    requires At(text, i, a + b + c)
    ensures At(text, i, a) && At(text, i + |a|, b) && At(text, i + |a| + |b|, c)
  {
    hide At;
    AtAppend(text, i, a + b, c);
    AtAppend(text, i, a, b);
  }

  lemma EndsWith(text: string, i: nat, buf: string)
    requires i < |text| && i + 1 == |text| && text[i] == ';' && Solid(buf)
    ensures Result(text, i, Outside(buf, [])) == [buf]
  {
    hide Scan, Emit, Solid;
    ScanSemicolon(text, i, Out, buf, []);
    ScanEnd(text, Outside("", Emit([], buf)));
    assert Blanks("") && buf == "" + buf + "";
    EmitPadded(buf, buf);
    EmitNothing([buf]);
  }

  lemma EmitNothing(done: seq<string>)
    ensures Emit(done, "") == done
  {
  }

  lemma NotDash(text: string, i: nat, c: char)
    requires i < |text| && text[i] == c != '-'
    ensures NotAt(text, i, '-')
  {
  }

  /** The plain end of the only statement of a text. */
  lemma ScanLastPlain(text: string, i: nat, b: string, buf: string)
    requires At(text, i, b + ";") && i + |b| + 1 == |text| && Plain(b) && Solid(buf + b)
    ensures Result(text, i, Outside(buf, [])) == [buf + b]
  {
    hide Scan, At, Emit, Solid, Plain;
    TwoAt(text, i, b, ";");
    OneAt(text, i + |b|, ';');
    NotDash(text, i + |b|, ';');
    ScanPlain(text, i, b, Out, buf, []);
    EndsWith(text, i + |b|, buf + b);
  }

  /** A line comment within a statement goes, whatever it holds; its line break stays. */
  lemma CommentGoes(a: string, comment: string, b: string)
    requires Plain(a) && Plain(b) && WellFormed(Comment(comment)) && Solid(a + "\n" + b)
    requires a != "" ==> a[|a| - 1] != '-'
    ensures Statements(a + ("--" + comment + "\n") + (b + ";")) == [a + "\n" + b]
  {
    hide Scan, At, Emit, Solid, Plain;
    var text := a + ("--" + comment + "\n") + (b + ";");
    var n, m := |a|, |a| + |comment| + 3;
    WholeAt(text);
    ThreeAt(text, 0, a, "--" + comment + "\n", b + ";");
    ScanOpenPlain(text, 0, a, "", []);
    assert "" + a == a;
    ScanComment(text, n, comment, a, []);
    ScanLastPlain(text, m, b, a + "\n");
  }

  /** Plain SQL that does not end in a dash is copied whatever comes next. */
  lemma ScanOpenPlain(text: string, i: nat, chunk: string, buf: string, done: seq<string>)
    requires At(text, i, chunk) && Plain(chunk) && (chunk != "" ==> chunk[|chunk| - 1] != '-')
    ensures Scan(text, i, Outside(buf, done)) == Scan(text, i + |chunk|, Outside(buf + chunk, done))
  {
    hide Scan;
    forall k | i <= k < i + |chunk| ensures Copied(text, k, Outside(buf, done)) {
      AtChar(text, i, chunk, k - i);
      if k + 1 < i + |chunk| { AtChar(text, i, chunk, k + 1 - i); }
    }
    ScanCopiedAll(text, i, chunk, Outside(buf, done));
  }

  /** Inside double quotes everything but a double quote is copied. */
  lemma ScanName(text: string, i: nat, name: string, buf: string, done: seq<string>)
    requires At(text, i, name) && '"' !in name
    ensures Scan(text, i, Standing(Double, buf, done)) == Scan(text, i + |name|, Standing(Double, buf + name, done))
  {
    hide Scan;
    forall k | i <= k < i + |name| ensures Copied(text, k, Standing(Double, buf, done)) {
      AtChar(text, i, name, k - i);
    }
    ScanCopiedAll(text, i, name, Standing(Double, buf, done));
  }

  lemma NoBackslashBefore(text: string, i: nat, part: string)
    requires At(text, i, part) && !EndsInBackslash(part) && (part == "" ==> i == 0) && i + |part| < |text|
    ensures !AfterBackslash(text, i + |part|)
  {
    if part != "" { AtChar(text, i, part, |part| - 1); }
  }

  lemma ScanQuotedName(text: string, i: nat, name: string, buf: string)
    requires At(text, i, "\"" + name + "\"") && '"' !in name && !EndsInBackslash(name) && i < |text| && !AfterBackslash(text, i)
    ensures Scan(text, i, Outside(buf, [])) == Scan(text, i + |name| + 2, Outside(buf + ("\"" + name + "\""), []))
  {
    hide Scan, At, EndsInBackslash, AfterBackslash;
    var m := i + 1 + |name|;
    NameAt(text, i, name);
    ScanDoubleQuote(text, i, Out, buf, []);
    ScanName(text, i + 1, name, buf + "\"", []);
    ScanDoubleQuote(text, m, Double, buf + "\"" + name, []);
    assert buf + "\"" + name + "\"" == buf + ("\"" + name + "\"");
  }

  lemma NameAt(text: string, i: nat, name: string)
    requires At(text, i, "\"" + name + "\"") && !EndsInBackslash(name)
    ensures var m := i + 1 + |name|;
      At(text, i + 1, name) && m < |text| && text[i] == '"' && text[m] == '"' && !AfterBackslash(text, m)
  {
    hide At, EndsInBackslash, AfterBackslash;
    assert "\"" + name + "\"" == "\"" + name + ['"'];
    TwoAt(text, i, "\"" + name, ['"']);
    TwoAt(text, i, ['"'], name);
    OneAt(text, i, '"');
    OneAt(text, i + 1 + |name|, '"');
    QuotedName(name);
    NoBackslashBefore(text, i, "\"" + name);
  }

  /** What stands in double quotes is copied, semicolons, quotes and dashes included. */
  lemma DoubleQuotesProtect(a: string, name: string, b: string)
    requires Plain(a) && Plain(b) && !EndsInBackslash(a) && '"' !in name && !EndsInBackslash(name)
    requires Solid(a + ("\"" + name + "\"") + b)
    ensures Statements(a + ("\"" + name + "\"") + (b + ";")) == [a + ("\"" + name + "\"") + b]
  {
    hide Scan, At, Emit, Solid, Plain, EndsInBackslash;
    var quoted := "\"" + name + "\"";
    var text := a + quoted + (b + ";");
    WholeAt(text);
    ThreeAt(text, 0, a, quoted, b + ";");
    NoBackslashBefore(text, 0, a);
    NotDash(text, |a|, '"');
    ScanPlain(text, 0, a, Out, "", []);
    assert "" + a == a;
    ScanQuotedName(text, |a|, name, a);
    ScanLastPlain(text, |a| + |quoted|, b, a + quoted);
  }

  lemma QuotedName(name: string)
    requires !EndsInBackslash(name)
    ensures !EndsInBackslash("\"" + name)
  {
  }
}
