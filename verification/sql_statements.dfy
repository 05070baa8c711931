/** iter_sql_statements of scripts/casdoor/bootstrap-casdoor-mysql.py: it cuts a seed file
    into statements, minding quotes and line comments. */
module SqlStatements {
  import opened Text
  import opened SqlText

  datatype State = State(inSingle: bool, inDouble: bool, inComment: bool, buf: string, statements: seq<string>)

  const START := State(false, false, false, "", [])

  function Strip(s: string): string {
    Trim(s, PY_SPACE)
  }

  /** A statement is stripped, and kept unless nothing is left of it. */
  function Emit(statements: seq<string>, buf: string): seq<string> {
    if Strip(buf) == "" then statements else statements + [Strip(buf)]
  }

  predicate AfterBackslash(text: string, i: nat)
    requires i < |text|
  {
    i > 0 && text[i - 1] == BACKSLASH
  }

  predicate NextIs(text: string, i: nat, c: char) {
    i + 1 < |text| && text[i + 1] == c
  }

  /** One turn of the loop at index i: the next index and the new variables. */
  function Turn(text: string, i: nat, st: State): (r: (nat, State))
    requires i < |text|
    ensures i < r.0 <= |text|
  {
    var ch := text[i];
    if st.inComment then
      (i + 1, if ch == '\r' || ch == '\n' then st.(inComment := false, buf := st.buf + [ch]) else st)
    else if !st.inSingle && !st.inDouble && ch == '-' && NextIs(text, i, '-') then
      (i + 2, st.(inComment := true))
    else if ch == QUOTE && !st.inDouble then
      if st.inSingle && NextIs(text, i, QUOTE) then (i + 2, st.(buf := st.buf + [ch, text[i + 1]]))
      else (i + 1, st.(buf := st.buf + [ch], inSingle := st.inSingle == AfterBackslash(text, i)))
    else if ch == '"' && !st.inSingle then
      (i + 1, st.(buf := st.buf + [ch], inDouble := st.inDouble == AfterBackslash(text, i)))
    else if ch == ';' && !st.inSingle && !st.inDouble then
      (i + 1, st.(buf := "", statements := Emit(st.statements, st.buf)))
    else
      (i + 1, st.(buf := st.buf + [ch]))
  }

  function Scan(text: string, i: nat, st: State): State
    requires i <= |text|
    decreases |text| - i
  {
    if i == |text| then st
    else
      var (next, st') := Turn(text, i, st);
      Scan(text, next, st')
  }

  /** The statements the scanner returns for a text. */
  function Statements(text: string): seq<string> {
    var st := Scan(text, 0, START);
    Emit(st.statements, st.buf)
  }

  method IterSqlStatements(text: string) returns (statements: seq<string>)
    ensures statements == Statements(text)
  {
    hide Trim;
    statements := [];
    var buf, inSingle, inDouble, inComment := "", false, false, false;
    var i := 0;
    while i < |text|
      invariant 0 <= i <= |text|
      invariant Scan(text, 0, START) == Scan(text, i, State(inSingle, inDouble, inComment, buf, statements))
    {
      var ch := text[i];
      if inComment {
        if ch == '\r' || ch == '\n' {
          inComment := false;
          buf := buf + [ch];
        }
        i := i + 1;
        continue;
      }
      if !inSingle && !inDouble && ch == '-' && NextIs(text, i, '-') {
        inComment := true;
        i := i + 2;
        continue;
      }
      if ch == QUOTE && !inDouble {
        if inSingle && NextIs(text, i, QUOTE) {
          buf := buf + [ch, text[i + 1]];
          i := i + 2;
          continue;
        }
        buf := buf + [ch];
        if !AfterBackslash(text, i) {
          inSingle := !inSingle;
        }
        i := i + 1;
        continue;
      }
      if ch == '"' && !inSingle {
        buf := buf + [ch];
        if !AfterBackslash(text, i) {
          inDouble := !inDouble;
        }
        i := i + 1;
        continue;
      }
      if ch == ';' && !inSingle && !inDouble {
        var statement := Strip(buf);
        if statement != "" {
          statements := statements + [statement];
        }
        buf := "";
        i := i + 1;
        continue;
      }
      buf := buf + [ch];
      i := i + 1;
    }
    var tail := Strip(buf);
    if tail != "" {
      statements := statements + [tail];
    }
  }
}
