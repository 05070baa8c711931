/** SQL literals as the seed generator prints them (scripts/casdoor/render-casdoor-seed.py). */
module SqlText {
  import opened Text

  const QUOTE := '\''
  const BACKSLASH := '\\'

  datatype Value = Null | Number(text: string) | Str(value: string)

  /** sql_quote. */
  function SqlQuote(v: Value): string {
    match v
    case Null => "NULL"
    case Number(text) => text
    case Str(value) => "'" + ReplaceChar(ReplaceChar(value, BACKSLASH, "\\\\"), QUOTE, "''") + "'"
  }

  /** What sql_quote does to each character of a string value. */
  function EscapeChar(c: char): string {
    if c == BACKSLASH then "\\\\" else if c == QUOTE then "''" else [c]
  }

  function Escape(s: string): string {
    if s == "" then "" else EscapeChar(s[0]) + Escape(s[1..])
  }

  /** The two replacements of sql_quote escape every character on its own: the second never
      touches what the first one wrote. */
  lemma {:induction false} QuoteEscapes(s: string)
    ensures SqlQuote(Str(s)) == [QUOTE] + Escape(s) + [QUOTE]
  {
    EscapesByReplacing(s);
  }

  lemma {:induction false} EscapesByReplacing(s: string)
    ensures ReplaceChar(ReplaceChar(s, BACKSLASH, "\\\\"), QUOTE, "''") == Escape(s)
  {
    if s != "" {
      var head := if s[0] == BACKSLASH then "\\\\" else [s[0]];
      var tail := ReplaceChar(s[1..], BACKSLASH, "\\\\");
      EscapesByReplacing(s[1..]);
      ReplaceCharAppend(head, tail, QUOTE, "''");
      assert ReplaceChar(head, QUOTE, "''") == EscapeChar(s[0]) by {
        if s[0] == BACKSLASH {
          assert head[1..] == "\\";
        } else {
          assert head[1..] == "";
        }
      }
    }
  }

  lemma {:induction false} EscapeAppend(a: string, b: string)
    ensures Escape(a + b) == Escape(a) + Escape(b)
  {
    if a == "" {
      assert a + b == b;
    } else {
      assert (a + b)[1..] == a[1..] + b;
      EscapeAppend(a[1..], b);
    }
  }
}

/** split_insert_rows of scripts/casdoor/prepare-casdoor-sql.py: it cuts the VALUES part of
    an INSERT into its rows. */
module SqlRows {
  import opened Text
  import opened SqlText

  /** The scanner's variables; `start` is NONE or the index where the open row began. */
  datatype State = State(depth: int, start: int, inQuote: bool, escaped: bool, rows: seq<string>)

  const NONE := -1
  const START := State(0, NONE, false, false, [])

  /** One turn of the loop, on the character at index i. */
  function Step(values: string, i: nat, st: State): State
    requires i < |values| && NONE <= st.start <= i
  {
    var ch := values[i];
    if st.inQuote then
      if st.escaped then st.(escaped := false)
      else if ch == BACKSLASH then st.(escaped := true)
      else if ch == QUOTE then st.(inQuote := false)
      else st
    else if ch == QUOTE then st.(inQuote := true)
    else if ch == '(' then st.(depth := st.depth + 1, start := if st.depth == 0 then i else st.start)
    else if ch == ')' then
      if st.depth == 1 && st.start != NONE
      then st.(depth := 0, start := NONE, rows := st.rows + [values[st.start..i + 1]])
      else st.(depth := st.depth - 1)
    else st
  }

  /** The turns for the characters in [i, j). */
  function Run(values: string, i: nat, j: nat, st: State): (r: State)
    requires i <= j <= |values| && NONE <= st.start <= i
    ensures NONE <= r.start <= j
    decreases j - i
  {
    if i == j then st else Run(values, i + 1, j, Step(values, i, st))
  }

  lemma RunNone(values: string, i: nat, st: State)
    requires i <= |values| && NONE <= st.start <= i
    ensures Run(values, i, i, st) == st
  {
  }

  lemma RunOne(values: string, i: nat, st: State)
    requires i < |values| && NONE <= st.start <= i
    ensures Run(values, i, i + 1, st) == Step(values, i, st)
  {
  }

  lemma {:induction false} RunTwice(values: string, i: nat, j: nat, k: nat, st: State)
    requires i <= j <= k <= |values| && NONE <= st.start <= i
    ensures Run(values, i, k, st) == Run(values, j, k, Run(values, i, j, st))
    decreases j - i
  {
    if i < j {
      RunTwice(values, i + 1, j, k, Step(values, i, st));
    }
  }

  method SplitInsertRows(values: string) returns (rows: seq<string>)
    ensures rows == Run(values, 0, |values|, START).rows
  {
    rows := [];
    var depth, start, inQuote, escaped := 0, NONE, false, false;
    for idx := 0 to |values|
      invariant NONE <= start <= idx
      invariant Run(values, 0, |values|, START)
             == Run(values, idx, |values|, State(depth, start, inQuote, escaped, rows))
    {
      var ch := values[idx];
      if inQuote {
        if escaped {
          escaped := false;
        } else if ch == BACKSLASH {
          escaped := true;
        } else if ch == QUOTE {
          inQuote := false;
        }
      } else if ch == QUOTE {
        inQuote := true;
      } else if ch == '(' {
        if depth == 0 {
          start := idx;
        }
        depth := depth + 1;
      } else if ch == ')' {
        depth := depth - 1;
        if depth == 0 && start != NONE {
          rows := rows + [values[start..idx + 1]];
          start := NONE;
        }
      }
    }
  }

  predicate Bare(text: string) {
    forall k :: 0 <= k < |text| ==> text[k] != QUOTE && text[k] != '(' && text[k] != ')'
  }

  /** A printed column value: NULL and numbers are bare, any string becomes a literal. */
  predicate Printable(v: Value) {
    v.Number? ==> Bare(v.text)
  }

  predicate RowPrintable(fields: seq<Value>) {
    forall k :: 0 <= k < |fields| ==> Printable(fields[k])
  }

  function PrintFields(fields: seq<Value>): string {
    if fields == [] then ""
    else if |fields| == 1 then SqlQuote(fields[0])
    else SqlQuote(fields[0]) + ", " + PrintFields(fields[1..])
  }

  function PrintRow(fields: seq<Value>): string {
    "(" + PrintFields(fields) + ")"
  }

  /** Rows one after the other, with a separator such as "," between them. */
  function PrintRows(rows: seq<seq<Value>>, sep: string): string {
    if rows == [] then ""
    else if |rows| == 1 then PrintRow(rows[0])
    else PrintRow(rows[0]) + sep + PrintRows(rows[1..], sep)
  }

  lemma {:induction false} RunBare(values: string, i: nat, text: string, st: State)
    requires At(values, i, text) && Bare(text) && NONE <= st.start <= i && !st.inQuote
    ensures Run(values, i, i + |text|, st) == st
    decreases |text|
  {
    if text != "" {
      AtAppend(values, i, text[..1], text[1..]);
      assert text == text[..1] + text[1..];
      assert values[i] == text[0];
      RunBare(values, i + 1, text[1..], st);
    }
  }

  /** Inside a literal one escaped character leaves the scanner inside the literal. */
  lemma RunEscapeChar(values: string, i: nat, c: char, st: State)
    requires At(values, i, EscapeChar(c)) && NONE <= st.start <= i && st.inQuote && !st.escaped
    ensures Run(values, i, i + |EscapeChar(c)|, st) == st
  {
    var text := EscapeChar(c);
    assert values[i] == text[0];
    RunOne(values, i, st);
    if |text| == 2 {
      assert values[i + 1] == text[1];
      RunOne(values, i + 1, Step(values, i, st));
      RunTwice(values, i, i + 1, i + 2, st);
    }
  }

  lemma {:induction false} RunEscape(values: string, i: nat, s: string, st: State)
    requires At(values, i, Escape(s)) && NONE <= st.start <= i && st.inQuote && !st.escaped
    ensures Run(values, i, i + |Escape(s)|, st) == st
    decreases |s|
  {
    if s != "" {
      var head, tail := EscapeChar(s[0]), Escape(s[1..]);
      AtAppend(values, i, head, tail);
      RunEscapeChar(values, i, s[0], st);
      RunEscape(values, i + |head|, s[1..], st);
      RunTwice(values, i, i + |head|, i + |Escape(s)|, st);
    }
  }

  /** Two adjacent stretches, each scanned on its own. */
  lemma RunPair(values: string, i: nat, a: string, b: string, st: State, mid: State)
    requires At(values, i, a + b) && NONE <= st.start <= i
    requires Run(values, i, i + |a|, st) == mid
    ensures At(values, i, a) && At(values, i + |a|, b)
    ensures Run(values, i, i + |a + b|, st) == Run(values, i + |a|, i + |a| + |b|, mid)
  {
    AtAppend(values, i, a, b);
    RunTwice(values, i, i + |a|, i + |a| + |b|, st);
  }

  lemma AtThree(values: string, i: nat, a: string, b: string, c: string)
    requires At(values, i, a + b + c)
    ensures At(values, i, a) && At(values, i + |a|, b) && At(values, i + |a| + |b|, c)
    ensures i + |a| + |b| + |c| <= |values|
  {
    AtAppend(values, i, a + b, c);
    AtAppend(values, i, a, b);
  }

  lemma RunThree(values: string, i: nat, a: string, b: string, c: string, st: State, st1: State, st2: State)
    requires At(values, i, a + b + c) && NONE <= st.start <= i
    requires Run(values, i, i + |a|, st) == st1
    requires Run(values, i + |a|, i + |a| + |b|, st1) == st2
    ensures Run(values, i, i + |a + b + c|, st) == Run(values, i + |a| + |b|, i + |a| + |b| + |c|, st2)
  {
    RunTwice(values, i, i + |a|, i + |a| + |b|, st);
    RunTwice(values, i, i + |a| + |b|, i + |a| + |b| + |c|, st);
  }

  lemma RunQuote(values: string, i: nat, st: State)
    requires At(values, i, [QUOTE]) && NONE <= st.start <= i && !st.escaped
    ensures Run(values, i, i + 1, st) == st.(inQuote := !st.inQuote)
  {
  }

  lemma RunString(values: string, i: nat, s: string, st: State)
    requires At(values, i, [QUOTE] + (Escape(s) + [QUOTE]))
    requires NONE <= st.start <= i && !st.inQuote && !st.escaped
    ensures Run(values, i, i + |Escape(s)| + 2, st) == st
  {
    hide Run;
    var body, inside := Escape(s), st.(inQuote := true);
    AtAppend(values, i, [QUOTE], body + [QUOTE]);
    RunQuote(values, i, st);
    RunPair(values, i, [QUOTE], body + [QUOTE], st, inside);
    AtAppend(values, i + 1, body, [QUOTE]);
    RunEscape(values, i + 1, s, inside);
    RunPair(values, i + 1, body, [QUOTE], inside, inside);
    RunQuote(values, i + 1 + |body|, inside);
  }

  lemma QuotedText(s: string)
    ensures SqlQuote(Str(s)) == [QUOTE] + (Escape(s) + [QUOTE])
  {
    QuoteEscapes(s);
  }

  lemma RunValue(values: string, i: nat, v: Value, st: State)
    requires At(values, i, SqlQuote(v)) && Printable(v)
    requires NONE <= st.start <= i && !st.inQuote && !st.escaped
    ensures Run(values, i, i + |SqlQuote(v)|, st) == st
  {
    hide Run, At;
    if v.Str? {
      QuotedText(v.value);
      RunString(values, i, v.value, st);
    } else {
      hide SqlQuote;
      RunBare(values, i, SqlQuote(v), st);
    }
  }

  lemma {:induction false} RunFields(values: string, i: nat, fields: seq<Value>, st: State)
    requires At(values, i, PrintFields(fields)) && RowPrintable(fields)
    requires NONE <= st.start <= i && !st.inQuote && !st.escaped
    ensures Run(values, i, i + |PrintFields(fields)|, st) == st
    decreases |fields|
  {
    hide Run, Step, SqlQuote;
    if |fields| == 0 {
      RunNone(values, i, st);
    } else if |fields| == 1 {
      RunValue(values, i, fields[0], st);
    } else {
      var first, rest := SqlQuote(fields[0]), PrintFields(fields[1..]);
      AtThree(values, i, first, ", ", rest);
      RunValue(values, i, fields[0], st);
      RunBare(values, i + |first|, ", ", st);
      RunThree(values, i, first, ", ", rest, st, st, st);
      RunFields(values, i + |first| + 2, fields[1..], st);
    }
  }

  lemma RunRow(values: string, i: nat, fields: seq<Value>, done: seq<string>)
    requires At(values, i, PrintRow(fields)) && RowPrintable(fields)
    ensures Run(values, i, i + |PrintRow(fields)|, START.(rows := done))
         == START.(rows := done + [PrintRow(fields)])
  {
    hide Run, PrintFields;
    var body, st := PrintFields(fields), START.(rows := done);
    assert PrintRow(fields) == "(" + body + ")";
    AtAppend(values, i, "(" + body, ")");
    AtAppend(values, i, "(", body);
    var m := i + 1 + |body|;
    assert values[i] == values[i..i + 1][0] == '(' && values[m] == values[m..m + 1][0] == ')';
    var open := Step(values, i, st);
    RunOne(values, i, st);
    RunPair(values, i, "(", body, st, open);
    RunFields(values, i + 1, fields, open);
    RunPair(values, i, "(" + body, ")", st, open);
    RunOne(values, m, open);
  }

  function RowTexts(rows: seq<seq<Value>>): seq<string> {
    if rows == [] then [] else [PrintRow(rows[0])] + RowTexts(rows[1..])
  }

  lemma RunRowSep(values: string, i: nat, fields: seq<Value>, sep: string, rest: string, done: seq<string>)
    requires At(values, i, PrintRow(fields) + sep + rest) && RowPrintable(fields) && Bare(sep)
    ensures var n := i + |PrintRow(fields)| + |sep|;
            At(values, n, rest)
            && Run(values, i, n + |rest|, START.(rows := done))
            == Run(values, n, n + |rest|, START.(rows := done + [PrintRow(fields)]))
  {
    hide Run, Step, At, Bare, PrintRow, RowPrintable;
    var first := PrintRow(fields);
    var before, after := START.(rows := done), START.(rows := done + [first]);
    AtThree(values, i, first, sep, rest);
    RunRow(values, i, fields, done);
    RunBare(values, i + |first|, sep, after);
    RunThree(values, i, first, sep, rest, before, after, after);
  }

  lemma {:induction false} RunRows(values: string, i: nat, rows: seq<seq<Value>>, sep: string, done: seq<string>)
    requires At(values, i, PrintRows(rows, sep)) && Bare(sep)
    requires forall r :: 0 <= r < |rows| ==> RowPrintable(rows[r])
    ensures Run(values, i, i + |PrintRows(rows, sep)|, START.(rows := done))
         == START.(rows := done + RowTexts(rows))
    decreases |rows|
  {
    hide Run, Step, Bare, PrintRow, RowPrintable;
    if |rows| == 0 {
      RunNone(values, i, START.(rows := done));
      assert done + RowTexts(rows) == done;
    } else if |rows| == 1 {
      RunRow(values, i, rows[0], done);
      assert RowTexts(rows) == [PrintRow(rows[0])];
    } else {
      var first, rest := PrintRow(rows[0]), PrintRows(rows[1..], sep);
      RunRowSep(values, i, rows[0], sep, rest, done);
      RunRows(values, i + |first| + |sep|, rows[1..], sep, done + [first]);
      assert done + [first] + RowTexts(rows[1..]) == done + RowTexts(rows);
    }
  }

  /** Splitting inverts printing for all values: parentheses, quotes and backslashes inside
      literals, at the end of one too, never move a row boundary. */
  lemma SplitInvertsPrint(rows: seq<seq<Value>>, sep: string)
    requires Bare(sep)
    requires forall r :: 0 <= r < |rows| ==> RowPrintable(rows[r])
    ensures Run(PrintRows(rows, sep), 0, |PrintRows(rows, sep)|, START).rows == RowTexts(rows)
  {
    RunRows(PrintRows(rows, sep), 0, rows, sep, []);
    assert START.(rows := []) == START;
    assert [] + RowTexts(rows) == RowTexts(rows);
  }
}
