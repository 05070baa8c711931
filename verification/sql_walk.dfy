/** How iter_sql_statements walks over the literals that sql_quote prints, wherever it meets them. */
module SqlWalk {
  import opened Text
  import opened SqlText
  import opened SqlStatements

  /** Where the scanner takes itself to be: outside all quotes, inside single or double ones, or
      at a semicolon or a double dash of a literal that it has taken for SQL. */
  datatype Place = Out | Single | Double | Lost

  /** A stretch of SQL without quotes, semicolons or line comments. */
  predicate Plain(chunk: string) {
    && (forall k :: 0 <= k < |chunk| ==> chunk[k] != QUOTE && chunk[k] != '"' && chunk[k] != ';')
    && (forall k :: 0 < k < |chunk| ==> !(chunk[k - 1] == '-' && chunk[k] == '-'))
  }

  predicate EndsInBackslash(s: string) {
    s != "" && s[|s| - 1] == BACKSLASH
  }

  predicate StartsDashes(v: string) {
    |v| >= 2 && v[0] == '-' && v[1] == '-'
  }

  /** The effect of a value's first character, printed; `slash` says whether a backslash stands
      before it.  A quote is printed twice, so it leaves the scanner outside, unless the
      backslash hides the first of the two. */
  function Pass(v: string, slash: bool, at: Place): Place
    requires v != ""
  {
    match at
    case Out =>
      if v[0] == QUOTE then if slash then Single else Out
      else if v[0] == '"' then if slash then Out else Double
      else if v[0] == ';' || StartsDashes(v) then Lost
      else Out
    case Double => if v[0] == '"' && !slash then Out else Double
    case _ => at
  }

  /** The effect of a quote that a backslash may stand before. */
  function Cross(slash: bool, at: Place): Place {
    match at
    case Out => if slash then Out else Single
    case Single => if slash then Single else Out
    case _ => at
  }

  /** From a place in a literal to the place behind its closing quote. */
  function Walk(v: string, slash: bool, at: Place): Place
    decreases |v|
  {
    if v == "" then Cross(slash, at) else Walk(v[1..], v[0] == BACKSLASH, Pass(v, slash, at))
  }

  /** From the place before a literal to the place behind it. */
  function Over(value: string, at: Place): Place {
    Walk(value, false, Cross(false, at))
  }

  // ----- What the walk is for values from outside, and for calm ones.

  /** Whether a backslash stands before the closing quote. */
  predicate Last(v: string, slash: bool) {
    if v == "" then slash else v[|v| - 1] == BACKSLASH
  }

  lemma {:induction false} WalkInside(v: string, slash: bool)
    ensures Walk(v, slash, Single) == Cross(Last(v, slash), Single)
    ensures Walk(v, slash, Lost) == Lost
    decreases |v|
  {
    if v != "" {
      WalkInside(v[1..], v[0] == BACKSLASH);
    }
  }

  /** A literal met outside is left exactly when its value does not end in a backslash. */
  lemma OverFromOutside(value: string)
    ensures Over(value, Out) == if EndsInBackslash(value) then Single else Out
    ensures Over(value, Lost) == Lost
  {
    WalkInside(value, false);
  }

  /** The double quotes in it that no backslash hides come in pairs, and outside them there is no
      semicolon, no double dash, and no quote after a backslash. */
  predicate Calm(v: string, slash: bool, double: bool)
    decreases |v|
  {
    if v == "" then !double
    else if v[0] == '"' then Calm(v[1..], false, double == slash)
    else (double || !(v[0] == ';' || StartsDashes(v) || (v[0] == QUOTE && slash))) && Calm(v[1..], v[0] == BACKSLASH, double)
  }

  lemma {:induction false} CalmWalks(v: string, slash: bool, double: bool)
    requires Calm(v, slash, double)
    ensures Walk(v, slash, if double then Double else Out) == Cross(Last(v, slash), Out)
    decreases |v|
  {
    if v != "" {
      CalmWalks(v[1..], v[0] == BACKSLASH, if v[0] == '"' then double == slash else double);
    }
  }

  /** A calm literal met inside another is left exactly when its value does end in a backslash. */
  lemma OverFromInside(value: string)
    requires Calm(value, false, false)
    ensures Over(value, Single) == if EndsInBackslash(value) then Out else Single
  {
    CalmWalks(value, false, false);
  }

  // ----- The scanner does what the walk says.

  /** The scanner at a place, outside comments. */
  function Standing(at: Place, buf: string, done: seq<string>): State {
    State(at.Single?, at.Double?, false, buf, done)
  }

  predicate NotAt(text: string, i: nat, c: char) {
    i < |text| ==> text[i] != c
  }

  /** The scanner copies the first m characters of a part and finds itself outside, at a
      semicolon or a double dash. */
  ghost predicate LostAt(text: string, i: nat, st: State, part: string, m: nat) {
    && m < |part| && i + |part| <= |text|
    && Scan(text, i, st) == Scan(text, i + m, Standing(Out, st.buf + part[..m], st.statements))
    && (part[m] == ';' || StartsDashes(part[m..]))
  }

  /** The scanner copies a part and ends at a place, or is lost in it. */
  ghost predicate Leads(text: string, i: nat, st: State, part: string, at: Place) {
    if at == Lost then exists m: nat :: LostAt(text, i, st, part, m)
    else i + |part| <= |text| && Scan(text, i, st) == Scan(text, i + |part|, Standing(at, st.buf + part, st.statements))
  }

  /** One part after the other. */
  lemma LeadsOn(text: string, i: nat, st: State, a: string, mid: Place, b: string, at: Place)
    requires mid != Lost && Leads(text, i, st, a, mid)
    requires Leads(text, i + |a|, Standing(mid, st.buf + a, st.statements), b, at)
    ensures Leads(text, i, st, a + b, at)
  {
    hide Scan;
    assert st.buf + a + b == st.buf + (a + b);
    if at == Lost {
      var m: nat :| LostAt(text, i + |a|, Standing(mid, st.buf + a, st.statements), b, m);
      assert (a + b)[..|a| + m] == a + b[..m] && (a + b)[|a| + m..] == b[m..];
      assert st.buf + a + b[..m] == st.buf + (a + b[..m]);
      assert LostAt(text, i, st, a + b, |a| + m);
    }
  }

  /** Once lost, lost. */
  lemma LostStays(text: string, i: nat, st: State, a: string, b: string)
    requires Leads(text, i, st, a, Lost) && i + |a + b| <= |text|
    ensures Leads(text, i, st, a + b, Lost)
  {
    hide Scan;
    var m: nat :| LostAt(text, i, st, a, m);
    assert (a + b)[..m] == a[..m] && (a + b)[m..] == a[m..] + b;
    assert LostAt(text, i, st, a + b, m);
  }

  lemma LostNow(text: string, i: nat, buf: string, done: seq<string>, part: string)
    requires At(text, i, part) && part != "" && (part[0] == ';' || StartsDashes(part))
    ensures Leads(text, i, Standing(Out, buf, done), part, Lost)
  {
    hide Scan;
    assert part[..0] == "" && part[0..] == part && buf + "" == buf;
    assert LostAt(text, i, Standing(Out, buf, done), part, 0);
  }

  /** A character that means nothing to the scanner in its present mode is copied. */
  predicate Copied(text: string, i: nat, st: State)
    requires i < |text|
  {
    && !st.inComment
    && (text[i] == QUOTE ==> st.inDouble)
    && (text[i] == '"' ==> st.inSingle)
    && (!st.inSingle && !st.inDouble ==> text[i] != ';' && !(text[i] == '-' && NextIs(text, i, '-')))
  }

  lemma ScanCopied(text: string, i: nat, st: State)
    requires i < |text| && Copied(text, i, st)
    ensures Scan(text, i, st) == Scan(text, i + 1, st.(buf := st.buf + [text[i]]))
  {
    hide Strip;
  }

  lemma {:induction false} ScanCopiedAll(text: string, i: nat, part: string, st: State)
    requires At(text, i, part) && forall k :: i <= k < i + |part| ==> Copied(text, k, st)
    ensures Scan(text, i, st) == Scan(text, i + |part|, st.(buf := st.buf + part))
    decreases |part|
  {
    hide Scan, NextIs;
    if part == "" {
      assert st.buf + part == st.buf;
    } else {
      var next := st.(buf := st.buf + [part[0]]);
      AtChar(text, i, part, 0);
      AtAppend(text, i, part[..1], part[1..]);
      assert part == part[..1] + part[1..];
      ScanCopied(text, i, st);
      assert forall k :: i + 1 <= k < i + |part| ==> Copied(text, k, st) && Copied(text, k, next);
      ScanCopiedAll(text, i + 1, part[1..], next);
      assert next.buf + part[1..] == st.buf + part;
    }
  }

  /** Plain SQL is copied everywhere. */
  lemma ScanPlain(text: string, i: nat, chunk: string, at: Place, buf: string, done: seq<string>)
    requires At(text, i, chunk) && Plain(chunk) && NotAt(text, i + |chunk|, '-') && at != Lost
    ensures Leads(text, i, Standing(at, buf, done), chunk, at)
  {
    hide Scan;
    forall k | i <= k < i + |chunk| ensures Copied(text, k, Standing(at, buf, done)) {
      AtChar(text, i, chunk, k - i);
      if k + 1 < i + |chunk| { AtChar(text, i, chunk, k + 1 - i); }
    }
    ScanCopiedAll(text, i, chunk, Standing(at, buf, done));
  }

  /** A quote that is not the first of two inside a literal. */
  lemma ScanQuote(text: string, i: nat, at: Place, buf: string, done: seq<string>)
    requires i < |text| && text[i] == QUOTE && at != Lost && (at == Single ==> NotAt(text, i + 1, QUOTE))
    ensures Scan(text, i, Standing(at, buf, done))
         == Scan(text, i + 1, Standing(Cross(AfterBackslash(text, i), at), buf + [QUOTE], done))
  {
    hide Strip;
  }

  /** Two quotes inside a literal. */
  lemma ScanPair(text: string, i: nat, buf: string, done: seq<string>)
    requires At(text, i, "''")
    ensures Scan(text, i, Standing(Single, buf, done)) == Scan(text, i + 2, Standing(Single, buf + "''", done))
  {
    hide Strip;
    AtChar(text, i, "''", 0);
    AtChar(text, i, "''", 1);
    assert Turn(text, i, Standing(Single, buf, done)) == (i + 2, Standing(Single, buf + "''", done));
  }

  lemma ScanDoubleQuote(text: string, i: nat, at: Place, buf: string, done: seq<string>)
    requires i < |text| && text[i] == '"' && (at == Out || at == Double)
    ensures Scan(text, i, Standing(at, buf, done))
         == Scan(text, i + 1, Standing(if AfterBackslash(text, i) then at else if at == Out then Double else Out, buf + "\"", done))
  {
    hide Strip;
  }

  predicate Hidden(text: string, i: nat) {
    0 < i <= |text| && text[i - 1] == BACKSLASH
  }

  /** The escape of a quote outside, after a backslash: the first of the two quotes is hidden. */
  lemma ScanHiddenQuote(text: string, i: nat, buf: string, done: seq<string>)
    requires At(text, i, "''") && Hidden(text, i)
    ensures Scan(text, i, Standing(Out, buf, done)) == Scan(text, i + 2, Standing(Single, buf + "''", done))
  {
    hide Scan, At;
    AtChar(text, i, "''", 0);
    AtChar(text, i, "''", 1);
    ScanQuote(text, i, Out, buf, done);
    ScanQuote(text, i + 1, Out, buf + "'", done);
    assert buf + "'" + "'" == buf + "''";
  }

  lemma CopyOne(text: string, i: nat, at: Place, buf: string, done: seq<string>)
    requires i < |text| && at != Lost && Copied(text, i, Standing(at, buf, done))
    ensures Scan(text, i, Standing(at, buf, done)) == Scan(text, i + 1, Standing(at, buf + [text[i]], done))
  {
    ScanCopied(text, i, Standing(at, buf, done));
    hide Scan;
  }

  lemma CopyTwo(text: string, i: nat, c: char, at: Place, buf: string, done: seq<string>)
    requires At(text, i, [c, c]) && at != Lost
    requires c == BACKSLASH || (c == QUOTE && at == Double)
    ensures Scan(text, i, Standing(at, buf, done)) == Scan(text, i + 2, Standing(at, buf + [c, c], done))
  {
    hide Scan;
    AtChar(text, i, [c, c], 0);
    AtChar(text, i, [c, c], 1);
    CopyOne(text, i, at, buf, done);
    CopyOne(text, i + 1, at, buf + [c], done);
    assert buf + [c] + [c] == buf + [c, c];
  }

  lemma EscapeSplit(v: string)
    requires v != ""
    ensures Escape(v) + [QUOTE] == EscapeChar(v[0]) + (Escape(v[1..]) + [QUOTE])
    ensures |EscapeChar(v[0])| >= 1 && EscapeChar(v[0])[0] == v[0]
  {
    EscapeCharStarts(v[0]);
    hide EscapeChar;
  }

  lemma EscapeCharStarts(c: char)
    ensures |EscapeChar(c)| >= 1 && EscapeChar(c)[0] == c
    ensures c == '-' ==> EscapeChar(c) == "-"
  {
  }

  lemma RestStarts(v: string)
    ensures (Escape(v) + [QUOTE])[0] == if v == "" then QUOTE else v[0]
  {
    if v != "" { EscapeSplit(v); }
  }

  lemma FirstAt(text: string, i: nat, a: string, b: string)
    requires At(text, i, a + b) && a != ""
    ensures At(text, i, a) && At(text, i + |a|, b) && i < |text| && text[i] == a[0]
  {
    hide At;
    AtAppend(text, i, a, b);
    AtChar(text, i, a, 0);
  }

  /** The first two characters of what is left of a literal. */
  lemma BodyStarts(text: string, i: nat, v: string)
    requires At(text, i, Escape(v) + [QUOTE]) && v != ""
    ensures At(text, i, EscapeChar(v[0])) && At(text, i + |EscapeChar(v[0])|, Escape(v[1..]) + [QUOTE])
    ensures Escape(v) + [QUOTE] == EscapeChar(v[0]) + (Escape(v[1..]) + [QUOTE])
    ensures |EscapeChar(v[0])| >= 1 && i < |text| && text[i] == v[0]
  {
    hide Escape, EscapeChar, At;
    EscapeSplit(v);
    FirstAt(text, i, EscapeChar(v[0]), Escape(v[1..]) + [QUOTE]);
  }

  lemma DashStarts(text: string, i: nat, v: string)
    requires At(text, i, Escape(v) + [QUOTE]) && v != "" && v[0] == '-'
    ensures i + 1 < |text| && (text[i + 1] == '-' <==> StartsDashes(v))
  {
    BodyStarts(text, i, v);
    EscapeCharStarts(v[0]);
    RestStarts(v[1..]);
    hide Escape, EscapeChar, At;
    AtChar(text, i + 1, Escape(v[1..]) + [QUOTE], 0);
  }

  /** One character of a value, but for a quote outside that no backslash hides. */
  lemma ScanPass(text: string, i: nat, v: string, slash: bool, at: Place, buf: string, done: seq<string>)
    requires At(text, i, Escape(v) + [QUOTE]) && v != "" && at != Lost && (slash <==> Hidden(text, i))
    requires Pass(v, slash, at) != Lost && !(at == Out && v[0] == QUOTE && !slash)
    ensures At(text, i, EscapeChar(v[0])) && At(text, i + |EscapeChar(v[0])|, Escape(v[1..]) + [QUOTE])
    ensures Leads(text, i, Standing(at, buf, done), EscapeChar(v[0]), Pass(v, slash, at))
    ensures v[0] == BACKSLASH <==> Hidden(text, i + |EscapeChar(v[0])|)
  {
    hide Scan, Escape, Copied;
    BodyStarts(text, i, v);
    var c := v[0];
    AtChar(text, i, EscapeChar(c), |EscapeChar(c)| - 1);
    if c == BACKSLASH {
      CopyTwo(text, i, c, at, buf, done);
    } else if c == QUOTE {
      match at
      case Out => ScanHiddenQuote(text, i, buf, done);
      case Single => ScanPair(text, i, buf, done);
      case Double => CopyTwo(text, i, c, at, buf, done);
    } else if c == '"' && at != Single {
      ScanDoubleQuote(text, i, at, buf, done);
    } else {
      if c == '-' { DashStarts(text, i, v); }
      OneIsCopied(text, i, v, at, buf, done);
      CopyOne(text, i, at, buf, done);
    }
  }

  lemma OneIsCopied(text: string, i: nat, v: string, at: Place, buf: string, done: seq<string>)
    requires i < |text| && v != "" && text[i] == v[0] && at != Lost
    requires v[0] != QUOTE && (v[0] == '"' ==> at == Single)
    requires at == Out ==> v[0] != ';' && !StartsDashes(v)
    requires v[0] == '-' ==> i + 1 < |text| && (text[i + 1] == '-' <==> StartsDashes(v))
    ensures Copied(text, i, Standing(at, buf, done))
  {
  }

  /** From a place in a literal to its end. */
  lemma {:induction false} ScanBody(text: string, i: nat, v: string, slash: bool, at: Place, buf: string, done: seq<string>)
    requires At(text, i, Escape(v) + [QUOTE]) && at != Lost && (slash <==> Hidden(text, i))
    requires NotAt(text, i + |Escape(v) + [QUOTE]|, QUOTE)
    ensures Leads(text, i, Standing(at, buf, done), Escape(v) + [QUOTE], Walk(v, slash, at))
    decreases |v|, 0
  {
    hide Scan, Escape, At, Leads;
    if v == "" {
      ScanClosing(text, i, slash, at, buf, done);
    } else {
      var first, rest := EscapeChar(v[0]), Escape(v[1..]) + [QUOTE];
      BodyStarts(text, i, v);
      if Pass(v, slash, at) == Lost {
        LostBody(text, i, v, buf, done);
        WalkInside(v[1..], v[0] == BACKSLASH);
      } else if at == Out && v[0] == QUOTE && !slash {
        ScanOpening(text, i, v, buf, done);
        ScanPending(text, i + 1, v[1..], buf + [QUOTE], done);
        LeadsOn(text, i, Standing(Out, buf, done), [QUOTE], Single, [QUOTE] + Escape(v[1..]) + [QUOTE], Walk(v[1..], false, Out));
        assert Escape(v) + [QUOTE] == [QUOTE] + ([QUOTE] + Escape(v[1..]) + [QUOTE]);
      } else {
        ScanPass(text, i, v, slash, at, buf, done);
        ScanBody(text, i + |first|, v[1..], v[0] == BACKSLASH, Pass(v, slash, at), buf + first, done);
        LeadsOn(text, i, Standing(at, buf, done), first, Pass(v, slash, at), rest, Walk(v, slash, at));
      }
    }
  }

  lemma ScanClosing(text: string, i: nat, slash: bool, at: Place, buf: string, done: seq<string>)
    requires At(text, i, Escape("") + [QUOTE]) && at != Lost && (slash <==> Hidden(text, i))
    requires NotAt(text, i + |Escape("") + [QUOTE]|, QUOTE)
    ensures Leads(text, i, Standing(at, buf, done), Escape("") + [QUOTE], Cross(slash, at))
  {
    hide Scan;
    assert Escape("") + [QUOTE] == [QUOTE];
    AtChar(text, i, [QUOTE], 0);
    ScanQuote(text, i, at, buf, done);
  }

  /** A semicolon or a double dash of a value, outside. */
  lemma LostBody(text: string, i: nat, v: string, buf: string, done: seq<string>)
    requires At(text, i, Escape(v) + [QUOTE]) && v != "" && (v[0] == ';' || StartsDashes(v))
    ensures Leads(text, i, Standing(Out, buf, done), Escape(v) + [QUOTE], Lost)
  {
    BodyStarts(text, i, v);
    var part := Escape(v) + [QUOTE];
    if StartsDashes(v) {
      assert Escape(v[1..])[0] == '-';
    }
    hide Escape;
    LostNow(text, i, buf, done, part);
  }

  /** The first of the two quotes of a quote met outside opens. */
  lemma ScanOpening(text: string, i: nat, v: string, buf: string, done: seq<string>)
    requires At(text, i, Escape(v) + [QUOTE]) && v != "" && v[0] == QUOTE && !Hidden(text, i)
    ensures Leads(text, i, Standing(Out, buf, done), [QUOTE], Single)
    ensures At(text, i + 1, [QUOTE] + Escape(v[1..]) + [QUOTE]) && !Hidden(text, i + 1)
    ensures Escape(v) + [QUOTE] == [QUOTE] + ([QUOTE] + Escape(v[1..]) + [QUOTE])
  {
    hide Scan;
    BodyStarts(text, i, v);
    assert Escape(v) + [QUOTE] == [QUOTE] + ([QUOTE] + Escape(v[1..]) + [QUOTE]);
    AtAppend(text, i, [QUOTE], [QUOTE] + Escape(v[1..]) + [QUOTE]);
    ScanQuote(text, i, Out, buf, done);
  }

  /** From a quote inside a literal to the end of the literal: it closes, or pairs with the
      first of the next two quotes, or with the closing quote. */
  lemma {:induction false} ScanPending(text: string, i: nat, v: string, buf: string, done: seq<string>)
    requires At(text, i, [QUOTE] + Escape(v) + [QUOTE]) && !Hidden(text, i)
    requires NotAt(text, i + |[QUOTE] + Escape(v) + [QUOTE]|, QUOTE)
    ensures Leads(text, i, Standing(Single, buf, done), [QUOTE] + Escape(v) + [QUOTE], Walk(v, false, Out))
    decreases |v|, 1
  {
    hide Scan, Escape, At, Leads;
    var body := Escape(v) + [QUOTE];
    assert [QUOTE] + Escape(v) + [QUOTE] == [QUOTE] + body;
    AtAppend(text, i, [QUOTE], body);
    AtChar(text, i, [QUOTE], 0);
    if v == "" {
      ScanLastPair(text, i, buf, done);
    } else if v[0] == QUOTE {
      ScanMiddlePair(text, i, v, buf, done);
      ScanPending(text, i + 2, v[1..], buf + "''", done);
      LeadsOn(text, i, Standing(Single, buf, done), "''", Single, [QUOTE] + Escape(v[1..]) + [QUOTE], Walk(v, false, Out));
    } else {
      BodyStarts(text, i + 1, v);
      ScanQuote(text, i, Single, buf, done);
      LeadsOne(text, i, Standing(Single, buf, done), QUOTE, Out);
      ScanBody(text, i + 1, v, false, Out, buf + [QUOTE], done);
      LeadsOn(text, i, Standing(Single, buf, done), [QUOTE], Out, body, Walk(v, false, Out));
    }
  }

  lemma LeadsOne(text: string, i: nat, st: State, c: char, at: Place)
    requires i < |text| && at != Lost && Scan(text, i, st) == Scan(text, i + 1, Standing(at, st.buf + [c], st.statements))
    ensures Leads(text, i, st, [c], at)
  {
    hide Scan;
  }

  lemma ScanLastPair(text: string, i: nat, buf: string, done: seq<string>)
    requires At(text, i, [QUOTE] + Escape("") + [QUOTE])
    ensures Leads(text, i, Standing(Single, buf, done), [QUOTE] + Escape("") + [QUOTE], Single)
  {
    hide Scan;
    assert [QUOTE] + Escape("") + [QUOTE] == "''";
    ScanPair(text, i, buf, done);
  }

  lemma ScanMiddlePair(text: string, i: nat, v: string, buf: string, done: seq<string>)
    requires At(text, i, [QUOTE] + Escape(v) + [QUOTE]) && v != "" && v[0] == QUOTE
    ensures Leads(text, i, Standing(Single, buf, done), "''", Single)
    ensures At(text, i + 2, [QUOTE] + Escape(v[1..]) + [QUOTE]) && !Hidden(text, i + 2)
    ensures [QUOTE] + Escape(v) + [QUOTE] == "''" + ([QUOTE] + Escape(v[1..]) + [QUOTE])
  {
    hide Scan;
    assert Escape(v) == "''" + Escape(v[1..]);
    assert [QUOTE] + Escape(v) + [QUOTE] == "''" + ([QUOTE] + Escape(v[1..]) + [QUOTE]);
    AtAppend(text, i, "''", [QUOTE] + Escape(v[1..]) + [QUOTE]);
    AtChar(text, i, "''", 1);
    ScanPair(text, i, buf, done);
  }

  /** A printed literal, whatever its value and wherever it is met. */
  lemma ScanLiteral(text: string, i: nat, value: string, at: Place, buf: string, done: seq<string>)
    requires At(text, i, SqlQuote(Str(value))) && !Hidden(text, i) && at != Lost
    requires NotAt(text, i + |SqlQuote(Str(value))|, QUOTE)
    ensures Leads(text, i, Standing(at, buf, done), SqlQuote(Str(value)), Over(value, at))
  {
    QuoteEscapes(value);
    hide Scan, Escape, SqlQuote, Leads;
    var literal, body := SqlQuote(Str(value)), Escape(value) + [QUOTE];
    if at == Single {
      ScanPending(text, i, value, buf, done);
    } else {
      assert literal == [QUOTE] + body;
      AtAppend(text, i, [QUOTE], body);
      AtChar(text, i, [QUOTE], 0);
      ScanQuote(text, i, at, buf, done);
      LeadsOne(text, i, Standing(at, buf, done), QUOTE, Cross(false, at));
      ScanBody(text, i + 1, value, false, Cross(false, at), buf + [QUOTE], done);
      LeadsOn(text, i, Standing(at, buf, done), [QUOTE], Cross(false, at), body, Over(value, at));
    }
  }
}
