/** The string operations the services rely on: trimming, lower-casing, prefixes,
    suffixes and splitting on one separator.  A string is a sequence of characters;
    lower-casing covers the ASCII letters. */
module Text {

  /** The characters that Go's strings.TrimSpace removes. */
  const GO_SPACE: set<char> :=
    {'\t', '\n', '\U{0B}', '\U{0C}', '\r', ' ', '\U{85}', '\U{A0}', '\U{1680}',
     '\U{2000}', '\U{2001}', '\U{2002}', '\U{2003}', '\U{2004}', '\U{2005}', '\U{2006}', '\U{2007}',
     '\U{2008}', '\U{2009}', '\U{200A}', '\U{2028}', '\U{2029}', '\U{202F}', '\U{205F}', '\U{3000}'}

  /** The characters that Python's str.strip removes. */
  const PY_SPACE: set<char> := GO_SPACE + {'\U{1C}', '\U{1D}', '\U{1E}', '\U{1F}'}

  predicate HasSuffix(s: string, suffix: string) {
    |suffix| <= |s| && s[|s| - |suffix|..] == suffix
  }

  function TrimLeft(s: string, cut: set<char>): string {
    if s != "" && s[0] in cut then TrimLeft(s[1..], cut) else s
  }

  function TrimRight(s: string, cut: set<char>): string {
    if s != "" && s[|s| - 1] in cut then TrimRight(s[..|s| - 1], cut) else s
  }

  function Trim(s: string, cut: set<char>): string {
    TrimRight(TrimLeft(s, cut), cut)
  }

  function TrimSpace(s: string): string {
    Trim(s, GO_SPACE)
  }

  /** A string that trimming leaves alone. */
  predicate Trimmed(s: string, cut: set<char>) {
    s == "" || (s[0] !in cut && s[|s| - 1] !in cut)
  }

  function LowerChar(c: char): char {
    if 'A' <= c <= 'Z' then (c as int + 32) as char else c
  }

  function Lower(s: string): (r: string)
    ensures |r| == |s|
    ensures forall i :: 0 <= i < |s| ==> r[i] == LowerChar(s[i])
  {
    seq(|s|, i requires 0 <= i < |s| => LowerChar(s[i]))
  }

  /** The source's normalize and normalizeAction. */
  function Normalize(s: string): string {
    Lower(TrimSpace(s))
  }

  lemma {:induction false} TrimLeftTrimmed(s: string, cut: set<char>)
    ensures TrimLeft(s, cut) == "" || TrimLeft(s, cut)[0] !in cut
    ensures HasSuffix(s, TrimLeft(s, cut))
  {
    if s != "" && s[0] in cut {
      TrimLeftTrimmed(s[1..], cut);
    }
  }

  lemma {:induction false} TrimRightTrimmed(s: string, cut: set<char>)
    ensures TrimRight(s, cut) == "" || TrimRight(s, cut)[|TrimRight(s, cut)| - 1] !in cut
    ensures TrimRight(s, cut) <= s
  {
    if s != "" && s[|s| - 1] in cut {
      TrimRightTrimmed(s[..|s| - 1], cut);
    }
  }

  lemma TrimIsTrimmed(s: string, cut: set<char>)
    ensures Trimmed(Trim(s, cut), cut)
  {
    TrimLeftTrimmed(s, cut);
    TrimRightTrimmed(TrimLeft(s, cut), cut);
  }

  lemma TrimKeepsTrimmed(s: string, cut: set<char>)
    requires Trimmed(s, cut)
    ensures Trim(s, cut) == s
  {
  }

  lemma TrimTwice(s: string, cut: set<char>)
    ensures Trim(Trim(s, cut), cut) == Trim(s, cut)
  {
    TrimIsTrimmed(s, cut);
  }

  /** Leading characters of the cut set do not change the trimmed string. */
  lemma {:induction false} TrimDropsPrefix(pre: string, s: string, cut: set<char>)
    requires forall c :: c in pre ==> c in cut
    ensures Trim(pre + s, cut) == Trim(s, cut)
  {
    if pre == "" {
      assert pre + s == s;
    } else {
      assert (pre + s)[1..] == pre[1..] + s;
      TrimDropsPrefix(pre[1..], s, cut);
    }
  }

  /** A character outside the cut set stops trimming from either side. */
  lemma {:induction false} TrimRightKeeps(s: string, k: nat, cut: set<char>)
    requires k < |s| && s[k] !in cut
    ensures |TrimRight(s, cut)| > k
  {
    if s[|s| - 1] in cut {
      TrimRightKeeps(s[..|s| - 1], k, cut);
    }
  }

  lemma {:induction false} TrimKeeps(s: string, k: nat, cut: set<char>)
    requires k < |s| && s[k] !in cut
    ensures Trim(s, cut) != ""
  {
    if s[0] in cut {
      TrimKeeps(s[1..], k - 1, cut);
    } else {
      TrimRightKeeps(s, k, cut);
    }
  }

  lemma {:induction false} TrimLeftExtends(s: string, more: string, cut: set<char>)
    requires TrimLeft(s, cut) != ""
    ensures TrimLeft(s + more, cut) == TrimLeft(s, cut) + more
  {
    if s != "" && s[0] in cut {
      assert (s + more)[1..] == s[1..] + more;
      TrimLeftExtends(s[1..], more, cut);
    }
  }

  /** Blanks after a text are stripped like those before it. */
  lemma {:induction false} TrimRightDrops(s: string, after: string, cut: set<char>)
    requires (forall c :: c in after ==> c in cut) && s != "" && s[|s| - 1] !in cut
    ensures TrimRight(s + after, cut) == s
  {
    if after == "" {
      assert s + after == s;
    } else {
      var n := |after| - 1;
      assert (s + after)[..|s| + n] == s + after[..n] && (s + after)[|s| + n] == after[n];
      TrimRightDrops(s, after[..n], cut);
    }
  }

  lemma LowerTwice(s: string)
    ensures Lower(Lower(s)) == Lower(s)
  {
  }

  lemma LowerKeepsTrimmed(s: string)
    requires Trimmed(s, GO_SPACE)
    ensures Trimmed(Lower(s), GO_SPACE)
  {
  }

  /** Normalizing an already normalized string changes nothing. */
  lemma NormalizeTwice(s: string)
    ensures Trimmed(Normalize(s), GO_SPACE)
    ensures Normalize(Normalize(s)) == Normalize(s)
    ensures Lower(Normalize(s)) == Normalize(s)
    ensures TrimSpace(Normalize(s)) == Normalize(s)
  {
    TrimIsTrimmed(s, GO_SPACE);
    LowerKeepsTrimmed(TrimSpace(s));
    TrimKeepsTrimmed(Normalize(s), GO_SPACE);
    LowerTwice(TrimSpace(s));
  }

  /** A text of small letters only. */
  predicate Word(p: string) {
    p != "" && forall i :: 0 <= i < |p| ==> 'a' <= p[i] <= 'z'
  }

  lemma WordIsNormal(p: string)
    requires Word(p)
    ensures Normalize(p) == p
  {
  }

  lemma TrimPadded(before: string, s: string, after: string, cut: set<char>)
    requires s != "" && s[0] !in cut && s[|s| - 1] !in cut
    requires (forall c :: c in before ==> c in cut) && (forall c :: c in after ==> c in cut)
    ensures Trim(before + s + after, cut) == s
  {
    assert before + s + after == before + (s + after);
    TrimDropsPrefix(before, s + after, cut);
    assert TrimLeft(s + after, cut) == s + after;
    TrimRightDrops(s, after, cut);
  }

  /** Trimming drops blanks on either side and stops at printed characters. */
  lemma TrimSpaceKeeps(before: string, s: string, after: string)
    requires s != "" && '!' <= s[0] <= '~' && '!' <= s[|s| - 1] <= '~'
    requires (forall c :: c in before ==> c in " \t\r\n") && (forall c :: c in after ==> c in " \t\r\n")
    ensures TrimSpace(before + s + after) == s
  {
    BlanksAreSpace(before);
    BlanksAreSpace(after);
    PrintedIsNoSpace(s[0]);
    PrintedIsNoSpace(s[|s| - 1]);
    hide GO_SPACE;
    TrimPadded(before, s, after, GO_SPACE);
  }

  lemma BlanksAreSpace(s: string)
    requires forall c :: c in s ==> c in " \t\r\n"
    ensures forall c :: c in s ==> c in GO_SPACE && c in PY_SPACE
  {
  }

  lemma PrintedIsNoSpace(c: char)
    requires '!' <= c <= '~'
    ensures c !in GO_SPACE && c !in PY_SPACE
  {
  }

  /** Lower-casing leaves no capital, and changes nothing but capitals. */
  lemma LowerIsLower(s: string, i: nat)
    requires i < |s|
    ensures !('A' <= Lower(s)[i] <= 'Z')
    ensures !('A' <= s[i] <= 'Z') ==> Lower(s)[i] == s[i]
    ensures 'A' <= s[i] <= 'Z' ==> Lower(s)[i] as int - 'a' as int == s[i] as int - 'A' as int
  {
  }

  /** Go's strings.Split on a one-character separator. */
  function Split(s: string, sep: char): (parts: seq<string>)
    ensures |parts| >= 1
  {
    if s == "" then [""]
    else
      var rest := Split(s[1..], sep);
      if s[0] == sep then [""] + rest else [[s[0]] + rest[0]] + rest[1..]
  }

  /** A field between two marks that it does not hold fixes the field and what follows. */
  lemma MarkedFirst(a: string, rest: string, b: string, rest': string, mark: char)
    requires [mark] + a + [mark] + rest == [mark] + b + [mark] + rest' && mark !in a && mark !in b
    ensures a == b && rest == rest'
  {
    var s, s' := [mark] + a + [mark] + rest, [mark] + b + [mark] + rest';
    assert s[|a| + 1] == mark && s'[|b| + 1] == mark;
    assert forall k :: 0 <= k < |a| ==> s[k + 1] == a[k];
    assert forall k :: 0 <= k < |b| ==> s'[k + 1] == b[k];
    assert |a| == |b|;
    assert a == s[1..|a| + 1] && b == s'[1..|b| + 1] && rest == s[|a| + 2..] && rest' == s'[|b| + 2..];
  }

  /** Go's strings.Join with a one-character separator. */
  function Join(parts: seq<string>, sep: char): string {
    if |parts| == 0 then ""
    else if |parts| == 1 then parts[0]
    else parts[0] + [sep] + Join(parts[1..], sep)
  }

  lemma {:induction false} JoinSplit(s: string, sep: char)
    ensures Join(Split(s, sep), sep) == s
  {
    if s != "" {
      JoinSplit(s[1..], sep);
      var rest := Split(s[1..], sep);
      if s[0] == sep {
        assert ([""] + rest)[1..] == rest;
        assert Join([""] + rest, sep) == "" + [sep] + Join(rest, sep);
      } else if |rest| == 1 {
      } else {
        assert ([[s[0]] + rest[0]] + rest[1..])[1..] == rest[1..];
      }
    }
  }

  /** Splitting peels off a first field that does not hold the separator. */
  lemma {:induction false} SplitField(field: string, rest: string, sep: char)
    requires sep !in field
    ensures Split(field + [sep] + rest, sep) == [field] + Split(rest, sep)
  {
    var s := field + [sep] + rest;
    if field == "" {
      assert s[1..] == rest;
    } else {
      assert s[1..] == field[1..] + [sep] + rest;
      SplitField(field[1..], rest, sep);
      assert [field[0]] + field[1..] == field;
    }
  }

  /** The text `part` stands in `text` at index i. */
  predicate At(text: string, i: nat, part: string) {
    i + |part| <= |text| && text[i..i + |part|] == part
  }

  lemma AtAppend(text: string, i: nat, a: string, b: string)
    requires At(text, i, a + b)
    ensures At(text, i, a) && At(text, i + |a|, b)
    ensures i + |a| + |b| <= |text|
  {
    assert text[i..i + |a|] == (a + b)[..|a|];
    assert text[i + |a|..i + |a| + |b|] == (a + b)[|a|..];
  }

  lemma AtChar(text: string, i: nat, part: string, k: nat)
    requires At(text, i, part) && k < |part|
    ensures i + |part| <= |text| && text[i + k] == part[k]
  {
    assert text[i..i + |part|][k] == part[k];
  }

  /** Python's str.replace and Go's strings.ReplaceAll for a one-character pattern. */
  function ReplaceChar(s: string, c: char, sub: string): string {
    if s == "" then "" else (if s[0] == c then sub else [s[0]]) + ReplaceChar(s[1..], c, sub)
  }

  lemma {:induction false} ReplaceCharAppend(a: string, b: string, c: char, sub: string)
    ensures ReplaceChar(a + b, c, sub) == ReplaceChar(a, c, sub) + ReplaceChar(b, c, sub)
  {
    if a == "" {
      assert a + b == b;
    } else {
      assert (a + b)[1..] == a[1..] + b;
      ReplaceCharAppend(a[1..], b, c, sub);
    }
  }

  predicate Contains(s: string, part: string) {
    part <= s || (s != "" && Contains(s[1..], part))
  }
}
