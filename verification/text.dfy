/**
  Character- and string-level helpers shared by every stage of the pipeline:
  the whitespace set, Python-style `strip`, ASCII case mapping, substring search,
  `str.split(sep)` / `sep.join(parts)`, whitespace tokenisation (`str.split()`),
  slicing prefixes, and decimal printing and parsing of integers.

  Python's own whitespace and case tables are Unicode-wide; this model covers
  their ASCII part, described at `IsSpace`, `UpperChar` and `LowerChar`.
*/
module Text {
  import opened Options

  /** The ASCII characters Python's `str.isspace()` accepts (and so `strip()`, `split()`
      and the regular-expression class `\s`): space; tab, line feed, vertical tab, form
      feed and carriage return (0x09-0x0D); and the four separators FS, GS, RS and US
      (0x1C-0x1F). */
  predicate IsSpace(c: char) {
    c == ' ' || '\t' <= c <= '\r' || '\U{1C}' <= c <= '\U{1F}'
  }

  predicate AllSpace(s: string) {
    forall i :: 0 <= i < |s| ==> IsSpace(s[i])
  }

  predicate NoSpace(s: string) {
    forall i :: 0 <= i < |s| ==> !IsSpace(s[i])
  }

  /** Number of whitespace characters `s` starts with. */
  function LeadingSpace(s: string): (n: nat)
    ensures n <= |s|
    ensures forall i :: 0 <= i < n ==> IsSpace(s[i])
    ensures n < |s| ==> !IsSpace(s[n])
    decreases |s|
  {
    if |s| > 0 && IsSpace(s[0]) then 1 + LeadingSpace(s[1..]) else 0
  }

  /** Number of whitespace characters `s` ends with. */
  function TrailingSpace(s: string): (n: nat)
    ensures n <= |s|
    ensures forall i :: |s| - n <= i < |s| ==> IsSpace(s[i])
    ensures n < |s| ==> !IsSpace(s[|s| - n - 1])
    decreases |s|
  {
    if |s| > 0 && IsSpace(s[|s| - 1]) then 1 + TrailingSpace(s[..|s| - 1]) else 0
  }

  /** Python's `s.lstrip()`: drop the leading whitespace. */
  function LStrip(s: string): string {
    s[LeadingSpace(s)..]
  }

  /** Python's `s.rstrip()`: drop the trailing whitespace. */
  function RStrip(s: string): string {
    s[..|s| - TrailingSpace(s)]
  }

  /** Python's `s.strip()`: drop the leading and the trailing whitespace. The result is
      empty exactly for blank input, and otherwise starts and ends with a non-space
      character; `StripIsMiddle` shows it is the middle of `s`. */
  function Strip(s: string): (r: string)
    ensures |r| <= |s|
    ensures |r| > 0 ==> !IsSpace(r[0]) && !IsSpace(r[|r| - 1])
    ensures r == [] <==> AllSpace(s)
  {
    StripEmptyOnlyIfBlank(s);
    RStrip(LStrip(s))
  }

  /** `strip` cuts only whitespace, from the two ends: its result is `s[a..a + |r|]`
      with blank text on both sides. */
  lemma StripIsMiddle(s: string) returns (a: nat)
    ensures a + |Strip(s)| <= |s| && Strip(s) == s[a..a + |Strip(s)|]
    ensures AllSpace(s[..a]) && AllSpace(s[a + |Strip(s)|..])
  {
    a := LeadingSpace(s);
    var t := s[a..];
    var k := |t| - TrailingSpace(t);
    assert Strip(s) == t[..k] == s[a..a + k];
    var u := s[a + k..];
    assert forall i :: 0 <= i < |u| ==> u[i] == t[k + i];
  }

  lemma StripEmptyOnlyIfBlank(s: string)
    ensures RStrip(LStrip(s)) == [] <==> AllSpace(s)
  {
    var a := LeadingSpace(s);
    var t := s[a..];
    var m := TrailingSpace(t);
    assert forall i :: a <= i < |s| ==> s[i] == t[i - a];
  }

  /** Neither starts nor ends with whitespace. */
  predicate Trimmed(s: string) {
    |s| > 0 ==> !IsSpace(s[0]) && !IsSpace(s[|s| - 1])
  }

  /** A string that already starts and ends with non-space characters is left alone. */
  lemma StripTrimmed(s: string)
    requires Trimmed(s)
    ensures Strip(s) == s
  {
    assert LeadingSpace(s) == 0 && s[0..] == s;
    assert TrailingSpace(s) == 0 && s[..|s|] == s;
  }

  /** The output of `strip` is trimmed, so `strip` is idempotent. */
  lemma StripIdempotent(s: string)
    ensures Trimmed(Strip(s))
    ensures Strip(Strip(s)) == Strip(s)
  {
    StripTrimmed(Strip(s));
  }

  /** `strip` only removes characters. */
  lemma StripKeepsAbsentChar(s: string, c: char)
    requires c !in s
    ensures c !in Strip(s)
  {
    var r := Strip(s);
    var a := StripIsMiddle(s);
    assert forall i :: 0 <= i < |r| ==> r[i] == s[a + i];
  }

  /** Whatever `strip` returns was already in the input. */
  lemma StripKeepsAbsentSubstring(s: string, sub: string)
    requires !Contains(s, sub)
    ensures !Contains(Strip(s), sub)
  {
    var r := Strip(s);
    var a := StripIsMiddle(s);
    SliceKeepsAbsentSubstring(s, a, a + |r|, sub);
  }

  /** A piece of a string that does not contain `sub` does not contain it either. */
  lemma SliceKeepsAbsentSubstring(s: string, a: nat, b: nat, sub: string)
    requires a <= b <= |s| && !Contains(s, sub)
    ensures !Contains(s[a..b], sub)
  {
    var t := s[a..b];
    forall j | 0 <= j <= |t| ensures !OccursAt(t, sub, j) {
      if j + |sub| <= |t| {
        var u, v := t[j..j + |sub|], s[a + j..a + j + |sub|];
        assert forall i :: 0 <= i < |sub| ==> u[i] == v[i];
        assert u == v;
        assert !OccursAt(s, sub, a + j);
      }
    }
  }

  // ---------------------------------------------------------------------------
  // ASCII case mapping
  // ---------------------------------------------------------------------------

  function UpperChar(c: char): char {
    if 'a' <= c <= 'z' then (c as int - 32) as char else c
  }

  function LowerChar(c: char): char {
    if 'A' <= c <= 'Z' then (c as int + 32) as char else c
  }

  /** Python's `s.upper()`, restricted to ASCII letters. */
  function Upper(s: string): (r: string)
    ensures |r| == |s|
    ensures forall i :: 0 <= i < |s| ==> r[i] == UpperChar(s[i])
  {
    seq(|s|, i requires 0 <= i < |s| => UpperChar(s[i]))
  }

  /** Python's `s.lower()`, restricted to ASCII letters. */
  function Lower(s: string): (r: string)
    ensures |r| == |s|
    ensures forall i :: 0 <= i < |s| ==> r[i] == LowerChar(s[i])
  {
    seq(|s|, i requires 0 <= i < |s| => LowerChar(s[i]))
  }

  // ---------------------------------------------------------------------------
  // Substrings, prefixes and Python slices
  // ---------------------------------------------------------------------------

  predicate OccursAt(s: string, sub: string, i: int) {
    0 <= i && i + |sub| <= |s| && s[i..i + |sub|] == sub
  }

  /** Python's `sub in s`. */
  predicate Contains(s: string, sub: string) {
    exists i :: 0 <= i <= |s| && OccursAt(s, sub, i)
  }

  predicate StartsWith(s: string, prefix: string) {
    |prefix| <= |s| && s[..|prefix|] == prefix
  }

  /** Python's slice `s[:n]` for a non-negative `n`. */
  function Take<T>(s: seq<T>, n: nat): (r: seq<T>)
    ensures |r| <= n && |r| <= |s|
    ensures |r| == n || r == s
    ensures r == s[..|r|]
  {
    if n <= |s| then s[..n] else s
  }

  /** The first occurrence of `sub` in `s` at or after position `from`. */
  function Find(s: string, sub: string, from: nat): (r: Option<nat>)
    requires from <= |s|
    ensures r.Some? ==> from <= r.value && OccursAt(s, sub, r.value)
    ensures r.Some? ==> forall j :: from <= j < r.value ==> !OccursAt(s, sub, j)
    ensures r.None? ==> forall j :: from <= j ==> !OccursAt(s, sub, j)
    decreases |s| - from
  {
    if OccursAt(s, sub, from) then Some(from)
    else if from == |s| then None
    else Find(s, sub, from + 1)
  }

  lemma NoOccurrenceInPrefix(s: string, sub: string, i: nat)
    requires i <= |s|
    requires forall j :: 0 <= j < i ==> !OccursAt(s, sub, j)
    requires |sub| > 0
    ensures !Contains(s[..i], sub)
  {
    if Contains(s[..i], sub) {
      var j :| 0 <= j <= i && OccursAt(s[..i], sub, j);
      assert s[..i][j..j + |sub|] == s[j..j + |sub|];
      assert OccursAt(s, sub, j);
    }
  }

  // ---------------------------------------------------------------------------
  // Python's `sep.join(parts)` and `s.split(sep)`
  // ---------------------------------------------------------------------------

  function Join(parts: seq<string>, sep: string): string
    decreases |parts|
  {
    if |parts| == 0 then ""
    else if |parts| == 1 then parts[0]
    else parts[0] + sep + Join(parts[1..], sep)
  }

  /** Python's `s.split(sep)` for a non-empty separator (Python raises on an empty one):
      the pieces between the non-overlapping occurrences of `sep`, found left to right.
      Joining the pieces with `sep` gives `s` back, no piece contains `sep`, and every
      cut is at the leftmost occurrence: the first `sep` in a piece followed by its
      separator is that separator. */
  function Split(s: string, sep: string): (parts: seq<string>)
    requires |sep| > 0
    ensures |parts| >= 1
    ensures Join(parts, sep) == s
    ensures forall i :: 0 <= i < |parts| ==> !Contains(parts[i], sep)
    ensures forall i :: 0 <= i < |parts| - 1 ==> Find(parts[i] + sep, sep, 0) == Some(|parts[i]|)
    decreases |s|
  {
    match Find(s, sep, 0)
    case None =>
      assert s[..|s|] == s;
      NoOccurrenceInPrefix(s, sep, |s|);
      [s]
    case Some(i) =>
      NoOccurrenceInPrefix(s, sep, i);
      FindOfCut(s, sep, i);
      var rest := Split(s[i + |sep|..], sep);
      assert s == s[..i] + sep + s[i + |sep|..];
      PiecesCons(s[..i], rest, sep);
      [s[..i]] + rest
  }

  /** A first piece that holds no separator and ends at the leftmost one keeps the
      per-piece properties of `Split`. */
  lemma PiecesCons(head: string, rest: seq<string>, sep: string)
    requires !Contains(head, sep) && Find(head + sep, sep, 0) == Some(|head|)
    requires forall i :: 0 <= i < |rest| ==> !Contains(rest[i], sep)
    requires forall i :: 0 <= i < |rest| - 1 ==> Find(rest[i] + sep, sep, 0) == Some(|rest[i]|)
    ensures var parts := [head] + rest;
      && (forall i :: 0 <= i < |parts| ==> !Contains(parts[i], sep))
      && (forall i :: 0 <= i < |parts| - 1 ==> Find(parts[i] + sep, sep, 0) == Some(|parts[i]|))
  {
    var parts := [head] + rest;
    assert forall k :: 1 <= k < |parts| ==> parts[k] == rest[k - 1];
  }

  /** The text before the first separator, followed by the separator, has its first
      separator at the same place. */
  lemma FindOfCut(s: string, sep: string, i: nat)
    requires Find(s, sep, 0) == Some(i)
    ensures Find(s[..i] + sep, sep, 0) == Some(i)
  {
    var u := s[..i] + sep;
    assert u == s[..i + |sep|];
    forall j | 0 <= j < i ensures !OccursAt(u, sep, j) {
      assert !OccursAt(s, sep, j);
      assert u[j..j + |sep|] == s[j..j + |sep|];
    }
    assert OccursAt(u, sep, i);
  }

  /** Text that never contains the separator is one piece. */
  lemma SplitWithoutSeparator(s: string, sep: string)
    requires |sep| > 0 && !Contains(s, sep)
    ensures Split(s, sep) == [s]
  {
    match Find(s, sep, 0)
    case None =>
    case Some(i) =>
  }

  lemma SplitWithoutSeparatorIf(s: string, sep: string)
    requires |sep| > 0
    ensures !Contains(s, sep) ==> Split(s, sep) == [s]
  {
    if !Contains(s, sep) {
      SplitWithoutSeparator(s, sep);
    }
  }

  /** Python's `s.split("\n", 1)` as a pair: the text before the first line feed,
      and the text after it when there is one. */
  function SplitFirstLine(s: string): (r: (string, Option<string>))
    ensures r.1.None? <==> '\n' !in s
    ensures r.1.None? ==> r.0 == s
    ensures r.1.Some? ==> s == r.0 + "\n" + r.1.value && '\n' !in r.0
  {
    match Find(s, "\n", 0)
    case None =>
      assert forall j :: 0 <= j < |s| ==> s[j] != '\n' by {
        forall j | 0 <= j < |s| ensures s[j] != '\n' {
          assert !OccursAt(s, "\n", j);
        }
      }
      (s, None)
    case Some(i) =>
      assert forall j :: 0 <= j < i ==> s[j] != '\n' by {
        forall j | 0 <= j < i ensures s[j] != '\n' {
          assert !OccursAt(s, "\n", j);
        }
      }
      assert s == s[..i] + "\n" + s[i + 1..];
      (s[..i], Some(s[i + 1..]))
  }

  // ---------------------------------------------------------------------------
  // Python's `s.split()`: maximal runs of non-space characters
  // ---------------------------------------------------------------------------

  /** Length of the run of non-space characters that `s` starts with. */
  function TokenLength(s: string): (n: nat)
    ensures n <= |s| && NoSpace(s[..n])
    ensures n == |s| || IsSpace(s[n])
    decreases |s|
  {
    if |s| == 0 || IsSpace(s[0]) then 0
    else
      var m := TokenLength(s[1..]);
      assert s[..m + 1] == [s[0]] + s[1..][..m];
      m + 1
  }

  function Words(s: string): (ws: seq<string>)
    ensures forall i :: 0 <= i < |ws| ==> |ws[i]| > 0 && NoSpace(ws[i])
    decreases |s|
  {
    var t := LStrip(s);
    if |t| == 0 then []
    else
      var n := TokenLength(t);
      WordsConsTokens(t[..n], Words(t[n..]));
      [t[..n]] + Words(t[n..])
  }

  /** `s.split()` is empty exactly for blank text. */
  lemma WordsEmptyIffBlank(s: string)
    ensures Words(s) == [] <==> AllSpace(s)
  {
    var t := LStrip(s);
    if |t| > 0 {
      assert TokenLength(t) > 0;
    }
  }

  lemma WordsConsTokens(w: string, ws: seq<string>)
    requires |w| > 0 && NoSpace(w)
    requires forall i :: 0 <= i < |ws| ==> |ws[i]| > 0 && NoSpace(ws[i])
    ensures forall i :: 0 <= i < |[w] + ws| ==> |([w] + ws)[i]| > 0 && NoSpace(([w] + ws)[i])
  {
    var r := [w] + ws;
    assert forall i :: 1 <= i < |r| ==> r[i] == ws[i - 1];
  }

  /** Tokenising words joined by single spaces gives the words back. */
  lemma {:induction false} WordsOfJoin(ws: seq<string>)
    requires forall i :: 0 <= i < |ws| ==> |ws[i]| > 0 && NoSpace(ws[i])
    ensures Words(Join(ws, " ")) == ws
    decreases |ws|
  {
    if |ws| == 0 {
      WordsOfEmpty();
    } else if |ws| == 1 {
      WordsOfWord(ws[0]);
    } else {
      var tl := ws[1..];
      assert forall i :: 0 <= i < |tl| ==> tl[i] == ws[i + 1];
      WordsOfJoin(tl);
      WordsOfJoinMore(ws);
    }
  }

  lemma WordsOfJoinMore(ws: seq<string>)
    requires |ws| > 1 && |ws[0]| > 0 && NoSpace(ws[0])
    requires Words(Join(ws[1..], " ")) == ws[1..]
    ensures Words(Join(ws, " ")) == ws
  {
    WordsOfJoinStep(ws);
    assert ws == [ws[0]] + ws[1..];
  }

  lemma WordsOfEmpty()
    ensures Words("") == []
  {
    assert AllSpace("");
  }

  lemma WordsOfWord(w: string)
    requires |w| > 0 && NoSpace(w)
    ensures Words(w) == [w]
  {
    WordsCons(w, "");
    assert w + "" == w;
    WordsOfEmpty();
  }

  lemma WordsOfJoinStep(ws: seq<string>)
    requires |ws| > 1 && |ws[0]| > 0 && NoSpace(ws[0])
    ensures Words(Join(ws, " ")) == [ws[0]] + Words(Join(ws[1..], " "))
  {
    var rest := Join(ws[1..], " ");
    assert Join(ws, " ") == ws[0] + (" " + rest);
    WordsCons(ws[0], " " + rest);
    WordsLeadingSpace(rest);
  }

  lemma WordsCons(w: string, tail: string)
    requires |w| > 0 && NoSpace(w)
    requires |tail| == 0 || IsSpace(tail[0])
    ensures Words(w + tail) == [w] + Words(tail)
  {
    var s := w + tail;
    assert s[0] == w[0];
    assert LStrip(s) == s[0..] == s;
    TokenLengthOfWord(w, tail);
    assert s[..|w|] == w;
    assert s[|w|..] == tail;
  }

  lemma WordsLeadingSpace(x: string)
    ensures Words(" " + x) == Words(x)
  {
    var y := " " + x;
    assert y[1..] == x;
    assert LeadingSpace(y) == 1 + LeadingSpace(x);
    assert LStrip(y) == y[1..][LeadingSpace(x)..] == LStrip(x);
  }

  lemma TokenLengthOfWord(w: string, tail: string)
    requires |w| > 0 && NoSpace(w)
    requires |tail| == 0 || IsSpace(tail[0])
    ensures TokenLength(w + tail) == |w|
  {
    var s := w + tail;
    var n := TokenLength(s);
    assert forall i :: 0 <= i < |w| ==> s[i] == w[i];
    assert |w| == |s| || s[|w|] == tail[0];
    assert NoSpace(s[..|w|]);
  }

  // ---------------------------------------------------------------------------
  // Decimal integers: Python's `str(n)` for naturals and `int(token)`
  // ---------------------------------------------------------------------------

  predicate IsDigit(c: char) {
    '0' <= c <= '9'
  }

  function DigitChar(d: nat): (c: char)
    requires d < 10
    ensures IsDigit(c) && DigitValue(c) == d
  {
    ('0' as int + d) as char
  }

  function DigitValue(c: char): (d: nat)
    requires IsDigit(c)
    ensures d < 10
  {
    c as int - '0' as int
  }

  /** Python's `str(n)` for a natural number: its decimal digits, without leading zeros. */
  function NatToString(n: nat): (r: string)
    ensures |r| > 0
    ensures forall i :: 0 <= i < |r| ==> IsDigit(r[i])
    ensures |r| > 1 ==> r[0] != '0'
    decreases n
  {
    if n < 10 then [DigitChar(n)] else NatToString(n / 10) + [DigitChar(n % 10)]
  }

  /** Digits, optionally separated by single underscores, starting and ending with a digit
      (the grouping Python's `int()` accepts). */
  predicate DigitGroups(t: string) {
    && |t| > 0
    && IsDigit(t[0]) && IsDigit(t[|t| - 1])
    && (forall i :: 0 <= i < |t| ==> IsDigit(t[i]) || t[i] == '_')
    && (forall i :: 0 <= i < |t| - 1 ==> !(t[i] == '_' && t[i + 1] == '_'))
  }

  /** The value of a string of digits and underscores, read left to right. */
  function DigitsValue(t: string): nat
    requires forall i :: 0 <= i < |t| ==> IsDigit(t[i]) || t[i] == '_'
    decreases |t|
  {
    if |t| == 0 then 0
    else if t[|t| - 1] == '_' then DigitsValue(t[..|t| - 1])
    else DigitsValue(t[..|t| - 1]) * 10 + DigitValue(t[|t| - 1])
  }

  /** Python's `int(token)` on a whitespace-free token: an optional sign followed by
      underscore-grouped ASCII digits; anything else is a parse failure (`None`). */
  function ParseInt(t: string): (r: Option<int>)
    ensures r.Some? ==> |t| > 0
    ensures r.Some? && IsDigit(t[0]) ==> 0 <= r.value
    ensures t == [] ==> r.None?
  {
    if |t| > 0 && (t[0] == '+' || t[0] == '-') then
      var d := t[1..];
      if DigitGroups(d) then
        Some(if t[0] == '-' then -(DigitsValue(d) as int) else DigitsValue(d))
      else None
    else if DigitGroups(t) then Some(DigitsValue(t))
    else None
  }

  lemma {:induction false} DigitsValueOfNat(n: nat)
    ensures DigitsValue(NatToString(n)) == n
    decreases n
  {
    var s := NatToString(n);
    if n < 10 {
      assert s[..|s| - 1] == [];
    } else {
      DigitsValueOfNat(n / 10);
      assert s[..|s| - 1] == NatToString(n / 10);
    }
  }

  /** Printing a natural number and parsing it back gives the number. */
  lemma ParseIntOfNatToString(n: nat)
    ensures ParseInt(NatToString(n)) == Some(n)
  {
    DigitsValueOfNat(n);
  }
}
