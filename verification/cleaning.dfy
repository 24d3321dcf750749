/**
  Text normalisation applied to every loaded document (`clean_text` in chunks.py).
  The three regular-expression substitutions are modelled as left-to-right
  scanners with the leftmost, non-overlapping match semantics of `re.sub`:

    1. `http\S+`  -> ""      (StripUrls)
    2. `\n{3,}`   -> "\n\n"  (CollapseNewlines)
    3. `©.*`      -> ""      (DropCopyright; `.` stops at a line feed)

  followed by `strip()`.  The passes run in that order, so the copyright pass
  can re-open a run of three or more line feeds that the second pass closed
  (see `CleanTextCanLeaveBlankRun`).
*/
module Cleaning {
  import opened Text
  import opened Seqs

  const CopyrightSign: char := '\U{A9}'

  // ---------------------------------------------------------------------------
  // Pass 1: `http\S+`
  // ---------------------------------------------------------------------------

  /** `http\S+` matches at the start of `s`: the letters "http" and at least one
      further non-space character. The greedy `\S+` then runs to the next space,
      so the whole match is `s[..TokenLength(s)]`. */
  predicate UrlAt(s: string) {
    |s| > 4 && s[..4] == "http" && !IsSpace(s[4])
  }

  /** No position of `s` starts a match of `http\S+`. */
  predicate UrlFree(s: string) {
    forall i :: 0 <= i <= |s| ==> !UrlAt(s[i..])
  }

  function StripUrls(s: string): (r: string)
    ensures |r| <= |s|
    decreases |s|
  {
    if |s| == 0 then []
    else if UrlAt(s) then StripUrls(s[TokenLength(s)..])
    else [s[0]] + StripUrls(s[1..])
  }

  /** What follows a removed URL is a space or nothing, so the output of the pass
      starts with a space or is empty. */
  lemma StripUrlsAfterMatch(t: string)
    requires |t| == 0 || IsSpace(t[0])
    ensures |StripUrls(t)| == 0 || IsSpace(StripUrls(t)[0])
  {
  }

  /** A leading run of non-space characters in the output was copied verbatim from
      the start of the input: a removal always leaves a space (or the end) behind. */
  lemma {:induction false} StripUrlsKeepsLeadingWord(t: string, n: nat)
    requires n <= |StripUrls(t)| && NoSpace(StripUrls(t)[..n])
    ensures n <= |t| && t[..n] == StripUrls(t)[..n]
    decreases |t|
  {
    var r := StripUrls(t);
    if n == 0 {
    } else if UrlAt(t) {
      var rest := t[TokenLength(t)..];
      StripUrlsAfterMatch(rest);
    } else {
      LeadingWordTail(t, n);
      StripUrlsKeepsLeadingWord(t[1..], n - 1);
      LeadingWordCons(t, n);
    }
  }

  lemma LeadingWordTail(t: string, n: nat)
    requires 0 < n <= |StripUrls(t)| && |t| > 0 && !UrlAt(t)
    requires NoSpace(StripUrls(t)[..n])
    ensures n - 1 <= |StripUrls(t[1..])| && NoSpace(StripUrls(t[1..])[..n - 1])
  {
    var r' := StripUrls(t[1..]);
    var a, b := StripUrls(t)[..n], r'[..n - 1];
    assert StripUrls(t) == [t[0]] + r';
    assert forall i :: 0 <= i < |b| ==> b[i] == a[i + 1];
  }

  lemma LeadingWordCons(t: string, n: nat)
    requires 0 < n <= |StripUrls(t)| && |t| > 0 && !UrlAt(t)
    requires n - 1 <= |t[1..]| && t[1..][..n - 1] == StripUrls(t[1..])[..n - 1]
    ensures n <= |t| && t[..n] == StripUrls(t)[..n]
  {
    var r' := StripUrls(t[1..]);
    assert StripUrls(t) == [t[0]] + r';
    assert t[..n] == [t[0]] + t[1..][..n - 1];
    assert StripUrls(t)[..n] == [t[0]] + r'[..n - 1];
  }

  /** After the first pass no URL is left: the scan never leaves a match behind,
      not even one assembled from the text around a removed URL. */
  lemma {:induction false} StripUrlsIsUrlFree(s: string)
    ensures UrlFree(StripUrls(s))
    decreases |s|
  {
    var r := StripUrls(s);
    if |s| == 0 {
    } else if UrlAt(s) {
      StripUrlsIsUrlFree(s[TokenLength(s)..]);
    } else {
      var r' := StripUrls(s[1..]);
      assert r == [s[0]] + r';
      StripUrlsIsUrlFree(s[1..]);
      forall i | 0 <= i <= |r| ensures !UrlAt(r[i..]) {
        if i == 0 {
          if UrlAt(r) {
            UrlInOutputComesFromInput(s);
          }
        } else {
          assert r[i..] == r'[i - 1..];
        }
      }
    }
  }

  /** A URL at the head of the output, after a kept first character, was already a
      URL at the head of the input. */
  lemma UrlInOutputComesFromInput(s: string)
    requires |s| > 0 && UrlAt([s[0]] + StripUrls(s[1..]))
    ensures UrlAt(s)
  {
    var r' := StripUrls(s[1..]);
    var r := [s[0]] + r';
    assert r[..5][1..] == r'[..4];
    assert NoSpace(r'[..4]);
    StripUrlsKeepsLeadingWord(s[1..], 4);
    assert s[..4] == [s[0]] + s[1..][..3];
    assert s[..4] == r[..4];
  }

  /** Text without URLs passes through the first pass unchanged. */
  lemma {:induction false} StripUrlsOfUrlFree(s: string)
    requires UrlFree(s)
    ensures StripUrls(s) == s
    decreases |s|
  {
    if |s| > 0 {
      assert s[0..] == s;
      assert UrlFree(s[1..]) by {
        forall i | 0 <= i <= |s[1..]| ensures !UrlAt(s[1..][i..]) {
          assert s[1..][i..] == s[i + 1..];
        }
      }
      StripUrlsOfUrlFree(s[1..]);
    }
  }

  /** The first pass is idempotent. */
  lemma StripUrlsIdempotent(s: string)
    ensures StripUrls(StripUrls(s)) == StripUrls(s)
  {
    StripUrlsIsUrlFree(s);
    StripUrlsOfUrlFree(StripUrls(s));
  }

  /** `re.sub` copies everything before the leftmost match: when no match of
      `http\S+` starts before position `i`, the text before `i` comes out unchanged
      and the scan goes on at `i`. */
  /** A match of `http\S+` starts at position `j` of `s`. */
  predicate UrlStartsAt(s: string, j: nat)
    requires j <= |s|
  {
    UrlAt(s[j..])
  }

  lemma {:induction false} StripUrlsKeepsPrefix(s: string, i: nat)
    requires i <= |s|
    requires forall j :: 0 <= j < i ==> !UrlStartsAt(s, j)
    ensures StripUrls(s) == s[..i] + StripUrls(s[i..])
    decreases i
  {
    if i > 0 {
      NoUrlBeforeTail(s, i);
      StripUrlsKeepsPrefix(s[1..], i - 1);
      StripUrlsStep(s);
      assert s[1..][i - 1..] == s[i..];
      ConsPrefix(s, i, StripUrls(s), StripUrls(s[1..]), StripUrls(s[i..]));
    }
  }

  lemma NoUrlBeforeTail(s: string, i: nat)
    requires 0 < i <= |s|
    requires forall j :: 0 <= j < i ==> !UrlStartsAt(s, j)
    ensures !UrlAt(s) && forall j :: 0 <= j < i - 1 ==> !UrlStartsAt(s[1..], j)
  {
    assert !UrlStartsAt(s, 0) && s[0..] == s;
    forall j | 0 <= j < i - 1 ensures !UrlStartsAt(s[1..], j) {
      assert !UrlStartsAt(s, j + 1);
      assert s[1..][j..] == s[j + 1..];
    }
  }

  /** Where no match starts, the scan copies one character. */
  lemma StripUrlsStep(s: string)
    requires |s| > 0 && !UrlAt(s)
    ensures StripUrls(s) == [s[0]] + StripUrls(s[1..])
  {
  }

  /** The leftmost match, at `i`, is removed whole (up to the next whitespace) and
      the scan resumes right after it; with `StripUrlsOfUrlFree` for text without a
      match this determines the pass on every input. */
  lemma StripUrlsCutsFirstUrl(s: string, i: nat)
    requires i < |s| && UrlStartsAt(s, i)
    requires forall j :: 0 <= j < i ==> !UrlStartsAt(s, j)
    ensures i + TokenLength(s[i..]) <= |s|
    ensures StripUrls(s) == s[..i] + StripUrls(s[i + TokenLength(s[i..])..])
  {
    StripUrlsKeepsPrefix(s, i);
    assert s[i..][TokenLength(s[i..])..] == s[i + TokenLength(s[i..])..];
  }

  // ---------------------------------------------------------------------------
  // Pass 2: `\n{3,}` -> "\n\n"
  // ---------------------------------------------------------------------------

  /** The number of line feeds `s` starts with. */
  function NewlineRun(s: string): (n: nat)
    ensures n <= |s|
    ensures forall i :: 0 <= i < n ==> s[i] == '\n'
    ensures n == |s| || s[n] != '\n'
    decreases |s|
  {
    if |s| > 0 && s[0] == '\n' then 1 + NewlineRun(s[1..]) else 0
  }

  function CollapseNewlines(s: string): (r: string)
    ensures |r| <= |s|
    decreases |s|
  {
    if |s| == 0 then []
    else
      var n := NewlineRun(s);
      if n >= 3 then "\n\n" + CollapseNewlines(s[n..])
      else [s[0]] + CollapseNewlines(s[1..])
  }

  /** The output starts with as many line feeds as the input, capped at two. */
  lemma {:induction false} CollapseLeadingRun(t: string)
    ensures NewlineRun(CollapseNewlines(t)) == if NewlineRun(t) >= 3 then 2 else NewlineRun(t)
    decreases |t|
  {
    var n := NewlineRun(t);
    if |t| == 0 {
    } else if n >= 3 {
      var rest := CollapseNewlines(t[n..]);
      CollapseLeadingRun(t[n..]);
      assert NewlineRun(t[n..]) == 0;
      assert ("\n\n" + rest)[1..] == "\n" + rest;
      assert ("\n" + rest)[1..] == rest;
    } else {
      var rest := CollapseNewlines(t[1..]);
      CollapseLeadingRun(t[1..]);
      assert ([t[0]] + rest)[1..] == rest;
    }
  }

  /** Before the leftmost run of three or more line feeds, the text comes out
      unchanged and the scan goes on at `i`. */
  /** A match of `\n{3,}` starts at position `j` of `s`. */
  predicate RunStartsAt(s: string, j: nat)
    requires j <= |s|
  {
    NewlineRun(s[j..]) >= 3
  }

  lemma {:induction false} CollapseKeepsPrefix(s: string, i: nat)
    requires i <= |s|
    requires forall j :: 0 <= j < i ==> !RunStartsAt(s, j)
    ensures CollapseNewlines(s) == s[..i] + CollapseNewlines(s[i..])
    decreases i
  {
    if i > 0 {
      NoRunBeforeTail(s, i);
      CollapseKeepsPrefix(s[1..], i - 1);
      CollapseStep(s);
      assert s[1..][i - 1..] == s[i..];
      ConsPrefix(s, i, CollapseNewlines(s), CollapseNewlines(s[1..]), CollapseNewlines(s[i..]));
    }
  }

  lemma NoRunBeforeTail(s: string, i: nat)
    requires 0 < i <= |s|
    requires forall j :: 0 <= j < i ==> !RunStartsAt(s, j)
    ensures NewlineRun(s) < 3 && forall j :: 0 <= j < i - 1 ==> !RunStartsAt(s[1..], j)
  {
    assert !RunStartsAt(s, 0) && s[0..] == s;
    forall j | 0 <= j < i - 1 ensures !RunStartsAt(s[1..], j) {
      assert !RunStartsAt(s, j + 1);
      assert s[1..][j..] == s[j + 1..];
    }
  }

  /** Where no run of three line feeds starts, the scan copies one character. */
  lemma CollapseStep(s: string)
    requires |s| > 0 && NewlineRun(s) < 3
    ensures CollapseNewlines(s) == [s[0]] + CollapseNewlines(s[1..])
  {
  }

  /** A run of three or more line feeds is replaced by two. */
  lemma CollapseRunAt(s: string, i: nat)
    requires i <= |s| && RunStartsAt(s, i)
    ensures i + NewlineRun(s[i..]) <= |s|
    ensures CollapseNewlines(s[i..]) == "\n\n" + CollapseNewlines(s[i + NewlineRun(s[i..])..])
  {
    var t := s[i..];
    assert t[NewlineRun(t)..] == s[i + NewlineRun(t)..];
  }

  /** The leftmost run of three or more line feeds, at `i`, is replaced whole by two
      line feeds and the scan resumes after the run. */
  lemma CollapseCutsFirstRun(s: string, i: nat)
    requires i <= |s| && RunStartsAt(s, i)
    requires forall j :: 0 <= j < i ==> !RunStartsAt(s, j)
    ensures CollapseNewlines(s) == s[..i] + "\n\n" + CollapseNewlines(s[i + NewlineRun(s[i..])..])
  {
    CollapseKeepsPrefix(s, i);
    CollapseRunAt(s, i);
    AppendAssoc(s[..i], "\n\n", CollapseNewlines(s[i + NewlineRun(s[i..])..]));
  }

  /** No position of `s` starts a run of three or more line feeds. */
  predicate NoBlankRun(s: string) {
    forall i :: 0 <= i <= |s| ==> NewlineRun(s[i..]) <= 2
  }

  /** After the second pass no run of three or more line feeds is left. */
  lemma {:induction false} CollapseNewlinesHasNoBlankRun(s: string)
    ensures NoBlankRun(CollapseNewlines(s))
    ensures !Contains(CollapseNewlines(s), "\n\n\n")
    decreases |s|
  {
    var r := CollapseNewlines(s);
    var n := NewlineRun(s);
    CollapseLeadingRun(s);
    if |s| == 0 {
    } else if n >= 3 {
      var rest := CollapseNewlines(s[n..]);
      CollapseNewlinesHasNoBlankRun(s[n..]);
      CollapseLeadingRun(s[n..]);
      forall i | 0 <= i <= |r| ensures NewlineRun(r[i..]) <= 2 {
        if i == 0 {
        } else if i == 1 {
          assert r[1..] == "\n" + rest;
          assert ("\n" + rest)[1..] == rest;
        } else {
          assert r[i..] == rest[i - 2..];
        }
      }
    } else {
      var rest := CollapseNewlines(s[1..]);
      CollapseNewlinesHasNoBlankRun(s[1..]);
      forall i | 0 <= i <= |r| ensures NewlineRun(r[i..]) <= 2 {
        if i > 0 {
          assert r[i..] == rest[i - 1..];
        }
      }
    }
    NoBlankRunExcludesTriple(r);
  }

  lemma NoBlankRunExcludesTriple(r: string)
    requires NoBlankRun(r)
    ensures !Contains(r, "\n\n\n")
  {
    forall i | 0 <= i <= |r| ensures !OccursAt(r, "\n\n\n", i) {
      TripleStartsRun(r, i);
    }
  }

  /** Three line feeds at `i` start a run of at least three. */
  lemma TripleStartsRun(r: string, i: nat)
    requires i <= |r|
    ensures OccursAt(r, "\n\n\n", i) ==> NewlineRun(r[i..]) >= 3
  {
    if i + 3 <= |r| {
      var t := r[i..];
      assert r[i..i + 3] == t[..3];
      var u := t[1..];
      var v := u[1..];
      assert t[..3] == [t[0], u[0], v[0]];
    }
  }

  // ---------------------------------------------------------------------------
  // Pass 3: `©.*` -> ""
  // ---------------------------------------------------------------------------

  /** Length of the first line of `s` (up to, not including, the first line feed). */
  function LineLength(s: string): (n: nat)
    ensures n <= |s|
    ensures forall i :: 0 <= i < n ==> s[i] != '\n'
    ensures n == |s| || s[n] == '\n'
    decreases |s|
  {
    if |s| == 0 || s[0] == '\n' then 0 else 1 + LineLength(s[1..])
  }

  function DropCopyright(s: string): (r: string)
    ensures CopyrightSign !in r
    ensures |r| <= |s|
    decreases |s|
  {
    if |s| == 0 then []
    else if s[0] == CopyrightSign then DropCopyright(s[LineLength(s)..])
    else [s[0]] + DropCopyright(s[1..])
  }

  /** Before the first copyright sign, the text comes out unchanged. */
  lemma {:induction false} DropCopyrightKeepsPrefix(s: string, i: nat)
    requires i <= |s| && CopyrightSign !in s[..i]
    ensures DropCopyright(s) == s[..i] + DropCopyright(s[i..])
    decreases i
  {
    if i > 0 {
      assert s[0] == s[..i][0];
      assert s[1..][..i - 1] == s[..i][1..];
      assert CopyrightSign !in s[..i][1..] by {
        assert forall k :: 0 <= k < i - 1 ==> s[..i][1..][k] == s[..i][k + 1];
      }
      DropCopyrightKeepsPrefix(s[1..], i - 1);
      assert s[..i] == [s[0]] + s[1..][..i - 1];
      assert s[1..][i - 1..] == s[i..];
    }
  }

  /** The first copyright sign, at `i`, is removed with the rest of its line (the line
      feed stays) and the scan resumes there; with `DropCopyrightOfPlain` for text
      without the sign this determines the pass on every input. */
  lemma DropCopyrightCutsFirstSign(s: string, i: nat)
    requires i < |s| && s[i] == CopyrightSign && CopyrightSign !in s[..i]
    ensures i + LineLength(s[i..]) <= |s|
    ensures DropCopyright(s) == s[..i] + DropCopyright(s[i + LineLength(s[i..])..])
  {
    DropCopyrightKeepsPrefix(s, i);
    assert s[i..][LineLength(s[i..])..] == s[i + LineLength(s[i..])..];
  }

  /** The copyright pass only deletes characters, and never a line feed: the
      output is a subsequence of the input with the same line structure. */
  lemma {:induction false} DropCopyrightKeepsLines(s: string)
    ensures IsSubseq(DropCopyright(s), s)
    ensures multiset(DropCopyright(s))['\n'] == multiset(s)['\n']
  {
    DropCopyrightIsSubseq(s);
    DropCopyrightKeepsLineFeeds(s);
  }

  lemma {:induction false} DropCopyrightIsSubseq(s: string)
    ensures IsSubseq(DropCopyright(s), s)
    decreases |s|
  {
    if |s| == 0 {
    } else if s[0] == CopyrightSign {
      var n := LineLength(s);
      DropCopyrightIsSubseq(s[n..]);
      IsSubseqOfSuffix(DropCopyright(s[n..]), s, n);
    } else {
      DropCopyrightIsSubseq(s[1..]);
      assert ([s[0]] + DropCopyright(s[1..]))[1..] == DropCopyright(s[1..]);
    }
  }

  lemma {:induction false} DropCopyrightKeepsLineFeeds(s: string)
    ensures multiset(DropCopyright(s))['\n'] == multiset(s)['\n']
    decreases |s|
  {
    if |s| == 0 {
    } else if s[0] == CopyrightSign {
      var n := LineLength(s);
      DropCopyrightKeepsLineFeeds(s[n..]);
      assert s == s[..n] + s[n..];
      assert multiset(s) == multiset(s[..n]) + multiset(s[n..]);
      assert '\n' !in s[..n];
    } else {
      DropCopyrightKeepsLineFeeds(s[1..]);
      assert s == [s[0]] + s[1..];
      assert multiset(s) == multiset([s[0]]) + multiset(s[1..]);
      var r := DropCopyright(s[1..]);
      assert multiset([s[0]] + r) == multiset([s[0]]) + multiset(r);
    }
  }

  // ---------------------------------------------------------------------------
  // The later passes keep URL-free text URL-free and leave clean text alone
  // ---------------------------------------------------------------------------

  lemma UrlFreeSuffix(s: string, k: nat)
    requires k <= |s| && UrlFree(s)
    ensures UrlFree(s[k..])
  {
    forall i | 0 <= i <= |s[k..]| ensures !UrlAt(s[k..][i..]) {
      assert s[k..][i..] == s[k + i..];
    }
  }

  /** Cutting a piece out of URL-free text cannot make a URL. */
  lemma UrlFreeSlice(s: string, a: nat, b: nat)
    requires a <= b <= |s| && UrlFree(s)
    ensures UrlFree(s[a..b])
  {
    var t := s[a..b];
    forall i | 0 <= i <= |t| ensures !UrlAt(t[i..]) {
      UrlAtInSlice(s, a, b, i);
    }
  }

  lemma UrlAtInSlice(s: string, a: nat, b: nat, i: nat)
    requires a <= b <= |s| && i <= b - a
    ensures UrlAt(s[a..b][i..]) ==> UrlAt(s[a + i..])
  {
    if i + 5 <= b - a {
      assert s[a..b][i..][..5] == s[a + i..][..5];
    }
  }

  /** `strip` never creates a URL. */
  lemma StripKeepsUrlFree(s: string)
    requires UrlFree(s)
    ensures UrlFree(Strip(s))
  {
    var a := StripIsMiddle(s);
    UrlFreeSlice(s, a, a + |Strip(s)|);
  }

  /** A URL at the head of `r`, whose first five characters are those of `s`, is a URL
      at the head of `s`. */
  lemma UrlAtHead(s: string, r: string)
    requires UrlAt(r) && |s| >= 5 && s[0] == r[0] && s[1..5] == r[1..5]
    ensures UrlAt(s)
  {
    assert s[..4] == [s[0]] + s[1..4] && r[..4] == [r[0]] + r[1..4];
    assert s[1..4] == s[1..5][..3] && r[1..4] == r[1..5][..3];
    assert s[4] == s[1..5][3] && r[4] == r[1..5][3];
  }

  /** A word at the head of `r == [c] + r'` goes on in `r'`. */
  lemma WordTail(r: string, r': string, n: nat)
    requires 0 < n <= |r| && |r'| == |r| - 1 && r[1..] == r' && NoSpace(r[..n])
    ensures n - 1 <= |r'| && NoSpace(r'[..n - 1])
  {
    var w, v := r'[..n - 1], r[..n];
    forall i | 0 <= i < |w| ensures !IsSpace(w[i]) {
      assert w[i] == v[i + 1];
    }
  }

  /** Output and input agree on their first character and on the next `n - 1`. */
  lemma WordCons(t: string, r: string, n: nat)
    requires 0 < n <= |r| && n <= |t| && t[0] == r[0] && t[1..][..n - 1] == r[1..][..n - 1]
    ensures t[..n] == r[..n]
  {
    assert t[..n] == [t[0]] + t[1..][..n - 1];
    assert r[..n] == [r[0]] + r[1..][..n - 1];
  }

  /** A URL that would start at the head of `[s[0]] + rest`, where the first four
      characters of `rest` come from `s[1..]` whenever they are non-space, was already a
      URL at the head of `s`. */
  lemma UrlAfterKeptChar(s: string, rest: string)
    requires |s| > 0
    requires 4 <= |rest| && NoSpace(rest[..4]) ==> 4 <= |s[1..]| && s[1..][..4] == rest[..4]
    ensures UrlAt([s[0]] + rest) ==> UrlAt(s)
  {
    var r := [s[0]] + rest;
    if UrlAt(r) {
      assert r[1..5] == rest[..4];
      forall i | 0 <= i < 4 ensures !IsSpace(rest[..4][i]) {
        assert rest[..4][i] == r[..5][i + 1];
      }
      UrlAtHead(s, r);
    }
  }

  /** The leading word of the line-feed pass's output was copied from its input. */
  lemma {:induction false} CollapseKeepsLeadingWord(t: string, n: nat)
    requires n <= |CollapseNewlines(t)|
    ensures NoSpace(CollapseNewlines(t)[..n]) ==> n <= |t| && t[..n] == CollapseNewlines(t)[..n]
    decreases |t|
  {
    var r := CollapseNewlines(t);
    if n > 0 {
      if NewlineRun(t) >= 3 {
        assert r[..n][0] == '\n';
      } else if NoSpace(r[..n]) {
        var r' := CollapseNewlines(t[1..]);
        assert r == [t[0]] + r';
        WordTail(r, r', n);
        CollapseKeepsLeadingWord(t[1..], n - 1);
        WordCons(t, r, n);
      }
    }
  }

  /** The line-feed pass never creates a URL. */
  lemma {:induction false} CollapseKeepsUrlFree(s: string)
    requires UrlFree(s)
    ensures UrlFree(CollapseNewlines(s))
    decreases |s|
  {
    var r := CollapseNewlines(s);
    var n := NewlineRun(s);
    if |s| == 0 {
    } else if n >= 3 {
      var rest := CollapseNewlines(s[n..]);
      UrlFreeSuffix(s, n);
      CollapseKeepsUrlFree(s[n..]);
      forall i | 0 <= i <= |r| ensures !UrlAt(r[i..]) {
        if i >= 2 {
          assert r[i..] == rest[i - 2..];
        } else {
          assert r[i..][0] == '\n';
        }
      }
    } else {
      var rest := CollapseNewlines(s[1..]);
      assert r == [s[0]] + rest;
      UrlFreeSuffix(s, 1);
      CollapseKeepsUrlFree(s[1..]);
      forall i | 0 <= i <= |r| ensures !UrlAt(r[i..]) {
        if i == 0 {
          if 4 <= |rest| {
            CollapseKeepsLeadingWord(s[1..], 4);
          }
          UrlAfterKeptChar(s, rest);
          assert s[0..] == s;
        } else {
          assert r[i..] == rest[i - 1..];
        }
      }
    }
  }

  /** Dropping a copyright notice leaves a line feed, or nothing, behind. */
  lemma DropCopyrightAtLineEnd(u: string)
    requires |u| == 0 || u[0] == '\n'
    ensures |DropCopyright(u)| == 0 || DropCopyright(u)[0] == '\n'
  {
  }

  /** The leading word of the copyright pass's output was copied from its input. */
  lemma {:induction false} DropCopyrightKeepsLeadingWord(t: string, n: nat)
    requires n <= |DropCopyright(t)|
    ensures NoSpace(DropCopyright(t)[..n]) ==> n <= |t| && t[..n] == DropCopyright(t)[..n]
    decreases |t|
  {
    var r := DropCopyright(t);
    if n > 0 {
      if t[0] == CopyrightSign {
        DropCopyrightAtLineEnd(t[LineLength(t)..]);
        assert r[..n][0] == r[0];
      } else if NoSpace(r[..n]) {
        var r' := DropCopyright(t[1..]);
        assert r == [t[0]] + r';
        WordTail(r, r', n);
        DropCopyrightKeepsLeadingWord(t[1..], n - 1);
        WordCons(t, r, n);
      }
    }
  }

  /** The copyright pass never creates a URL. */
  lemma {:induction false} DropCopyrightKeepsUrlFree(s: string)
    requires UrlFree(s)
    ensures UrlFree(DropCopyright(s))
    decreases |s|
  {
    var r := DropCopyright(s);
    if |s| == 0 {
    } else if s[0] == CopyrightSign {
      UrlFreeSuffix(s, LineLength(s));
      DropCopyrightKeepsUrlFree(s[LineLength(s)..]);
    } else {
      var rest := DropCopyright(s[1..]);
      assert r == [s[0]] + rest;
      UrlFreeSuffix(s, 1);
      DropCopyrightKeepsUrlFree(s[1..]);
      forall i | 0 <= i <= |r| ensures !UrlAt(r[i..]) {
        if i == 0 {
          if 4 <= |rest| {
            DropCopyrightKeepsLeadingWord(s[1..], 4);
          }
          UrlAfterKeptChar(s, rest);
          assert s[0..] == s;
        } else {
          assert r[i..] == rest[i - 1..];
        }
      }
    }
  }

  /** Text without a copyright sign passes the third pass unchanged. */
  lemma {:induction false} DropCopyrightOfPlain(s: string)
    requires CopyrightSign !in s
    ensures DropCopyright(s) == s
    decreases |s|
  {
    if |s| > 0 {
      assert s[0] in s;
      assert CopyrightSign !in s[1..] by {
        assert forall i :: 0 <= i < |s[1..]| ==> s[1..][i] == s[i + 1];
      }
      DropCopyrightOfPlain(s[1..]);
    }
  }

  /** Text without a run of three line feeds passes the second pass unchanged. */
  lemma {:induction false} CollapseOfNoBlankRun(s: string)
    requires NoBlankRun(s)
    ensures CollapseNewlines(s) == s
    decreases |s|
  {
    if |s| > 0 {
      assert s[0..] == s;
      assert NoBlankRun(s[1..]) by {
        forall i | 0 <= i <= |s[1..]| ensures NewlineRun(s[1..][i..]) <= 2 {
          assert s[1..][i..] == s[i + 1..];
        }
      }
      CollapseOfNoBlankRun(s[1..]);
    }
  }

  // ---------------------------------------------------------------------------
  // clean_text
  // ---------------------------------------------------------------------------

  function CleanText(s: string): (r: string)
    ensures |r| > 0 ==> !IsSpace(r[0]) && !IsSpace(r[|r| - 1])
    ensures CopyrightSign !in r
    ensures UrlFree(r)
    ensures s == [] ==> r == []
    ensures |r| <= |s|
  {
    var u := StripUrls(s);
    var c := CollapseNewlines(u);
    var t := DropCopyright(c);
    StripUrlsIsUrlFree(s);
    CollapseKeepsUrlFree(u);
    DropCopyrightKeepsUrlFree(c);
    StripKeepsUrlFree(t);
    StripKeepsAbsentChar(t, CopyrightSign);
    Strip(t)
  }

  /** Text that is already clean (no URL, no run of three line feeds, no copyright sign)
      is only stripped. */
  lemma CleanTextOfClean(s: string)
    requires UrlFree(s) && NoBlankRun(s) && CopyrightSign !in s
    ensures CleanText(s) == Strip(s)
  {
    StripUrlsOfUrlFree(s);
    CollapseOfNoBlankRun(s);
    DropCopyrightOfPlain(s);
  }

  /** The copyright pass runs after the line-feed pass, so a copyright notice on a
      line of its own before a blank line leaves three line feeds in a row. */
  lemma CleanTextCanLeaveBlankRun()
    ensures CleanText("a\n\U{A9}\n\nb") == "a\n\n\nb"
    ensures Contains(CleanText("a\n\U{A9}\n\nb"), "\n\n\n")
  {
    var s := "a\n\U{A9}\n\nb";
    var t := "a\n\n\nb";
    calc {
      CleanText(s);
      Strip(DropCopyright(CollapseNewlines(StripUrls(s))));
      { NoUrlWithoutH(s); StripUrlsOfUrlFree(s); }
      Strip(DropCopyright(CollapseNewlines(s)));
      { CollapseExample(); }
      Strip(DropCopyright(s));
      { DropCopyrightExample(); }
      Strip(t);
      { StripTrimmed(t); }
      t;
    }
    TripleNewlineExample();
  }

  lemma TripleNewlineExample()
    ensures OccursAt("a\n\n\nb", "\n\n\n", 1)
  {
  }

  lemma CollapseExample()
    ensures CollapseNewlines("a\n\U{A9}\n\nb") == "a\n\U{A9}\n\nb"
  {
    var s := "a\n\U{A9}\n\nb";
    assert CollapseNewlines(s[5..]) == s[5..];
    assert CollapseNewlines(s[4..]) == s[4..];
    assert CollapseNewlines(s[3..]) == s[3..];
    assert CollapseNewlines(s[2..]) == s[2..];
    assert CollapseNewlines(s[1..]) == s[1..];
  }

  lemma DropCopyrightExample()
    ensures DropCopyright("a\n\U{A9}\n\nb") == "a\n\n\nb"
  {
    var s := "a\n\U{A9}\n\nb";
    assert DropCopyright(s[5..]) == s[5..];
    assert DropCopyright(s[4..]) == s[4..];
    assert DropCopyright(s[3..]) == s[3..];
    assert LineLength(s[2..]) == 1;
    assert s[2..][1..] == s[3..];
    assert DropCopyright(s[2..]) == s[3..];
    assert DropCopyright(s[1..]) == [s[1]] + s[3..];
    assert s[3..] == "\n\nb";
    assert [s[0], s[1]] == "a\n";
    assert DropCopyright(s) == "a\n" + "\n\nb";
  }

  /** Text without the letter h holds no URL. */
  lemma NoUrlWithoutH(s: string)
    requires 'h' !in s
    ensures UrlFree(s)
  {
    forall i | 0 <= i <= |s| ensures !UrlAt(s[i..]) {
      if |s[i..]| > 0 {
        assert s[i..][0] == s[i];
      }
    }
  }
}
