/** The two preprocessing passes run over the source text before it is
    scanned — blank removal and comment removal — and the stand-alone
    tokenizing loop. */
module LexicalAnalyzer {
  import opened Base
  import opened InputData
  import opened Scanner

  // ----- strings.Replace -----

  /** `pat` occurs in `s` at index `k`. */
  predicate MatchAt(s: string, k: int, pat: string) {
    0 <= k && k + |pat| <= |s| && s[k..k + |pat|] == pat
  }

  /** `strings.Replace(s, pat, rep, -1)`: every occurrence of `pat`,
      found left to right without overlaps, is replaced by `rep`. */
  function Replace(s: string, pat: string, rep: string): (r: string)
    requires |pat| > 0
    decreases |s|
  {
    if |s| < |pat| then s
    else if s[..|pat|] == pat then rep + Replace(s[|pat|..], pat, rep)
    else [s[0]] + Replace(s[1..], pat, rep)
  }

  /** Reference definition of the keyword-delimiting step: the leading
      blank of every occurrence of `pat` becomes `!`, nothing else
      changes. */
  function MarkWord(s: string, pat: string): (r: string)
    ensures |r| == |s|
    ensures forall k :: 0 <= k < |s| ==> r[k] == if MatchAt(s, k, pat) then '!' else s[k]
  {
    seq(|s|, k requires 0 <= k < |s| => if MatchAt(s, k, pat) then '!' else s[k])
  }

  /** A blank followed by a word without blanks, such as ` do`. */
  predicate BlankWord(pat: string) {
    |pat| > 1 && pat[0] == ' ' && forall q :: 1 <= q < |pat| ==> pat[q] != ' '
  }

  /** Reference definition of blank removal: the characters of `s` other
      than the blank, in order. */
  function RemoveBlanks(s: string): (r: string)
    ensures ' ' !in r
    ensures |r| <= |s|
  {
    if |s| == 0 then []
    else if s[0] == ' ' then RemoveBlanks(s[1..])
    else [s[0]] + RemoveBlanks(s[1..])
  }

  /** Occurrences in a suffix are occurrences in the whole, shifted. */
  lemma MatchShift(s: string, d: nat, k: int, pat: string)
    requires d <= |s| && k >= d
    ensures MatchAt(s, k, pat) <==> MatchAt(s[d..], k - d, pat)
  {
    if k + |pat| <= |s| {
      assert s[k..k + |pat|] == s[d..][k - d..k - d + |pat|];
    }
  }

  /** Marking text that is too short for an occurrence changes nothing. */
  lemma MarkShort(s: string, pat: string)
    requires |s| < |pat|
    ensures MarkWord(s, pat) == s
  {
    forall k | 0 <= k < |s| ensures !MatchAt(s, k, pat) { }
  }

  /** Marking text that starts with an occurrence: `!`, the rest of the
      occurrence, then the marking of what follows it. */
  lemma MarkAtMatch(s: string, pat: string)
    requires BlankWord(pat) && |pat| <= |s| && s[..|pat|] == pat
    ensures MarkWord(s, pat) == ['!'] + pat[1..] + MarkWord(s[|pat|..], pat)
  {
    var t := s[|pat|..];
    var lhs := MarkWord(s, pat);
    var rhs := ['!'] + pat[1..] + MarkWord(t, pat);
    forall k | 0 <= k < |s| ensures lhs[k] == rhs[k] {
      if k == 0 {
        assert MatchAt(s, 0, pat);
      } else if k < |pat| {
        assert s[k] == s[..|pat|][k] == pat[k] != ' ';
        assert !MatchAt(s, k, pat);
      } else {
        MatchShift(s, |pat|, k, pat);
      }
    }
  }

  /** Marking text that does not start with an occurrence keeps its
      first character. */
  lemma MarkAtOther(s: string, pat: string)
    requires |s| > 0 && !MatchAt(s, 0, pat)
    ensures MarkWord(s, pat) == [s[0]] + MarkWord(s[1..], pat)
  {
    var lhs := MarkWord(s, pat);
    var rhs := [s[0]] + MarkWord(s[1..], pat);
    forall k | 0 <= k < |s| ensures lhs[k] == rhs[k] {
      if k > 0 {
        MatchShift(s, 1, k, pat);
      }
    }
  }

  /** Replacing ` w` by `!w` (for a word without blanks) is exactly the
      reference marking: every occurrence is found, because two
      occurrences can never overlap. */
  lemma {:induction false} ReplaceMarksWord(s: string, pat: string)
    requires BlankWord(pat)
    ensures Replace(s, pat, ['!'] + pat[1..]) == MarkWord(s, pat)
    decreases |s|
  {
    if |s| < |pat| {
      MarkShort(s, pat);
    } else if s[..|pat|] == pat {
      ReplaceMarksWord(s[|pat|..], pat);
      MarkAtMatch(s, pat);
    } else {
      ReplaceMarksWord(s[1..], pat);
      MarkAtOther(s, pat);
    }
  }

  /** Replacing the blank by the empty string is blank removal. */
  lemma {:induction false} ReplaceRemovesBlanks(s: string)
    ensures Replace(s, " ", "") == RemoveBlanks(s)
    decreases |s|
  {
    if |s| > 0 {
      ReplaceRemovesBlanks(s[1..]);
      if s[0] == ' ' {
        assert s[..1] == " ";
      } else {
        assert s[..1] != " ";
      }
    }
  }

  // ----- EatWhiteSpace -----

  /** `EatWhiteSpace`: ` do` and ` end` become `!do` and `!end`, then
      every blank is deleted. */
  function EatWhiteSpace(s: string): (r: string)
  {
    var s1 := Replace(s, " do", "!do");
    var s2 := Replace(s1, " end", "!end");
    Replace(s2, " ", "")
  }

  /** The pass is blank removal applied after marking `do` and `end`; in
      particular no blank survives, and a blank that delimited `do` or
      `end` survives as `!`, which the scanner skips. */
  lemma EatWhiteSpaceMeaning(s: string)
    ensures EatWhiteSpace(s) == RemoveBlanks(MarkWord(MarkWord(s, " do"), " end"))
    ensures ' ' !in EatWhiteSpace(s)
  {
    assert BlankWord(" do") && ['!'] + " do"[1..] == "!do";
    ReplaceMarksWord(s, " do");
    var s1 := MarkWord(s, " do");
    assert BlankWord(" end") && ['!'] + " end"[1..] == "!end";
    ReplaceMarksWord(s1, " end");
    ReplaceRemovesBlanks(MarkWord(s1, " end"));
  }

  // ----- EatComments -----

  /** A sentinel lies at or after index `i`. */
  predicate SentinelAhead(s: string, i: int) {
    exists k :: 0 <= i <= k < |s| && s[k] == Sentinel
  }

  /** The scan of `EatComments` from index `i`. `open` holds the index
      of the latest `{` while it is not yet closed. On the first `}` after
      it, the span from that `{` to the `}` is cut out and the scan resumes
      where the `{` was. The scan ends at the first sentinel, which must
      lie ahead. */
  function CommentScan(s: string, i: nat, open: Option<nat>): (r: string)
    requires i <= |s| && SentinelAhead(s, i)
    requires open.Some? ==> open.value < i
    ensures |r| <= |s|
    decreases |s| - i
  {
    assert i < |s|;
    if s[i] == Sentinel then s
    else if s[i] == '{' then CommentScan(s, i + 1, Some(i))
    else if s[i] == '}' && open.Some? then
      var m := open.value;
      var t := s[..m] + s[i + 1..];
      assert SentinelAhead(t, m) by {
        var k :| i <= k < |s| && s[k] == Sentinel;
        assert t[k - (i + 1 - m)] == s[k];
      }
      CommentScan(t, m, None)
    else CommentScan(s, i + 1, open)
  }

  /** `EatComments`: the scan from the start, with no comment open. */
  function EatComments(s: string): (r: string)
    requires SentinelAhead(s, 0)
  {
    CommentScan(s, 0, None)
  }

  /** No brace and no sentinel in `s[i..j]`. */
  predicate PlainBetween(s: string, i: int, j: int)
    requires 0 <= i <= j <= |s|
  {
    forall k :: i <= k < j ==> s[k] != '{' && s[k] != '}' && s[k] != Sentinel
  }

  /** Scanning over characters that are neither braces nor the sentinel
      changes nothing. */
  lemma {:induction false} ScanSkips(s: string, i: nat, j: nat, open: Option<nat>)
    requires i <= j <= |s| && SentinelAhead(s, j) && PlainBetween(s, i, j)
    requires open.Some? ==> open.value < i
    ensures SentinelAhead(s, i)
    ensures CommentScan(s, i, open) == CommentScan(s, j, open)
    decreases j - i
  {
    var k :| j <= k < |s| && s[k] == Sentinel;
    assert i <= k;
    if i < j {
      ScanSkips(s, i + 1, j, open);
    }
  }

  /** A comment `{c}` between comment-free text `a` and the rest `b` is
      cut out whole: the result is the one for `a` followed by `b`. */
  lemma CommentRemoved(a: string, c: string, b: string)
    requires PlainBetween(a, 0, |a|) && PlainBetween(c, 0, |c|) && SentinelAhead(b, 0)
    ensures SentinelAhead(a + "{" + c + "}" + b, 0) && SentinelAhead(a + b, 0)
    ensures EatComments(a + "{" + c + "}" + b) == EatComments(a + b)
  {
    var s := a + "{" + c + "}" + b;
    var u := a + b;
    var n := |a| + 1 + |c|;
    var k :| 0 <= k < |b| && b[k] == Sentinel;
    assert s[n + 1 + k] == Sentinel && u[|a| + k] == Sentinel;
    assert PlainBetween(s, 0, |a|) by {
      forall q | 0 <= q < |a| ensures s[q] == a[q] { }
    }
    assert PlainBetween(s, |a| + 1, n) by {
      forall q | |a| + 1 <= q < n ensures s[q] == c[q - |a| - 1] { }
    }
    assert PlainBetween(u, 0, |a|) by {
      forall q | 0 <= q < |a| ensures u[q] == a[q] { }
    }
    assert s[|a|] == '{' && s[n] == '}';
    ScanSkips(s, |a| + 1, n, Some(|a|));
    ScanSkips(s, 0, |a|, None);
    assert s[..|a|] + s[n + 1..] == u;
    ScanSkips(u, 0, |a|, None);
  }

  /** Text without a `{` before the first sentinel is left as it is; in
      particular a `}` that closes nothing is kept. */
  lemma {:induction false} NoOpenBraceUnchanged(s: string, i: nat, k: nat)
    requires i <= k < |s| && s[k] == Sentinel
    requires forall q :: i <= q < k ==> s[q] != '{'
    ensures SentinelAhead(s, i)
    ensures CommentScan(s, i, None) == s
    decreases k - i
  {
    if s[i] != Sentinel {
      NoOpenBraceUnchanged(s, i + 1, k);
    }
  }

  /** The first sentinel at or after `i` is at `k`. */
  predicate FirstSentinel(s: string, i: int, k: int) {
    0 <= i <= k < |s| && s[k] == Sentinel && forall q :: i <= q < k ==> s[q] != Sentinel
  }

  /** `r` ends with `tail`. */
  predicate EndsWith(r: string, tail: string) {
    |tail| <= |r| && r[|r| - |tail|..] == tail
  }

  /** Cutting out a closed comment before the first sentinel moves the
      sentinel and what follows it down, unchanged. */
  lemma CutKeepsTail(s: string, m: nat, i: nat, k: nat)
    requires m < i && FirstSentinel(s, i, k) && s[i] != Sentinel
    ensures var t := s[..m] + s[i + 1..];
            FirstSentinel(t, m, k - (i + 1 - m)) && t[k - (i + 1 - m)..] == s[k..]
  {
    var t := s[..m] + s[i + 1..];
    var d := i + 1 - m;
    assert forall q :: m <= q < |t| ==> t[q] == s[q + d];
    assert t[k - d..] == s[k..];
  }

  /** The scan keeps the first sentinel and everything after it. */
  lemma {:induction false} ScanKeepsTail(s: string, i: nat, open: Option<nat>, k: nat)
    requires FirstSentinel(s, i, k)
    requires open.Some? ==> open.value < i
    ensures SentinelAhead(s, i) && EndsWith(CommentScan(s, i, open), s[k..])
    decreases |s| - i
  {
    assert SentinelAhead(s, i) by { assert s[k] == Sentinel; }
    if s[i] == Sentinel {
      assert i == k;
      assert CommentScan(s, i, open) == s;
    } else if s[i] == '{' {
      ScanKeepsTail(s, i + 1, Some(i), k);
    } else if s[i] == '}' && open.Some? {
      var m := open.value;
      var t := s[..m] + s[i + 1..];
      CutKeepsTail(s, m, i, k);
      ScanKeepsTail(t, m, None, k - (i + 1 - m));
      assert CommentScan(s, i, open) == CommentScan(t, m, None);
    } else {
      ScanKeepsTail(s, i + 1, open, k);
    }
  }

  /** `EatComments` stops at the first sentinel and never removes it or
      anything after it. */
  lemma EatCommentsKeepsTail(s: string, k: nat)
    requires FirstSentinel(s, 0, k)
    ensures SentinelAhead(s, 0) && EndsWith(EatComments(s), s[k..])
  {
    ScanKeepsTail(s, 0, None, k);
  }

  // ----- ParseInput -----

  /** The loop of `ParseInput`: `GetSym` until the current character is
      the sentinel. */
  function Tokenize(st: State): (r: State)
    requires CursorInv(st.cur)
    ensures CursorInv(r.cur) && ScanFrame(st, r)
    ensures r.cur.ch == Sentinel
    ensures st.cur.ch == Sentinel ==> r == st
    decreases Measure(st.cur)
  {
    if st.cur.ch == Sentinel then st else Tokenize(GetSym(st))
  }

  /** `ParseInput`: `Init`, then the token loop. It stops with the
      sentinel read and leaves everything but the scanner's own fields
      and the diagnostics as they were. */
  function ParseInput(st: State): (r: State)
    requires CursorInv(st.cur)
    ensures CursorInv(r.cur) && ScanFrame(st, r) && r.cur.ch == Sentinel
  {
    Tokenize(Init(st))
  }
}
