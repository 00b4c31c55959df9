/** The lines of the modem's byte stream, independently of buffers and chunks. */
module AtStream {
  import opened Wrappers

  const MAX_AT_RESPONSE: nat := 8192
  const NUL: char := '\0'

  predicate IsNewline(c: char) { c == '\r' || c == '\n' }

  function Flat(chunks: seq<string>): string {
    if chunks == [] then "" else chunks[0] + Flat(chunks[1..])
  }

  function SkipNewlines(t: string): (r: string)
    ensures |r| <= |t|
  {
    if t != "" && IsNewline(t[0]) then SkipNewlines(t[1..]) else t
  }

  function LineLength(t: string): (n: nat)
    ensures n <= |t|
  {
    if t == "" || IsNewline(t[0]) then 0 else 1 + LineLength(t[1..])
  }

  /** The text up to the first newline, if there is one, and what follows that newline. */
  function Cut(s: string): (r: Option<(string, string)>)
    ensures r.Some? ==> |r.value.1| < |s|
  {
    var n := LineLength(s);
    if n < |s| then Some((s[..n], s[n + 1..])) else None
  }

  /** The first non-empty line that is terminated, and what follows its terminator. */
  function NextLine(t: string): (r: Option<(string, string)>)
    ensures r.Some? ==> |r.value.1| < |t|
  {
    Cut(SkipNewlines(t))
  }

  function Lines(t: string): (lines: seq<string>)
    decreases |t|
  {
    match NextLine(t)
    case None => []
    case Some((line, rest)) => [line] + Lines(rest)
  }

  ghost predicate NoNul(t: string) { forall k :: 0 <= k < |t| ==> t[k] != NUL }

  /** No line starts with the two characters of the SMS prompt. */
  ghost predicate NoPrompt(t: string) {
    forall k :: 0 <= k && k + 1 < |t| && t[k] == '>' && t[k + 1] == ' ' ==> k > 0 && !IsNewline(t[k - 1])
  }

  ghost predicate NewlinesThenLine(t: string, i: nat, m: nat, j: nat) {
    && i <= m <= j <= |t|
    && (forall k :: i <= k < m ==> IsNewline(t[k]))
    && (forall k :: m <= k < j ==> !IsNewline(t[k]))
  }

  /** A line with the newlines before it never fills the buffer. */
  ghost predicate Fits(t: string) {
    forall i: nat, m: nat, j: nat :: NewlinesThenLine(t, i, m, j) ==> j - i < MAX_AT_RESPONSE
  }

  ghost predicate Whole(t: string) { NoNul(t) && Fits(t) }

  ghost predicate Clean(t: string) { Whole(t) && NoPrompt(t) }

  lemma WholeFrom(t: string, k: nat)
    requires Whole(t) && k <= |t|
    ensures Whole(t[k..])
  {
    var u := t[k..];
    forall i: nat, m: nat, j: nat | NewlinesThenLine(u, i, m, j)
      ensures j - i < MAX_AT_RESPONSE
    {
      assert forall x :: k + i <= x < k + m ==> t[x] == u[x - k];
      assert forall x :: k + m <= x < k + j ==> t[x] == u[x - k];
      assert NewlinesThenLine(t, k + i, k + m, k + j);
    }
  }

  lemma CleanFromLineStart(t: string, k: nat)
    requires Clean(t) && k <= |t| && (k == 0 || IsNewline(t[k - 1]))
    ensures Clean(t[k..])
  {
    WholeFrom(t, k);
  }

  lemma {:induction false} SkipIsExact(t: string, k: nat)
    requires k <= |t| && (forall x :: 0 <= x < k ==> IsNewline(t[x])) && (k < |t| ==> !IsNewline(t[k]))
    ensures SkipNewlines(t) == t[k..]
  {
    if k > 0 {
      SkipIsExact(t[1..], k - 1);
    }
  }

  lemma {:induction false} LineLengthIs(s: string, n: nat)
    requires n <= |s| && (forall k :: 0 <= k < n ==> !IsNewline(s[k])) && (n < |s| ==> IsNewline(s[n]))
    ensures LineLength(s) == n
  {
    if n > 0 {
      LineLengthIs(s[1..], n - 1);
    }
  }

  lemma CutIs(s: string, n: nat)
    requires n < |s| && (forall k :: 0 <= k < n ==> !IsNewline(s[k])) && IsNewline(s[n])
    ensures Cut(s) == Some((s[..n], s[n + 1..]))
  {
    LineLengthIs(s, n);
  }

  /** How to read the next line off the stream: newlines up to `i`, then a line up to `j`. */
  lemma NextLineIs(t: string, i: nat, j: nat)
    requires i < j < |t| && NewlinesThenLine(t, 0, i, j) && IsNewline(t[j])
    ensures NextLine(t) == Some((t[i..j], t[j + 1..]))
  {
    var s, n := t[i..], j - i;
    assert s[..n] == t[i..j];
    assert s[n + 1..] == t[j + 1..];
    assert SkipNewlines(t) == s by {
      SkipIsExact(t, i);
    }
    assert Cut(s) == Some((s[..n], s[n + 1..])) by {
      assert s[n] == t[j];
      CutIs(s, n);
    }
  }

  lemma NoNextLine(t: string, i: nat)
    requires NewlinesThenLine(t, 0, i, |t|)
    ensures NextLine(t) == None
  {
    SkipIsExact(t, i);
    LineLengthIs(t[i..], |t| - i);
  }

  lemma SkipSkips(t: string, k: nat)
    requires k <= |t| && forall x :: 0 <= x < k ==> IsNewline(t[x])
    ensures SkipNewlines(t) == SkipNewlines(t[k..])
  {
    if k > 0 {
      assert t[1..][k - 1..] == t[k..];
      SkipSkips(t[1..], k - 1);
    }
  }

  lemma NextLineSkips(t: string, k: nat)
    requires k <= |t| && forall x :: 0 <= x < k ==> IsNewline(t[x])
    ensures NextLine(t) == NextLine(t[k..])
  {
    SkipSkips(t, k);
  }

  lemma LineInData(data: string, more: string, i: nat, j: nat)
    requires i < j < |data| && NewlinesThenLine(data, 0, i, j) && IsNewline(data[j])
    ensures NextLine(data + more) == Some((data[i..j], data[j + 1..] + more))
  {
    var t := data + more;
    assert t[i..j] == data[i..j];
    assert t[j + 1..] == data[j + 1..] + more;
    assert NewlinesThenLine(t, 0, i, j) && t[j] == data[j];
    NextLineIs(t, i, j);
  }

  lemma NextIsClean(t: string)
    requires Clean(t) && NextLine(t).Some?
    ensures Clean(NextLine(t).value.1)
  {
    var s := SkipNewlines(t);
    var n, m := |t| - |s|, LineLength(s);
    SkippedAre(t);
    LengthMeans(s);
    assert s[m + 1..] == t[n + m + 1..] && t[n + m] == s[m];
    CleanFromLineStart(t, n + m + 1);
  }

  lemma {:induction false} SkippedAre(t: string)
    ensures SkipNewlines(t) == t[|t| - |SkipNewlines(t)|..]
  {
    if t != "" && IsNewline(t[0]) {
      SkippedAre(t[1..]);
    }
  }

  lemma {:induction false} LengthMeans(s: string)
    ensures LineLength(s) < |s| ==> IsNewline(s[LineLength(s)])
  {
    if s != "" && !IsNewline(s[0]) {
      LengthMeans(s[1..]);
    }
  }

  // ----- what the modem printed is what the reader gets -----

  ghost predicate ProperLine(line: string) { line != "" && forall k :: 0 <= k < |line| ==> !IsNewline(line[k]) }

  ghost predicate NewlineRun(s: string) { forall k :: 0 <= k < |s| ==> IsNewline(s[k]) }

  /** Every line preceded by any number of newlines and ended by one. */
  function Printed(lines: seq<string>, before: seq<string>, ends: seq<char>, tail: string): string
    requires |lines| == |before| == |ends|
  {
    if lines == [] then tail else before[0] + lines[0] + [ends[0]] + Printed(lines[1..], before[1..], ends[1..], tail)
  }

  lemma FirstPrintedLine(before: string, line: string, end: char, rest: string)
    requires ProperLine(line) && NewlineRun(before) && IsNewline(end)
    ensures NextLine(before + line + [end] + rest) == Some((line, rest))
  {
    var t := before + line + [end] + rest;
    var i, j := |before|, |before| + |line|;
    assert t[j] == end;
    NextLineIs(t, i, j);
    assert t[i..j] == line && t[j + 1..] == rest;
  }

  lemma {:induction false} PrintedLinesAreRead(lines: seq<string>, before: seq<string>, ends: seq<char>, tail: string)
    requires |lines| == |before| == |ends|
    requires forall k :: 0 <= k < |lines| ==> ProperLine(lines[k]) && NewlineRun(before[k]) && IsNewline(ends[k])
    requires NextLine(tail) == None
    ensures Lines(Printed(lines, before, ends, tail)) == lines
  {
    if lines != [] {
      var t := Printed(lines, before, ends, tail);
      var rest := Printed(lines[1..], before[1..], ends[1..], tail);
      FirstPrintedLine(before[0], lines[0], ends[0], rest);
      PrintedLinesAreRead(lines[1..], before[1..], ends[1..], tail);
    }
  }
}
