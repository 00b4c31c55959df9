/** What the modem prints is what is read, told by characters: nothing here but the proofs speaks of newlines,
    lines or clean streams as the reader's own specification does. */
module AtPrinted {
  import opened Wrappers
  import opened AtStream
  import opened AtFraming

  /** Text without carriage returns, line feeds and NULs, which does not begin like an SMS prompt. */
  predicate Text(s: string) {
    && (forall k :: 0 <= k < |s| ==> s[k] != '\r' && s[k] != '\n' && s[k] != '\0')
    && !(|s| >= 2 && s[0] == '>' && s[1] == ' ')
  }

  predicate ReturnsAndFeeds(s: string) { forall k :: 0 <= k < |s| ==> s[k] == '\r' || s[k] == '\n' }

  /** Each line is ended by a run of carriage returns and line feeds; `gap` comes before the first, and `tail`
      is the start of a line that is not ended. */
  function Stream(gap: string, lines: seq<string>, ends: seq<string>, tail: string): (t: string)
    requires |lines| == |ends|
    decreases |lines|
  {
    if lines == [] then gap + tail else gap + lines[0] + Stream(ends[0], lines[1..], ends[1..], tail)
  }

  /** Each line and the run before it are shorter than the buffer. */
  predicate AllFit(gap: string, lines: seq<string>, ends: seq<string>, tail: string)
    requires |lines| == |ends|
    decreases |lines|
  {
    if lines == [] then |gap| + |tail| < 8192 else |gap| + |lines[0]| < 8192 && AllFit(ends[0], lines[1..], ends[1..], tail)
  }

  predicate Printable(gap: string, lines: seq<string>, ends: seq<string>, tail: string) {
    && |lines| == |ends| && ReturnsAndFeeds(gap) && Text(tail) && AllFit(gap, lines, ends, tail)
    && forall k :: 0 <= k < |lines| ==> lines[k] != "" && Text(lines[k]) && ends[k] != "" && ReturnsAndFeeds(ends[k])
  }

  lemma NextPrintable(gap: string, lines: seq<string>, ends: seq<string>, tail: string)
    requires Printable(gap, lines, ends, tail) && lines != []
    ensures Printable(ends[0], lines[1..], ends[1..], tail)
    ensures Printable(ends[0][1..], lines[1..], ends[1..], tail)
    ensures Stream(ends[0], lines[1..], ends[1..], tail) == [ends[0][0]] + Stream(ends[0][1..], lines[1..], ends[1..], tail)
  {
  }

  /** A window of newlines and then a line cannot reach from one line into the next. */
  lemma WindowFits(gap: string, line: string, rest: string, i: nat, m: nat, j: nat)
    requires ReturnsAndFeeds(gap) && Text(line) && line != "" && |gap| + |line| < 8192
    requires rest != "" && (rest[0] == '\r' || rest[0] == '\n') && Fits(rest)
    requires NewlinesThenLine(gap + line + rest, i, m, j)
    ensures j - i < MAX_AT_RESPONSE
  {
    var t, n := gap + line + rest, |gap| + |line|;
    assert t[n..] == rest && t[n] == rest[0] && t[n - 1] == line[|line| - 1];
    if i >= n {
      assert forall k :: 0 <= k < |rest| ==> t[n + k] == rest[k];
      assert NewlinesThenLine(rest, i - n, m - n, j - n);
    } else if j > n {
      assert false;
    }
  }

  lemma LineFits(gap: string, line: string, rest: string)
    requires ReturnsAndFeeds(gap) && Text(line) && line != "" && |gap| + |line| < 8192
    requires rest != "" && (rest[0] == '\r' || rest[0] == '\n') && Fits(rest)
    ensures Fits(gap + line + rest)
  {
    forall i: nat, m: nat, j: nat | NewlinesThenLine(gap + line + rest, i, m, j)
      ensures j - i < MAX_AT_RESPONSE
    {
      WindowFits(gap, line, rest, i, m, j);
    }
  }

  lemma LineHasNoPrompt(gap: string, line: string, rest: string)
    requires ReturnsAndFeeds(gap) && Text(line)
    requires rest == "" || rest[0] == '\r' || rest[0] == '\n'
    requires NoPrompt(rest)
    ensures NoPrompt(gap + line + rest)
  {
    var t, n := gap + line + rest, |gap| + |line|;
    forall k | 0 <= k && k + 1 < |t| && t[k] == '>' && t[k + 1] == ' '
      ensures k > 0 && !IsNewline(t[k - 1])
    {
      if k >= n {
        assert t[k] == rest[k - n] && t[k + 1] == rest[k + 1 - n];
        assert t[k - 1] == rest[k - n - 1];
      } else if k == |gap| {
        assert false;
      } else {
        assert k > |gap|;
        assert t[k - 1] == line[k - 1 - |gap|];
      }
    }
  }

  lemma {:induction false} StreamIsClean(gap: string, lines: seq<string>, ends: seq<string>, tail: string)
    requires Printable(gap, lines, ends, tail)
    ensures Clean(Stream(gap, lines, ends, tail))
    decreases |lines|
  {
    if lines == [] {
      LineHasNoPrompt(gap, tail, "");
      assert gap + tail + "" == gap + tail;
    } else {
      var rest := Stream(ends[0], lines[1..], ends[1..], tail);
      NextPrintable(gap, lines, ends, tail);
      StreamIsClean(ends[0], lines[1..], ends[1..], tail);
      LineFits(gap, lines[0], rest);
      LineHasNoPrompt(gap, lines[0], rest);
    }
  }

  lemma {:induction false} StreamHasLines(gap: string, lines: seq<string>, ends: seq<string>, tail: string)
    requires Printable(gap, lines, ends, tail)
    ensures Lines(Stream(gap, lines, ends, tail)) == lines
    decreases |lines|
  {
    if lines == [] {
      NoNextLine(gap + tail, |gap|);
    } else {
      NextPrintable(gap, lines, ends, tail);
      var rest := Stream(ends[0][1..], lines[1..], ends[1..], tail);
      FirstPrintedLine(gap, lines[0], ends[0][0], rest);
      assert Stream(gap, lines, ends, tail) == gap + lines[0] + [ends[0][0]] + rest;
      StreamHasLines(ends[0][1..], lines[1..], ends[1..], tail);
    }
  }

  lemma NothingIsPending(chunks: seq<string>)
    requires "" !in chunks
    ensures Pending(Unused(), chunks) == Flat(chunks)
  {
    assert End(Unused()) == 0;
    assert Data(Unused()) == "";
  }

  /** Any non-empty lines, each ended by any run of carriage returns and line feeds, are exactly the lines that
      readline() returns, in whatever chunks the bytes arrive; the rest of the stream, without an end, is not
      returned. */
  lemma PrintedLinesAreReturned(gap: string, lines: seq<string>, ends: seq<string>, tail: string, chunks: seq<string>)
    requires Printable(gap, lines, ends, tail)
    requires "" !in chunks && Flat(chunks) == Stream(gap, lines, ends, tail)
    ensures ReadAll(Unused(), chunks) == (lines, false)
  {
    StreamIsClean(gap, lines, ends, tail);
    StreamHasLines(gap, lines, ends, tail);
    NothingIsPending(chunks);
    CleanLinesAreRead(Unused(), chunks);
  }

  // ----- what does not fit -----

  predicate Endless(x: string) { |x| == 8192 && forall k :: 0 <= k < |x| ==> x[k] != '\r' && x[k] != '\n' && x[k] != '\0' }

  lemma FullBuffer(b: Buf, x: string)
    requires Sound(b) && Endless(x) && b.cur == 0 && b.mem[..8192] == x
    ensures Skipped(b) == b && NextEol(b) == None
  {
    assert forall k :: 0 <= k < 8192 ==> b.mem[k] == b.mem[..8192][k];
    assert SkipFrom(b.mem, 0) == 0;
    FirstNulIs(b.mem, 0, 8192);
    NoEolMeans(b);
  }

  lemma StoredWhole(x: string)
    requires Endless(x)
    ensures Stored(Emptied(Unused()), 0, x).mem[..8192] == x
  {
  }

  /** The read that fills the buffer. */
  lemma FillsUp(x: string, chunks: seq<string>)
    requires Endless(x) && "" !in chunks
    ensures "" !in [x] + chunks && Look(Unused(), [x] + chunks) == Fill(Emptied(Stored(Emptied(Unused()), 0, x)), 0, chunks)
  {
    var b, input := Stored(Emptied(Unused()), 0, x), [x] + chunks;
    StoredWhole(x);
    FullBuffer(b, x);
    assert input[1..] == chunks && x in input;
    FillGoesOn(Emptied(Unused()), 0, input);
  }

  lemma EmptyLooks(b: Buf, chunks: seq<string>)
    requires Sound(b) && "" !in chunks
    ensures Look(Emptied(b), chunks) == Fill(Emptied(b), 0, chunks)
  {
    assert Emptied(Emptied(b)) == Emptied(b);
  }

  /** A read that fills the buffer without an end of a line in it is lost, and what comes behind is read as if
      it had never been there. */
  lemma OverlongIsLost(x: string, chunks: seq<string>)
    requires Endless(x) && "" !in chunks && Clean(Flat(chunks))
    ensures "" !in [x] + chunks && ReadAll(Unused(), [x] + chunks) == (Lines(Flat(chunks)), false)
  {
    var b := Stored(Emptied(Unused()), 0, x);
    FillsUp(x, chunks);
    EmptyLooks(b, chunks);
    ReadCuts(Unused(), [x] + chunks);
    ReadCuts(Emptied(b), chunks);
    EmptyHasNothing(b, chunks);
    CleanLinesAreRead(Emptied(b), chunks);
  }

  lemma EmptyHasNothing(b: Buf, chunks: seq<string>)
    requires Sound(b) && "" !in chunks
    ensures Pending(Emptied(b), chunks) == Flat(chunks)
  {
    assert End(Emptied(b)) == 0;
    assert Data(Emptied(b)) == "";
  }
}
