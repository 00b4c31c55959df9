/** Framing of the modem's byte stream into lines by the in-place AT buffer: what readline() does to the
    array and the cursor, as a function on values, and the class that does it in place. */
module AtFraming {
  import opened Wrappers
  import opened AtLines
  import opened AtStream

  // ----- the buffer on values -----

  /** The array and the cursor, which may be past the end after a prompt in the last byte. */
  datatype Buf = Buf(mem: seq<char>, cur: nat)

  predicate Terminated(mem: seq<char>) { |mem| == MAX_AT_RESPONSE + 1 && mem[MAX_AT_RESPONSE] == NUL }

  predicate Sound(b: Buf) { Terminated(b.mem) && b.cur <= MAX_AT_RESPONSE }

  function FirstNul(mem: seq<char>, from: nat): (to: nat)
    requires Terminated(mem) && from <= MAX_AT_RESPONSE
    ensures from <= to <= MAX_AT_RESPONSE && mem[to] == NUL && forall k :: from <= k < to ==> mem[k] != NUL
    decreases MAX_AT_RESPONSE - from
  {
    if mem[from] == NUL then from else FirstNul(mem, from + 1)
  }

  lemma FirstNulIs(mem: seq<char>, from: nat, to: nat)
    requires Terminated(mem) && from <= to <= MAX_AT_RESPONSE && mem[to] == NUL && forall k :: from <= k < to ==> mem[k] != NUL
    ensures FirstNul(mem, from) == to
  {
  }

  /** Where the string at the cursor ends. */
  function End(b: Buf): (to: nat)
    requires Sound(b)
    ensures b.cur <= to <= MAX_AT_RESPONSE
  {
    FirstNul(b.mem, b.cur)
  }

  /** The string at the cursor: what has been read and not returned yet. */
  function Data(b: Buf): (s: string)
    requires Sound(b)
    ensures |s| == End(b) - b.cur
  {
    b.mem[b.cur..End(b)]
  }

  function SkipFrom(mem: seq<char>, from: nat): (to: nat)
    requires Terminated(mem) && from <= MAX_AT_RESPONSE
    ensures from <= to <= MAX_AT_RESPONSE && !IsNewline(mem[to]) && forall k :: from <= k < to ==> IsNewline(mem[k])
    decreases MAX_AT_RESPONSE - from
  {
    if IsNewline(mem[from]) then SkipFrom(mem, from + 1) else from
  }

  function Skipped(b: Buf): (r: Buf)
    requires Sound(b)
    ensures Sound(r)
  {
    b.(cur := SkipFrom(b.mem, b.cur))
  }

  function LineEnd(mem: seq<char>, from: nat): (to: nat)
    requires Terminated(mem) && from <= MAX_AT_RESPONSE
    ensures from <= to <= MAX_AT_RESPONSE && (mem[to] == NUL || IsNewline(mem[to]))
    ensures forall k :: from <= k < to ==> mem[k] != NUL && !IsNewline(mem[k])
    decreases MAX_AT_RESPONSE - from
  {
    if mem[from] == NUL || IsNewline(mem[from]) then from else LineEnd(mem, from + 1)
  }

  /** The end of the line at the cursor, if it is there. A prompt without anything behind it ends itself. */
  function NextEol(b: Buf): (e: Option<nat>)
    requires Sound(b)
    ensures e.Some? ==> b.cur <= e.value <= MAX_AT_RESPONSE
  {
    if Data(b) == PROMPT then Some(End(b))
    else
      var p := LineEnd(b.mem, b.cur);
      if b.mem[p] == NUL then None else Some(p)
  }

  function Emptied(b: Buf): (r: Buf)
    requires Terminated(b.mem)
    ensures Sound(r)
  {
    Buf(b.mem[0 := NUL], 0)
  }

  /** The string at the cursor moved to the front, with its NUL. */
  function MovedUp(b: Buf): (r: Buf)
    requires Sound(b)
    ensures Sound(r)
  {
    var d := Data(b);
    Buf(d + [NUL] + b.mem[|d| + 1..], 0)
  }

  /** A chunk stored at `at`, with a NUL behind it. */
  function Stored(b: Buf, at: nat, chunk: string): (r: Buf)
    requires Sound(b) && at + |chunk| <= MAX_AT_RESPONSE
    ensures Sound(r)
  {
    b.(mem := b.mem[..at] + chunk + [NUL] + b.mem[at + |chunk| + 1..])
  }

  /** What one read() with this much room delivers, and what is left for the next ones. */
  function Chunk(input: seq<string>, room: nat): (chunk: string)
    requires input != []
    ensures |chunk| <= room
  {
    if |input[0]| <= room then input[0] else input[0][..room]
  }

  function Unread(input: seq<string>, room: nat): (rest: seq<string>)
    requires input != []
  {
    if |input[0]| <= room then input[1..] else [input[0][room..]] + input[1..]
  }

  lemma ReadSplits(input: seq<string>, room: nat)
    requires input != [] && "" !in input && room > 0
    ensures Chunk(input, room) != "" && "" !in Unread(input, room)
    ensures Flat(input) == Chunk(input, room) + Flat(Unread(input, room))
    ensures |Flat(Unread(input, room))| < |Flat(input)|
  {
    var c := input[0];
    assert c in input;
    if |c| > room {
      var rest := [c[room..]] + input[1..];
      assert rest[1..] == input[1..] && c == c[..room] + c[room..];
      assert c[..room] + (c[room..] + Flat(input[1..])) == c + Flat(input[1..]);
    }
  }

  /** The buffer after one more read(). */
  function Next(b: Buf, at: nat, input: seq<string>): (r: Buf)
    requires Sound(b) && at < MAX_AT_RESPONSE && input != []
    ensures Sound(r)
  {
    Skipped(Stored(b, at, Chunk(input, MAX_AT_RESPONSE - at)))
  }

  /** Where the line at the cursor ends, in which buffer, and what is left to read. */
  datatype Found = Found(eol: Option<nat>, b: Buf, input: seq<string>)

  datatype Reading = Reading(line: Option<string>, b: Buf, input: seq<string>)

  /** The line that was found, the buffer with the line cut off, and the cursor behind its end. */
  function CutOff(f: Found): (r: Reading)
    requires Sound(f.b)
    requires f.eol.Some? ==> f.b.cur <= f.eol.value <= MAX_AT_RESPONSE
  {
    match f.eol
    case None => Reading(None, f.b, f.input)
    case Some(e) => Reading(Some(f.b.mem[f.b.cur..e]), Buf(f.b.mem[e := NUL], e + 1), f.input)
  }

  ghost predicate Finds(f: Found) {
    Sound(f.b) && "" !in f.input && (f.eol.Some? ==> f.eol == NextEol(f.b) && !IsNewline(f.b.mem[f.b.cur]))
  }

  /** The loop of readline(): read() at `at` until there is a line. A full buffer is discarded first. */
  function Fill(b: Buf, at: nat, input: seq<string>): (f: Found)
    requires Sound(b) && at <= MAX_AT_RESPONSE && "" !in input
    decreases |Flat(input)|, at
  {
    if at == MAX_AT_RESPONSE then Fill(Emptied(b), 0, input)
    else if input == [] then Found(None, b, input)
    else
      ReadSplits(input, MAX_AT_RESPONSE - at);
      var next, rest := Next(b, at, input), Unread(input, MAX_AT_RESPONSE - at);
      if NextEol(next).Some? then Found(NextEol(next), next, rest)
      else Fill(next, at + |Chunk(input, MAX_AT_RESPONSE - at)|, rest)
  }

  lemma FillStops(b: Buf, at: nat, input: seq<string>)
    requires Sound(b) && at < MAX_AT_RESPONSE && input != [] && "" !in input && NextEol(Next(b, at, input)).Some?
    ensures Fill(b, at, input) == Found(NextEol(Next(b, at, input)), Next(b, at, input), Unread(input, MAX_AT_RESPONSE - at))
  {
  }

  lemma FillGoesOn(b: Buf, at: nat, input: seq<string>)
    requires Sound(b) && at < MAX_AT_RESPONSE && input != [] && "" !in input && NextEol(Next(b, at, input)) == None
    requires "" !in Unread(input, MAX_AT_RESPONSE - at)
    ensures Fill(b, at, input) ==
            Fill(Next(b, at, input), at + |Chunk(input, MAX_AT_RESPONSE - at)|, Unread(input, MAX_AT_RESPONSE - at))
  {
  }

  ghost predicate FindsIn(f: Found, input: seq<string>) {
    Finds(f) && |Flat(f.input)| <= |Flat(input)| && (f.eol.Some? ==> |Flat(f.input)| < |Flat(input)|)
  }

  lemma NextFinds(b: Buf, at: nat, input: seq<string>)
    requires Sound(b) && at < MAX_AT_RESPONSE && input != [] && "" !in input && NextEol(Next(b, at, input)).Some?
    ensures FindsIn(Found(NextEol(Next(b, at, input)), Next(b, at, input), Unread(input, MAX_AT_RESPONSE - at)), input)
  {
    ReadSplits(input, MAX_AT_RESPONSE - at);
  }

  lemma {:induction false} FillFinds(b: Buf, at: nat, input: seq<string>)
    requires Sound(b) && at <= MAX_AT_RESPONSE && "" !in input
    ensures FindsIn(Fill(b, at, input), input)
    decreases |Flat(input)|, at
  {
    if at == MAX_AT_RESPONSE {
      FillFinds(Emptied(b), 0, input);
    } else if input == [] {
    } else if NextEol(Next(b, at, input)).Some? {
      FillStops(b, at, input);
      NextFinds(b, at, input);
    } else {
      var next, c, rest := Next(b, at, input), Chunk(input, MAX_AT_RESPONSE - at), Unread(input, MAX_AT_RESPONSE - at);
      ReadSplits(input, MAX_AT_RESPONSE - at);
      FillGoesOn(b, at, input);
      FillFinds(next, at + |c|, rest);
      assert FindsIn(Fill(next, at + |c|, rest), rest);
    }
  }

  /** What readline() does up to the end of its loop. */
  function Look(b: Buf, input: seq<string>): (f: Found)
    requires Sound(b) && "" !in input
    ensures Finds(f)
    ensures f.eol.Some? ==> |Flat(f.input)| < |Flat(input)| || (f.input == input && b.cur <= f.b.cur)
  {
    if b.mem[b.cur] == NUL then
      FillFinds(Emptied(b), 0, input);
      Fill(Emptied(b), 0, input)
    else
      var s := Skipped(b);
      if NextEol(s).Some? then Found(NextEol(s), s, input)
      else
        FillFinds(MovedUp(s), |Data(s)|, input);
        Fill(MovedUp(s), |Data(s)|, input)
  }

  /** readline(). Whatever is sent, and however it arrives, a line is non-empty and holds neither newlines nor
      NULs, and only a prompt in the last byte moves the cursor out of the buffer. */
  function ReadOn(b: Buf, input: seq<string>): (r: Reading)
    requires Sound(b) && "" !in input
    ensures Terminated(r.b.mem) && "" !in r.input && r.b.cur <= MAX_AT_RESPONSE + 1
    ensures r.line.Some? ==> ProperLine(r.line.value) && NoNul(r.line.value)
    ensures r.line.Some? ==> |Flat(r.input)| < |Flat(input)| || (r.input == input && b.cur < r.b.cur)
    ensures r.b.cur == MAX_AT_RESPONSE + 1 ==> r.line == Some(PROMPT)
  {
    var f := Look(b, input);
    if f.eol.Some? then
      LineIsProper(f.b, f.eol.value);
      CutOff(f)
    else CutOff(f)
  }

  lemma LineIsProper(b: Buf, e: nat)
    requires Sound(b) && NextEol(b) == Some(e) && !IsNewline(b.mem[b.cur])
    ensures ProperLine(b.mem[b.cur..e]) && NoNul(b.mem[b.cur..e])
    ensures e == MAX_AT_RESPONSE ==> b.mem[b.cur..e] == PROMPT
    ensures Terminated(b.mem[e := NUL])
  {
  }

  /** All lines that readline() returns, one after the other, and whether the cursor leaves the buffer. */
  function ReadAll(b: Buf, input: seq<string>): (r: (seq<string>, bool))
    requires Sound(b) && "" !in input
    decreases |Flat(input)|, MAX_AT_RESPONSE + 1 - b.cur
  {
    var r := ReadOn(b, input);
    if r.line == None then ([], false)
    else if r.b.cur > MAX_AT_RESPONSE then ([r.line.value], true)
    else
      var (lines, overrun) := ReadAll(r.b, r.input);
      ([r.line.value] + lines, overrun)
  }

  // ----- what is read of a stream -----

  /** All that has not been returned yet, whether buffered or still to be read. */
  function Pending(b: Buf, input: seq<string>): (t: string)
    requires Sound(b)
  {
    Data(b) + Flat(input)
  }

  /** The data from `base` on, after skipped newlines, is the still unreturned stream `t`. */
  ghost predicate Holds(t: string, b: Buf, base: nat, input: seq<string>) {
    && Sound(b) && base <= b.cur
    && (forall k :: base <= k < b.cur ==> IsNewline(b.mem[k]))
    && b.mem[base..End(b)] + Flat(input) == t
  }

  /** Nothing behind `from` has changed. */
  ghost predicate KeptBehind(was: seq<char>, mem: seq<char>, from: nat) {
    |mem| == |was| && forall k :: from < k < |mem| ==> mem[k] == was[k]
  }

  lemma HeldAt(t: string, b: Buf, base: nat, input: seq<string>)
    requires Holds(t, b, base, input)
    ensures End(b) - base <= |t| && t[End(b) - base..] == Flat(input)
    ensures forall k :: 0 <= k < End(b) - base ==> t[k] == b.mem[base + k]
  {
  }

  lemma PendingHolds(b: Buf, input: seq<string>)
    requires Sound(b)
    ensures Holds(Pending(b, input), b, b.cur, input)
  {
  }

  lemma SkippedHolds(t: string, b: Buf, base: nat, input: seq<string>)
    requires Holds(t, b, base, input)
    ensures Holds(t, Skipped(b), base, input) && End(Skipped(b)) == End(b)
  {
  }

  lemma Overwritten(mem: seq<char>, at: nat, s: string)
    requires at + |s| < |mem|
    ensures KeptBehind(mem, mem[..at] + s + [NUL] + mem[at + |s| + 1..], at + |s|)
  {
    var r := mem[..at] + s + [NUL] + mem[at + |s| + 1..];
    forall k | at + |s| < k < |r|
      ensures r[k] == mem[k]
    {
      assert r[k] == mem[at + |s| + 1..][k - (at + |s| + 1)];
    }
  }

  lemma FrontOverwritten(mem: seq<char>, d: string)
    requires |d| < |mem|
    ensures KeptBehind(mem, d + [NUL] + mem[|d| + 1..], |d|)
  {
    Overwritten(mem, 0, d);
    assert mem[..0] + d == d;
  }

  lemma UpEnds(mem: seq<char>, d: string, rest: seq<char>)
    requires Terminated(mem) && NoNul(d) && mem == d + [NUL] + rest
    ensures FirstNul(mem, 0) == |d| && mem[0..|d|] == d
  {
    forall k | 0 <= k < |d|
      ensures mem[k] != NUL
    {
      assert mem[k] == d[k];
    }
    FirstNulIs(mem, 0, |d|);
  }

  lemma DataHasNoNul(b: Buf)
    requires Sound(b)
    ensures NoNul(Data(b))
  {
  }

  lemma UpIs(b: Buf)
    requires Sound(b)
    ensures End(MovedUp(b)) == |Data(b)| && Data(MovedUp(b)) == Data(b) && KeptBehind(b.mem, MovedUp(b).mem, |Data(b)|)
  {
    var d, u := Data(b), MovedUp(b);
    DataHasNoNul(b);
    UpEnds(u.mem, d, b.mem[|d| + 1..]);
    FrontOverwritten(b.mem, d);
  }

  /** A buffer that is moved up holds the stream without the newlines skipped so far. */
  lemma UpHolds(t: string, b: Buf, base: nat, input: seq<string>)
    requires Holds(t, b, base, input)
    ensures b.cur - base <= |t| && Holds(t[b.cur - base..], MovedUp(b), 0, input)
  {
    UpIs(b);
    assert b.mem[base..End(b)][b.cur - base..] == Data(b);
  }

  lemma Associate(a: string, b: string, c: string)
    ensures a + b + c == a + (b + c)
  {
  }

  lemma StoredPrefix(mem: seq<char>, at: nat, c: string, rest: seq<char>, from: nat)
    requires from <= at <= |mem| && (forall k :: from <= k < at ==> mem[k] != NUL) && NoNul(c)
    ensures var r := mem[..at] + c + [NUL] + rest;
            && r[0..at + |c|] == mem[0..at] + c && r[at + |c|] == NUL
            && (forall k :: 0 <= k < at ==> r[k] == mem[k]) && (forall k :: from <= k < at + |c| ==> r[k] != NUL)
  {
    var r := mem[..at] + c + [NUL] + rest;
    forall k | at <= k < at + |c|
      ensures r[k] != NUL
    {
      assert r[k] == c[k - at];
    }
  }

  lemma StoredEnds(b: Buf, c: string)
    requires Sound(b) && End(b) + |c| <= MAX_AT_RESPONSE && NoNul(c)
    ensures var r := Stored(b, End(b), c);
            && End(r) == End(b) + |c| && r.mem[0..End(r)] == b.mem[0..End(b)] + c && KeptBehind(b.mem, r.mem, End(r))
            && forall k :: 0 <= k < End(b) ==> r.mem[k] == b.mem[k]
  {
    var at := End(b);
    var r := Stored(b, at, c);
    StoredPrefix(b.mem, at, c, b.mem[at + |c| + 1..], b.cur);
    FirstNulIs(r.mem, b.cur, at + |c|);
    Overwritten(b.mem, at, c);
  }

  lemma PartHasNoNul(t: string, front: string, c: string, rest: string)
    requires t == front + (c + rest) && NoNul(t)
    ensures NoNul(c)
  {
    forall k | 0 <= k < |c|
      ensures c[k] != NUL
    {
      assert c[k] == t[|front| + k];
    }
  }

  /** A chunk without NULs stored behind the data. */
  lemma StoredHolds(t: string, b: Buf, input: seq<string>)
    requires Holds(t, b, 0, input) && NoNul(t) && End(b) < MAX_AT_RESPONSE && input != [] && "" !in input
    ensures var room := MAX_AT_RESPONSE - End(b);
            var r := Stored(b, End(b), Chunk(input, room));
            && Holds(t, r, 0, Unread(input, room)) && End(r) == End(b) + |Chunk(input, room)|
            && KeptBehind(b.mem, r.mem, End(r))
  {
    var at, room := End(b), MAX_AT_RESPONSE - End(b);
    var c, rest := Chunk(input, room), Unread(input, room);
    ReadSplits(input, room);
    PartHasNoNul(t, b.mem[0..at], c, Flat(rest));
    StoredEnds(b, c);
    Associate(b.mem[0..at], c, Flat(rest));
  }

  lemma NoNewlineAhead(t: string, b: Buf, base: nat, input: seq<string>)
    requires Holds(t, b, base, input) && NextEol(b) == None
    ensures End(b) - base <= |t| && NewlinesThenLine(t, 0, b.cur - base, End(b) - base)
  {
    HeldAt(t, b, base, input);
  }

  /** Nothing is ever discarded of a whole stream. */
  lemma RoomLeft(t: string, b: Buf, input: seq<string>)
    requires Holds(t, b, 0, input) && NextEol(b) == None && Fits(t)
    ensures End(b) < MAX_AT_RESPONSE
  {
    NoNewlineAhead(t, b, 0, input);
  }

  lemma NothingFound(t: string, b: Buf)
    requires Holds(t, b, 0, []) && NextEol(b) == None
    ensures NextLine(t) == None
  {
    NoNewlineAhead(t, b, 0, []);
    HeldAt(t, b, 0, []);
    NoNextLine(t, b.cur);
  }

  lemma KeptOn(a: seq<char>, b: seq<char>, c: seq<char>, m: nat, n: nat)
    requires KeptBehind(a, b, m) && KeptBehind(b, c, n) && m <= n
    ensures KeptBehind(a, c, n)
  {
  }

  lemma NextHolds(t: string, b: Buf, input: seq<string>)
    requires Holds(t, b, 0, input) && NoNul(t) && End(b) < MAX_AT_RESPONSE && input != [] && "" !in input
    ensures Holds(t, Next(b, End(b), input), 0, Unread(input, MAX_AT_RESPONSE - End(b)))
    ensures End(Next(b, End(b), input)) == End(b) + |Chunk(input, MAX_AT_RESPONSE - End(b))|
    ensures KeptBehind(b.mem, Next(b, End(b), input).mem, End(Next(b, End(b), input)))
  {
    var room := MAX_AT_RESPONSE - End(b);
    StoredHolds(t, b, input);
    SkippedHolds(t, Stored(b, End(b), Chunk(input, room)), 0, Unread(input, room));
  }

  /** What is found holds the stream, in memory that is as before behind its data. */
  ghost predicate Keeps(t: string, b: Buf, f: Found) {
    && Sound(b) && Holds(t, f.b, 0, f.input) && End(b) <= End(f.b) && KeptBehind(b.mem, f.b.mem, End(f.b))
    && (f.eol == None ==> NextLine(t) == None)
  }

  lemma KeepsOn(t: string, b: Buf, next: Buf, f: Found)
    requires Sound(b) && Sound(next) && End(b) <= End(next) && KeptBehind(b.mem, next.mem, End(next)) && Keeps(t, next, f)
    ensures Keeps(t, b, f)
  {
    KeptOn(b.mem, next.mem, f.b.mem, End(next), End(f.b));
  }

  lemma NextKeeps(t: string, b: Buf, input: seq<string>)
    requires Holds(t, b, 0, input) && NoNul(t) && End(b) < MAX_AT_RESPONSE && input != [] && "" !in input
    requires NextEol(Next(b, End(b), input)).Some?
    ensures Keeps(t, b, Found(NextEol(Next(b, End(b), input)), Next(b, End(b), input), Unread(input, MAX_AT_RESPONSE - End(b))))
  {
    NextHolds(t, b, input);
  }

  lemma FillTo(b: Buf, at: nat, input: seq<string>, to: nat)
    requires Sound(b) && at < MAX_AT_RESPONSE && input != [] && "" !in input && NextEol(Next(b, at, input)) == None
    requires "" !in Unread(input, MAX_AT_RESPONSE - at) && to == at + |Chunk(input, MAX_AT_RESPONSE - at)|
    ensures Fill(b, at, input) == Fill(Next(b, at, input), to, Unread(input, MAX_AT_RESPONSE - at))
  {
    FillGoesOn(b, at, input);
  }

  /** Reading goes on at the end of the data. */
  lemma FillFollows(t: string, b: Buf, input: seq<string>)
    requires Holds(t, b, 0, input) && NoNul(t) && End(b) < MAX_AT_RESPONSE && input != [] && "" !in input
    requires NextEol(Next(b, End(b), input)) == None
    ensures var next, rest := Next(b, End(b), input), Unread(input, MAX_AT_RESPONSE - End(b));
            && Holds(t, next, 0, rest) && End(b) <= End(next) && KeptBehind(b.mem, next.mem, End(next))
            && "" !in rest && |Flat(rest)| < |Flat(input)| && Fill(b, End(b), input) == Fill(next, End(next), rest)
  {
    ReadSplits(input, MAX_AT_RESPONSE - End(b));
    NextHolds(t, b, input);
    FillTo(b, End(b), input, End(Next(b, End(b), input)));
  }

  /** Reading on keeps the stream, up to the end of the line or of the stream. */
  lemma {:induction false} FillHolds(t: string, b: Buf, input: seq<string>)
    requires Holds(t, b, 0, input) && NextEol(b) == None && Whole(t) && "" !in input
    ensures Keeps(t, b, Fill(b, End(b), input))
    decreases |Flat(input)|
  {
    RoomLeft(t, b, input);
    if input == [] {
      NothingFound(t, b);
    } else if NextEol(Next(b, End(b), input)).Some? {
      FillStops(b, End(b), input);
      NextKeeps(t, b, input);
    } else {
      var next, rest := Next(b, End(b), input), Unread(input, MAX_AT_RESPONSE - End(b));
      FillFollows(t, b, input);
      FillHolds(t, next, rest);
      KeepsOn(t, b, next, Fill(next, End(next), rest));
    }
  }

  /** The line of the stream is in the buffer, at `base` without the first `n` newlines. */
  ghost predicate Lies(t: string, was: seq<char>, f: Found, base: nat, n: nat) {
    && n <= |t| && NewlineRun(t[..n]) && Holds(t[n..], f.b, base, f.input)
    && (f.eol == None ==> NextLine(t) == None) && KeptBehind(was, f.b.mem, End(f.b))
  }

  lemma EmptyLies(b: Buf, input: seq<string>)
    requires Sound(b) && "" !in input && b.mem[b.cur] == NUL && Whole(Pending(b, input))
    ensures Lies(Pending(b, input), b.mem, Look(b, input), 0, 0)
  {
    var t, e := Pending(b, input), Emptied(b);
    assert Data(b) == "" && t == Flat(input) && t[0..] == t;
    assert Holds(t, e, 0, input);
    assert Data(e) == "" && NextEol(e) == None;
    FillHolds(t, e, input);
  }

  lemma RunSkips(t: string, n: nat)
    requires n <= |t| && NewlineRun(t[..n])
    ensures NextLine(t) == NextLine(t[n..])
  {
    assert forall x :: 0 <= x < n ==> t[x] == t[..n][x];
    NextLineSkips(t, n);
  }

  lemma SkippedRun(t: string, b: Buf, base: nat, input: seq<string>)
    requires Holds(t, b, base, input)
    ensures b.cur - base <= |t| && NewlineRun(t[..b.cur - base])
  {
    HeldAt(t, b, base, input);
  }

  /** A partial line is moved up and read on from there. */
  lemma UpFills(t: string, b: Buf, base: nat, input: seq<string>)
    requires Holds(t, b, base, input) && NextEol(b) == None && Whole(t) && "" !in input
    ensures b.cur - base <= |t| && NewlineRun(t[..b.cur - base])
    ensures Lies(t, b.mem, Fill(MovedUp(b), |Data(b)|, input), 0, b.cur - base)
  {
    var n, u := b.cur - base, MovedUp(b);
    SkippedRun(t, b, base, input);
    UpHolds(t, b, base, input);
    UpHasNoEol(b);
    WholeFrom(t, n);
    UpIs(b);
    FillHolds(t[n..], u, input);
    RunSkips(t, n);
    KeptOn(b.mem, u.mem, Fill(u, |Data(b)|, input).b.mem, |Data(b)|, End(Fill(u, |Data(b)|, input).b));
  }

  lemma NoEolMeans(b: Buf)
    requires Sound(b)
    ensures NextEol(b) == None <==> Data(b) != PROMPT && forall k :: 0 <= k < |Data(b)| ==> !IsNewline(Data(b)[k])
  {
    var p := LineEnd(b.mem, b.cur);
    if b.mem[p] == NUL {
      FirstNulIs(b.mem, b.cur, p);
    } else {
      assert p < End(b) && Data(b)[p - b.cur] == b.mem[p];
    }
  }

  lemma UpHasNoEol(b: Buf)
    requires Sound(b) && NextEol(b) == None
    ensures NextEol(MovedUp(b)) == None
  {
    UpIs(b);
    NoEolMeans(b);
    NoEolMeans(MovedUp(b));
  }

  lemma FoundLies(b: Buf, input: seq<string>)
    requires Sound(b) && "" !in input && b.mem[b.cur] != NUL && NextEol(Skipped(b)).Some?
    ensures Lies(Pending(b, input), b.mem, Look(b, input), b.cur, 0)
  {
    var t := Pending(b, input);
    PendingHolds(b, input);
    SkippedHolds(t, b, b.cur, input);
    assert t[0..] == t;
  }

  lemma PartialLies(b: Buf, s: Buf, input: seq<string>)
    requires Sound(b) && "" !in input && b.mem[b.cur] != NUL && s == Skipped(b) && NextEol(s) == None && Whole(Pending(b, input))
    ensures s.cur >= b.cur && Lies(Pending(b, input), b.mem, Fill(MovedUp(s), |Data(s)|, input), 0, s.cur - b.cur)
  {
    var t := Pending(b, input);
    PendingHolds(b, input);
    SkippedHolds(t, b, b.cur, input);
    UpFills(t, s, b.cur, input);
  }

  // ----- readline() on streams without NULs and without lines that fill the buffer -----

  /** The next line of the stream has been read, or there is none. */
  ghost predicate LineRead(t: string, r: Reading) {
    match NextLine(t)
    case None => r.line == None
    case Some((line, rest)) => r.line == Some(line) && Sound(r.b) && Pending(r.b, r.input) == rest
  }

  /** The data ended in a prompt behind the newlines of `t`, and the prompt has been read. The cursor is one
      byte behind its NUL, and from there on the memory is as it was before. */
  ghost predicate PromptRead(t: string, was: seq<char>, r: Reading) {
    && r.line == Some(PROMPT) && Terminated(was) && Terminated(r.b.mem)
    && r.b.cur <= MAX_AT_RESPONSE + 1 && r.b.mem[r.b.cur..] == was[r.b.cur..]
    && exists n: nat :: IsPromptBehind(t, n, Flat(r.input))
  }

  ghost predicate IsPromptBehind(t: string, n: nat, rest: string) {
    n <= |t| && NewlineRun(t[..n]) && t[n..] == PROMPT + rest
  }

  lemma SliceOfSlice(s: seq<char>, from: nat, to: nat, i: nat, j: nat)
    requires from <= to <= |s| && i <= j <= to - from
    ensures s[from..to][i..j] == s[from + i..from + j]
  {
    var a, b := s[from..to][i..j], s[from + i..from + j];
    forall k | 0 <= k < |a|
      ensures a[k] == b[k]
    {
      assert a[k] == s[from..to][i + k];
    }
  }

  lemma TakenData(b: Buf, e: nat)
    requires Sound(b) && b.cur <= e < End(b)
    ensures Terminated(b.mem[e := NUL]) && Data(Buf(b.mem[e := NUL], e + 1)) == b.mem[e + 1..End(b)]
  {
    var mem := b.mem[e := NUL];
    FirstNulIs(mem, e + 1, End(b));
    assert mem[e + 1..End(b)] == b.mem[e + 1..End(b)];
  }

  /** A line found before the end of the data, which are the stream from `base` on. */
  lemma FoundIsNext(u: string, b: Buf, base: nat, input: seq<string>, e: nat)
    requires Holds(u, b, base, input) && NextEol(b) == Some(e) && Data(b) != PROMPT && !IsNewline(b.mem[b.cur])
    ensures e < End(b) && NextLine(u) == Some((b.mem[b.cur..e], b.mem[e + 1..End(b)] + Flat(input)))
  {
    var data := b.mem[base..End(b)];
    var i, j := b.cur - base, e - base;
    SliceOfSlice(b.mem, base, End(b), i, j);
    SliceOfSlice(b.mem, base, End(b), j + 1, |data|);
    assert data[j + 1..] == data[j + 1..|data|];
    LineInData(data, Flat(input), i, j);
  }

  lemma FoundIsPrompt(u: string, b: Buf, base: nat, input: seq<string>)
    requires Holds(u, b, base, input) && Data(b) == PROMPT
    ensures IsPromptBehind(u, b.cur - base, Flat(input))
  {
    SkippedRun(u, b, base, input);
    UpHolds(u, b, base, input);
    UpIs(b);
  }

  lemma MoreNewlines(t: string, n: nat, m: nat, rest: string)
    requires n <= |t| && NewlineRun(t[..n]) && IsPromptBehind(t[n..], m, rest)
    ensures IsPromptBehind(t, n + m, rest)
  {
    var u := t[n..];
    SliceOfSlice(t, n, |t|, m, |u|);
    assert t[n..|t|] == u && u[m..|u|] == u[m..] && t[n + m..|t|] == t[n + m..];
    assert t[..n + m] == t[..n] + u[..m];
  }

  lemma CutPrompt(t: string, was: seq<char>, f: Found, base: nat, n: nat)
    requires Lies(t, was, f, base, n) && Terminated(was) && Data(f.b) == PROMPT && f.eol == NextEol(f.b)
    ensures f.eol == Some(End(f.b))
    ensures PromptRead(t, was, CutOff(f))
  {
    var e := End(f.b);
    FoundIsPrompt(t[n..], f.b, base, f.input);
    MoreNewlines(t, n, f.b.cur - base, Flat(f.input));
    assert f.b.mem[e := NUL] == f.b.mem;
    assert f.b.mem[e + 1..] == was[e + 1..];
  }

  lemma CutLine(u: string, f: Found, base: nat)
    requires Holds(u, f.b, base, f.input) && Finds(f) && f.eol.Some? && Data(f.b) != PROMPT
    ensures LineRead(u, CutOff(f))
  {
    var e := f.eol.value;
    FoundIsNext(u, f.b, base, f.input, e);
    TakenData(f.b, e);
    assert CutOff(f).b == Buf(f.b.mem[e := NUL], e + 1);
    assert Pending(CutOff(f).b, f.input) == f.b.mem[e + 1..End(f.b)] + Flat(f.input);
  }

  lemma CutIs(t: string, was: seq<char>, f: Found, base: nat, n: nat)
    requires Lies(t, was, f, base, n) && Finds(f) && Terminated(was)
    ensures LineRead(t, CutOff(f)) || PromptRead(t, was, CutOff(f))
  {
    if f.eol.Some? {
      if Data(f.b) == PROMPT {
        CutPrompt(t, was, f, base, n);
      } else {
        CutLine(t[n..], f, base);
        RunSkips(t, n);
      }
    }
  }

  lemma ReadCuts(b: Buf, input: seq<string>)
    requires Sound(b) && "" !in input
    ensures Finds(Look(b, input)) && ReadOn(b, input) == CutOff(Look(b, input))
  {
  }

  lemma LookFills(b: Buf, s: Buf, input: seq<string>)
    requires Sound(b) && "" !in input && b.mem[b.cur] != NUL && s == Skipped(b) && NextEol(s) == None
    ensures Look(b, input) == Fill(MovedUp(s), |Data(s)|, input)
  {
  }

  lemma LookLies(b: Buf, input: seq<string>)
    requires Sound(b) && "" !in input && Whole(Pending(b, input))
    ensures exists base: nat, n: nat :: Lies(Pending(b, input), b.mem, Look(b, input), base, n)
  {
    if b.mem[b.cur] == NUL {
      EmptyLies(b, input);
    } else if NextEol(Skipped(b)).Some? {
      FoundLies(b, input);
    } else {
      PartialLies(b, Skipped(b), input);
      LookFills(b, Skipped(b), input);
    }
  }

  /** On such a stream readline() returns the next line and leaves the rest, however it is chunked, unless the
      data it looks at end in a prompt. */
  lemma ReadIs(b: Buf, input: seq<string>)
    requires Sound(b) && "" !in input && Whole(Pending(b, input))
    ensures LineRead(Pending(b, input), ReadOn(b, input)) || PromptRead(Pending(b, input), b.mem, ReadOn(b, input))
  {
    LookLies(b, input);
    ReadCuts(b, input);
    var base: nat, n: nat :| Lies(Pending(b, input), b.mem, Look(b, input), base, n);
    CutIs(Pending(b, input), b.mem, Look(b, input), base, n);
  }

  /** After a prompt, the bytes that earlier reads have left behind it come before what is still to be read;
      nothing comes before it exactly if the first of them is a NUL. */
  lemma PromptLeaves(t: string, was: seq<char>, r: Reading)
    requires PromptRead(t, was, r) && r.b.cur <= MAX_AT_RESPONSE
    ensures Sound(r.b) && Pending(r.b, r.input) == was[r.b.cur..FirstNul(was, r.b.cur)] + Flat(r.input)
    ensures Pending(r.b, r.input) == Flat(r.input) <==> was[r.b.cur] == NUL
  {
    var to := FirstNul(was, r.b.cur);
    forall k | r.b.cur <= k <= to
      ensures r.b.mem[k] == was[k]
    {
      assert r.b.mem[r.b.cur..][k - r.b.cur] == was[r.b.cur..][k - r.b.cur];
    }
    FirstNulIs(r.b.mem, r.b.cur, to);
    assert r.b.mem[r.b.cur..to] == was[r.b.cur..to];
  }

  // ----- clean streams -----

  lemma PromptStarts(t: string, n: nat, rest: string)
    requires IsPromptBehind(t, n, rest)
    ensures n + 1 < |t| && t[n] == '>' && t[n + 1] == ' ' && (n == 0 || IsNewline(t[n - 1]))
  {
    var u := t[n..];
    assert u[0] == '>' && u[1] == ' ';
    assert n > 0 ==> t[n - 1] == t[..n][n - 1];
  }

  lemma NoPromptRead(t: string, was: seq<char>, r: Reading)
    requires NoPrompt(t)
    ensures !PromptRead(t, was, r)
  {
    if PromptRead(t, was, r) {
      var n: nat :| IsPromptBehind(t, n, Flat(r.input));
      PromptStarts(t, n, Flat(r.input));
      assert false;
    }
  }

  /** On a clean stream it is the next line in any case, and what remains is clean. */
  lemma CleanIsRead(b: Buf, input: seq<string>)
    requires Sound(b) && "" !in input && Clean(Pending(b, input))
    ensures LineRead(Pending(b, input), ReadOn(b, input))
    ensures ReadOn(b, input).line.Some? ==> Clean(Pending(ReadOn(b, input).b, ReadOn(b, input).input))
  {
    var t, r := Pending(b, input), ReadOn(b, input);
    ReadIs(b, input);
    NoPromptRead(t, b.mem, r);
    if r.line.Some? {
      NextIsClean(t);
    }
  }

  /** The lines that readline() returns are exactly those of a clean stream, chunk boundaries playing no part. */
  lemma {:induction false} CleanLinesAreRead(b: Buf, input: seq<string>)
    requires Sound(b) && "" !in input && Clean(Pending(b, input))
    ensures ReadAll(b, input) == (Lines(Pending(b, input)), false)
    decreases |Flat(input)|, MAX_AT_RESPONSE + 1 - b.cur
  {
    var r := ReadOn(b, input);
    CleanIsRead(b, input);
    if r.line.Some? {
      CleanLinesAreRead(r.b, r.input);
    }
  }

  // ----- the buffer in place -----

  /** A buffer that nothing has been read into yet. */
  function Unused(): (b: Buf)
    ensures Sound(b)
  {
    Buf(seq(MAX_AT_RESPONSE + 1, _ => NUL), 0)
  }

  lemma DataIsPrompt(b: Buf)
    requires Sound(b)
    ensures Data(b) == PROMPT <==> b.mem[b.cur] == '>' && b.mem[b.cur + 1] == ' ' && b.mem[b.cur + 2] == NUL
  {
    if b.mem[b.cur] == '>' && b.mem[b.cur + 1] == ' ' && b.mem[b.cur + 2] == NUL {
      FirstNulIs(b.mem, b.cur, b.cur + 2);
    }
  }

  class LineReader {
    const buf: array<char>
    var cur: nat
    /** What the coming read() calls will find, in order; nothing more means end of file. */
    var input: seq<string>

    ghost predicate Valid()
      reads this, buf
    {
      buf.Length == MAX_AT_RESPONSE + 1 && buf[MAX_AT_RESPONSE] == NUL && cur <= MAX_AT_RESPONSE && "" !in input
    }

    ghost function Value(): (b: Buf)
      reads this, buf
    {
      Buf(buf[..], cur)
    }

    constructor (input: seq<string>)
      requires "" !in input
      ensures Valid() && Value() == Unused() && this.input == input && fresh(buf)
    {
      buf := new char[MAX_AT_RESPONSE + 1](_ => NUL);
      cur := 0;
      this.input := input;
    }

    method FindNextEol() returns (eol: Option<nat>)
      requires Valid()
      ensures eol == NextEol(Value())
    {
      DataIsPrompt(Value());
      if buf[cur] == '>' && buf[cur + 1] == ' ' && buf[cur + 2] == NUL {
        FirstNulIs(buf[..], cur, cur + 2);
        return Some(cur + 2);
      }
      var p := cur;
      while buf[p] != NUL && !IsNewline(buf[p])
        invariant cur <= p <= MAX_AT_RESPONSE
        invariant forall k :: cur <= k < p ==> buf[k] != NUL && !IsNewline(buf[k])
        decreases MAX_AT_RESPONSE - p
      {
        p := p + 1;
      }
      eol := if buf[p] == NUL then None else Some(p);
    }

    method SkipLeadingNewlines()
      requires Valid()
      modifies this`cur
      ensures Valid() && Value() == Skipped(old(Value()))
    {
      while IsNewline(buf[cur])
        invariant old(cur) <= cur <= MAX_AT_RESPONSE
        invariant forall k :: old(cur) <= k < cur ==> IsNewline(buf[k])
        decreases MAX_AT_RESPONSE - cur
      {
        cur := cur + 1;
      }
    }

    method Strlen() returns (len: nat)
      requires Valid()
      ensures len == |Data(Value())|
    {
      len := 0;
      while buf[cur + len] != NUL
        invariant cur + len <= MAX_AT_RESPONSE
        invariant forall k :: cur <= k < cur + len ==> buf[k] != NUL
        decreases MAX_AT_RESPONSE - cur - len
      {
        len := len + 1;
      }
      FirstNulIs(buf[..], cur, cur + len);
    }

    /** memmove(buf, &buf[cur], len + 1). */
    method MoveData(len: nat)
      requires buf.Length == MAX_AT_RESPONSE + 1 && cur + len <= MAX_AT_RESPONSE
      modifies buf
      ensures Shifted(old(buf[..]), buf[..], cur, len)
    {
      forall k | 0 <= k <= len {
        buf[k] := buf[cur + k];
      }
    }

    /** A partial line is moved to the front of the buffer. */
    method MoveUp() returns (pRead: nat)
      requires Valid()
      modifies this`cur, buf
      ensures Valid() && Value() == MovedUp(old(Value())) && pRead == |Data(old(Value()))|
    {
      pRead := Strlen();
      ghost var b := Value();
      MoveData(pRead);
      cur := 0;
      MovedIsUp(b, buf[..]);
    }

    /** read(fd, &buf[at], room): some of what is available, never more than there is room for. */
    method Read(at: nat, room: nat) returns (count: nat)
      requires buf.Length == MAX_AT_RESPONSE + 1 && 0 < room && at + room <= MAX_AT_RESPONSE && "" !in input
      modifies this`input, buf
      ensures count == 0 <==> old(input) == []
      ensures count == 0 ==> input == old(input) && buf[..] == old(buf[..])
      ensures count > 0 ==> count == |Chunk(old(input), room)| && input == Unread(old(input), room) && "" !in input
      ensures count > 0 ==> buf[..] == old(buf[..at]) + Chunk(old(input), room) + old(buf[at + count..])
    {
      if input == [] {
        return 0;
      }
      ReadSplits(input, room);
      var chunk := Chunk(input, room);
      count := |chunk|;
      ghost var was := buf[..];
      forall k | 0 <= k < count {
        buf[at + k] := chunk[k];
      }
      assert buf[..at] == was[..at] && buf[at..at + count] == chunk && buf[at + count..] == was[at + count..];
      assert buf[..] == buf[..at] + buf[at..at + count] + buf[at + count..];
      input := Unread(input, room);
    }

    /** read() with a NUL put behind what it has brought. */
    method ReadString(at: nat) returns (count: nat)
      requires Valid() && at < MAX_AT_RESPONSE
      modifies this`input, buf
      ensures Valid() && (count == 0 <==> old(input) == [])
      ensures count == 0 ==> Value() == old(Value()) && input == old(input)
      ensures count > 0 ==> count == |Chunk(old(input), MAX_AT_RESPONSE - at)|
      ensures count > 0 ==> Value() == Stored(old(Value()), at, Chunk(old(input), MAX_AT_RESPONSE - at))
      ensures count > 0 ==> input == Unread(old(input), MAX_AT_RESPONSE - at)
    {
      ghost var b, all := Value(), input;
      count := Read(at, MAX_AT_RESPONSE - at);
      if count > 0 {
        buf[at + count] := NUL;
        WrittenIsStored(b, at, Chunk(all, MAX_AT_RESPONSE - at), buf[..]);
      }
    }

    /** One more read() at `at`, terminated, and the newlines skipped. */
    method ReadMore(at: nat) returns (count: nat)
      requires Valid() && at < MAX_AT_RESPONSE
      modifies this`cur, this`input, buf
      ensures Valid() && (count == 0 <==> old(input) == [])
      ensures count == 0 ==> Value() == old(Value()) && input == old(input)
      ensures count > 0 ==> count == |Chunk(old(input), MAX_AT_RESPONSE - at)|
      ensures count > 0 ==> Value() == Next(old(Value()), at, old(input)) && input == Unread(old(input), MAX_AT_RESPONSE - at)
    {
      count := ReadString(at);
      if count > 0 {
        SkipLeadingNewlines();
      }
    }

    /** A full buffer is discarded. */
    method MakeRoom(at: nat) returns (next: nat)
      requires Valid() && at <= MAX_AT_RESPONSE
      modifies this`cur, buf
      ensures Valid() && next < MAX_AT_RESPONSE && Fill(Value(), next, input) == Fill(old(Value()), at, input)
    {
      next := at;
      if MAX_AT_RESPONSE - next == 0 {
        cur := 0;
        buf[0] := NUL;
        next := 0;
        assert Value() == Emptied(old(Value()));
      }
    }

    /** One turn of the loop: read() at `at`, and look for the end of the line. */
    method FillOnce(at: nat) returns (next: nat, more: bool, eol: Option<nat>)
      requires Valid() && at <= MAX_AT_RESPONSE
      modifies this`cur, this`input, buf
      ensures Valid() && next <= MAX_AT_RESPONSE && (!more ==> eol == None) && (more ==> |Flat(input)| < |Flat(old(input))|)
      ensures Fill(old(Value()), at, old(input)) == if more && eol == None then Fill(Value(), next, input) else Found(eol, Value(), input)
    {
      next := MakeRoom(at);
      ghost var b, all := Value(), input;
      var count := ReadMore(next);
      if count == 0 {
        return next, false, None;
      }
      ReadSplits(all, MAX_AT_RESPONSE - next);
      eol := FindNextEol();
      if eol == None {
        FillGoesOn(b, next, all);
      } else {
        FillStops(b, next, all);
      }
      next, more := next + count, true;
    }

    /** The loop: read() until there is a line, or nothing more. */
    method FillLine(start: nat) returns (eol: Option<nat>)
      requires Valid() && start <= MAX_AT_RESPONSE
      modifies this`cur, this`input, buf
      ensures Valid() && Found(eol, Value(), input) == Fill(old(Value()), start, old(input))
    {
      var pRead: nat := start;
      var more := true;
      eol := None;
      while more && eol == None
        invariant Valid() && pRead <= MAX_AT_RESPONSE
        invariant Fill(old(Value()), start, old(input)) ==
                  if more && eol == None then Fill(Value(), pRead, input) else Found(eol, Value(), input)
        decreases more, |Flat(input)|
      {
        pRead, more, eol := FillOnce(pRead);
      }
    }

    /** What comes before the loop: the data is left where it is if it holds a line. */
    method StartLine() returns (pRead: nat, eol: Option<nat>)
      requires Valid()
      modifies this`cur, buf
      ensures Valid() && pRead <= MAX_AT_RESPONSE
      ensures Look(old(Value()), input) == if eol == None then Fill(Value(), pRead, input) else Found(eol, Value(), input)
    {
      if buf[cur] == NUL {
        cur := 0;
        buf[0] := NUL;
        return 0, None;
      }
      SkipLeadingNewlines();
      eol := FindNextEol();
      pRead := 0;
      if eol == None {
        pRead := MoveUp();
      }
    }

    /** Terminate the line found at `cur` and step over its end. Behind a prompt this is one byte behind the
        terminator, and what earlier reads have left there becomes data. */
    method TakeLine(eol: nat) returns (line: string)
      requires Valid() && NextEol(Value()) == Some(eol) && !IsNewline(buf[cur])
      modifies this`cur, buf
      ensures Reading(Some(line), Value(), input) == CutOff(Found(Some(eol), old(Value()), input))
      ensures cur <= MAX_AT_RESPONSE ==> Valid()
      ensures cur == MAX_AT_RESPONSE + 1 <==> old(Data(Value())) == PROMPT && eol == MAX_AT_RESPONSE
      ensures old(Data(Value())) == PROMPT && cur <= MAX_AT_RESPONSE ==>
                && Pending(Value(), input) == old(buf[eol + 1..FirstNul(buf[..], eol + 1)]) + Flat(input)
                && (Pending(Value(), input) == Flat(input) <==> old(buf[eol + 1]) == NUL)
    {
      ghost var was := buf[..];
      LineIsProper(Value(), eol);
      line := buf[cur..eol];
      buf[eol] := NUL;
      cur := eol + 1;
      assert was[eol] == NUL ==> buf[..] == was;
    }

    /** readline(), whatever the modem sends and however it arrives. */
    method ReadLine() returns (r: Option<string>)
      requires Valid()
      modifies this`cur, this`input, buf
      ensures Reading(r, Value(), input) == ReadOn(old(Value()), old(input))
      ensures buf.Length == MAX_AT_RESPONSE + 1 && (cur <= MAX_AT_RESPONSE ==> Valid())
      ensures var f := Look(old(Value()), old(input));
              f.eol.Some? && Data(f.b) == PROMPT && cur <= MAX_AT_RESPONSE ==>
                && r == Some(PROMPT) && Pending(Value(), input) == f.b.mem[cur..FirstNul(f.b.mem, cur)] + Flat(input)
                && (Pending(Value(), input) == Flat(input) <==> f.b.mem[cur] == NUL)
    {
      ReadCuts(Value(), input);
      var pRead, eol := StartLine();
      if eol == None {
        eol := FillLine(pRead);
      }
      if eol == None {
        return None;
      }
      var line := TakeLine(eol.value);
      r := Some(line);
    }
  }

  /** The `len` elements from `from` on, and the one behind them, have been copied to the front. */
  ghost predicate Shifted(was: seq<char>, mem: seq<char>, from: nat, len: nat) {
    && |mem| == |was| && from + len < |was|
    && forall k: nat :: k < |mem| ==> mem[k] == was[if k <= len then from + k else k]
  }

  lemma ShiftedIs(was: seq<char>, mem: seq<char>, from: nat, len: nat)
    requires Shifted(was, mem, from, len)
    ensures mem == was[from..from + len] + [was[from + len]] + was[len + 1..]
  {
    var d, rest := was[from..from + len], was[len + 1..];
    assert mem[..len] == d;
    assert mem[len] == was[from + len];
    assert mem[len + 1..] == rest;
    assert mem == mem[..len] + [mem[len]] + mem[len + 1..];
  }

  lemma MovedIsUp(b: Buf, mem: seq<char>)
    requires Sound(b) && Shifted(b.mem, mem, b.cur, |Data(b)|)
    ensures Buf(mem, 0) == MovedUp(b)
  {
    ShiftedIs(b.mem, mem, b.cur, |Data(b)|);
  }

  lemma WrittenIsStored(b: Buf, at: nat, chunk: string, mem: seq<char>)
    requires Sound(b) && at + |chunk| <= MAX_AT_RESPONSE
    requires mem == (b.mem[..at] + chunk + b.mem[at + |chunk|..])[at + |chunk| := NUL]
    ensures mem == Stored(b, at, chunk).mem
  {
  }
}
