/** What a prompt does to the line buffer: the cursor steps one byte too far, to what earlier reads have left
    there, or out of the buffer. */
module AtStaleLines {
  import opened Wrappers
  import opened AtLines
  import opened AtStream
  import opened AtFraming
  import opened AtDispatch

  // ----- single calls of readline() -----

  ghost predicate NewlinesUpTo(b: Buf, m: nat) {
    Sound(b) && b.cur <= m <= MAX_AT_RESPONSE && forall k :: b.cur <= k < m ==> IsNewline(b.mem[k])
  }

  lemma SkipsTo(b: Buf, m: nat)
    requires NewlinesUpTo(b, m) && !IsNewline(b.mem[m])
    ensures Skipped(b) == Buf(b.mem, m)
  {
  }

  /** A line that is in the buffer. */
  lemma ReadBuffered(b: Buf, input: seq<string>, m: nat, e: nat)
    requires NewlinesUpTo(b, m) && m < e < MAX_AT_RESPONSE && IsNewline(b.mem[e]) && "" !in input
    requires forall k :: m <= k < e ==> !IsNewline(b.mem[k]) && b.mem[k] != NUL
    ensures ReadOn(b, input) == Reading(Some(b.mem[m..e]), Buf(b.mem[e := NUL], e + 1), input) && NextEol(Skipped(b)).Some?
  {
    SkipsTo(b, m);
    assert LineEnd(b.mem, m) == e;
    assert End(Buf(b.mem, m)) > e;
    assert Data(Buf(b.mem, m))[e - m] == b.mem[e];
  }

  predicate PromptAt(mem: seq<char>, m: nat) { m + 2 < |mem| && mem[m] == '>' && mem[m + 1] == ' ' && mem[m + 2] == NUL }

  /** A prompt at the end of the data. */
  lemma ReadPrompt(b: Buf, input: seq<string>, m: nat)
    requires NewlinesUpTo(b, m) && m + 2 <= MAX_AT_RESPONSE && PromptAt(b.mem, m) && "" !in input
    ensures ReadOn(b, input) == Reading(Some(PROMPT), Buf(b.mem, m + 3), input) && NextEol(Skipped(b)).Some?
  {
    SkipsTo(b, m);
    FirstNulIs(b.mem, m, m + 2);
    assert Data(Buf(b.mem, m)) == PROMPT;
    assert b.mem[m + 2 := NUL] == b.mem;
  }

  /** The buffer after a read() behind the partial line `d`. */
  function Arrived(b: Buf, d: string, chunk: string): (n: Buf)
    requires Sound(b) && |d| + |chunk| <= MAX_AT_RESPONSE
    ensures Sound(n)
  {
    Buf(d + chunk + [NUL] + b.mem[|d| + |chunk| + 1..], 0)
  }

  lemma BehindEmpty(b: Buf, chunk: string)
    requires Sound(b) && 0 < |chunk| <= MAX_AT_RESPONSE
    ensures Stored(Emptied(b), 0, chunk) == Arrived(b, "", chunk)
  {
    assert Emptied(b).mem[|chunk| + 1..] == b.mem[|chunk| + 1..];
    assert Emptied(b).mem[..0] + chunk == "" + chunk;
  }

  lemma BehindPartial(b: Buf, s: Buf, chunk: string)
    requires Sound(s) && b.mem == s.mem && |Data(s)| + |chunk| <= MAX_AT_RESPONSE && Sound(b)
    ensures Stored(MovedUp(s), |Data(s)|, chunk) == Arrived(b, Data(s), chunk)
  {
    var d, u := Data(s), MovedUp(s);
    FrontOverwritten(s.mem, d);
    assert u.mem[..|d|] == d;
    assert u.mem[|d| + |chunk| + 1..] == b.mem[|d| + |chunk| + 1..];
  }

  /** A read() that completes a line behind newlines and perhaps a part of it: it is as if the line had been in
      the buffer, moved to the front. */
  lemma ReadArrives(b: Buf, s: Buf, input: seq<string>, n: Buf)
    requires Sound(b) && s == Skipped(b) && NextEol(s) == None
    requires input != [] && "" !in input && |Data(s)| + |input[0]| <= MAX_AT_RESPONSE && NoNul(input[0])
    requires n == Arrived(b, Data(s), input[0]) && NextEol(Skipped(n)).Some? && "" !in input[1..]
    ensures ReadOn(b, input) == ReadOn(n, input[1..])
  {
    var d, chunk := Data(s), input[0];
    assert chunk in input;
    NotEmptyAtFront(b, d, chunk);
    if b.mem[b.cur] == NUL {
      assert d == "";
      BehindEmpty(b, chunk);
      FillStops(Emptied(b), 0, input);
    } else {
      BehindPartial(b, s, chunk);
      FillStops(MovedUp(s), |d|, input);
      LookFills(b, s, input);
    }
    ReadCuts(b, input);
    ReadCuts(n, input[1..]);
  }

  lemma NotEmptyAtFront(b: Buf, d: string, chunk: string)
    requires Sound(b) && |d| + |chunk| <= MAX_AT_RESPONSE && chunk != "" && NoNul(d) && NoNul(chunk)
    ensures Arrived(b, d, chunk).mem[0] != NUL
  {
    assert Arrived(b, d, chunk).mem[0] == if d != "" then d[0] else chunk[0];
  }

  /** Nothing but newlines, and nothing more to read. */
  lemma ReadNothing(b: Buf, m: nat)
    requires NewlinesUpTo(b, m) && b.mem[m] == NUL
    ensures ReadOn(b, []).line == None
  {
    SkipsTo(b, m);
    ReadCuts(b, []);
  }

  // ----- the same, told by how the memory begins -----

  /** A sound buffer whose memory begins with `p`. */
  ghost predicate Begins(b: Buf, p: string, cur: nat) { Sound(b) && b.cur == cur && |p| <= MAX_AT_RESPONSE && b.mem[..|p|] == p }

  lemma BeginsWith(b: Buf, p: string, cur: nat)
    requires Begins(b, p, cur)
    ensures forall k :: 0 <= k < |p| ==> b.mem[k] == p[k]
  {
    forall k | 0 <= k < |p|
      ensures b.mem[k] == p[k]
    {
      assert b.mem[..|p|][k] == p[k];
    }
  }

  /** A line of `p` from `m` to `e`, behind newlines. */
  predicate LineIn(p: string, cur: nat, m: nat, e: nat) {
    && cur <= m < e < |p| && IsNewline(p[e])
    && (forall k :: cur <= k < m ==> IsNewline(p[k])) && (forall k :: m <= k < e ==> !IsNewline(p[k]) && p[k] != NUL)
  }

  lemma LineStep(b: Buf, p: string, cur: nat, input: seq<string>, m: nat, e: nat)
    requires Begins(b, p, cur) && LineIn(p, cur, m, e) && "" !in input
    ensures var r := ReadOn(b, input);
            && r.line == Some(p[m..e]) && Begins(r.b, p[e := NUL], e + 1) && r.input == input && NextEol(Skipped(b)).Some?
  {
    BeginsWith(b, p, cur);
    ReadBuffered(b, input, m, e);
    assert b.mem[m..e] == p[m..e] && b.mem[e := NUL][..|p|] == p[e := NUL];
  }

  lemma PromptStep(b: Buf, p: string, cur: nat, input: seq<string>, m: nat)
    requires Begins(b, p, cur) && cur <= m && PromptAt(p, m) && "" !in input
    requires forall k :: cur <= k < m ==> IsNewline(p[k])
    ensures var r := ReadOn(b, input);
            r.line == Some(PROMPT) && Begins(r.b, p, m + 3) && r.input == input && NextEol(Skipped(b)).Some?
  {
    BeginsWith(b, p, cur);
    ReadPrompt(b, input, m);
  }

  /** Newlines up to `m`, and then a NUL behind the partial line `d`. */
  predicate PartIn(p: string, cur: nat, m: nat, d: string) {
    && cur <= m && m + |d| < |p| && p[m..m + |d|] == d && p[m + |d|] == NUL && d != PROMPT
    && (forall k :: cur <= k < m ==> IsNewline(p[k])) && (forall k :: 0 <= k < |d| ==> !IsNewline(d[k]) && d[k] != NUL)
  }

  function Overlaid(p: string, front: string): (q: string) { front + [NUL] + if |front| < |p| then p[|front| + 1..] else "" }

  lemma PartMeans(b: Buf, p: string, cur: nat, m: nat, d: string)
    requires Begins(b, p, cur) && PartIn(p, cur, m, d)
    ensures Skipped(b) == Buf(b.mem, m) && Data(Skipped(b)) == d && NextEol(Skipped(b)) == None
  {
    BeginsWith(b, p, cur);
    assert b.mem[m..m + |d|] == p[m..m + |d|] == d;
    forall k | m <= k < m + |d|
      ensures b.mem[k] != NUL && !IsNewline(b.mem[k])
    {
      assert b.mem[k] == d[k - m];
    }
    SkipsTo(b, m);
    FirstNulIs(b.mem, m, m + |d|);
    NoEolMeans(Skipped(b));
  }

  lemma OverlaidBegins(b: Buf, p: string, cur: nat, d: string, chunk: string)
    requires Begins(b, p, cur) && |p| <= MAX_AT_RESPONSE && |d| + |chunk| < MAX_AT_RESPONSE
    ensures Begins(Arrived(b, d, chunk), Overlaid(p, d + chunk), 0)
  {
    BeginsWith(b, p, cur);
    var f, q := |d + chunk|, Overlaid(p, d + chunk);
    var mem := Arrived(b, d, chunk).mem;
    forall k | 0 <= k < |q|
      ensures mem[k] == q[k]
    {
      if k > f {
        assert mem[k] == b.mem[f + 1..][k - f - 1] && q[k] == p[f + 1..][k - f - 1];
      }
    }
    assert mem[..|q|] == q;
  }

  /** A read() that brings a chunk behind the partial line `d`. */
  lemma ArriveStep(b: Buf, p: string, cur: nat, input: seq<string>, m: nat, d: string)
    requires Begins(b, p, cur) && PartIn(p, cur, m, d)
    requires input != [] && "" !in input && "" !in input[1..] && |d| + |input[0]| < MAX_AT_RESPONSE && NoNul(input[0])
    ensures Begins(Arrived(b, d, input[0]), Overlaid(p, d + input[0]), 0)
    ensures NextEol(Skipped(Arrived(b, d, input[0]))).Some? ==> ReadOn(b, input) == ReadOn(Arrived(b, d, input[0]), input[1..])
  {
    PartMeans(b, p, cur, m, d);
    OverlaidBegins(b, p, cur, d, input[0]);
    if NextEol(Skipped(Arrived(b, d, input[0]))).Some? {
      ReadArrives(b, Skipped(b), input, Arrived(b, d, input[0]));
    }
  }

  /** It completes a line. */
  lemma ArriveLine(b: Buf, p: string, cur: nat, input: seq<string>, m: nat, d: string, q: string, i: nat, e: nat)
    requires Begins(b, p, cur) && PartIn(p, cur, m, d)
    requires input != [] && "" !in input && "" !in input[1..] && |d| + |input[0]| < MAX_AT_RESPONSE && NoNul(input[0])
    requires q == Overlaid(p, d + input[0]) && LineIn(q, 0, i, e)
    ensures var r := ReadOn(b, input);
            r.line == Some(q[i..e]) && Begins(r.b, q[e := NUL], e + 1) && r.input == input[1..]
  {
    ArriveStep(b, p, cur, input, m, d);
    LineStep(Arrived(b, d, input[0]), q, 0, input[1..], i, e);
  }

  /** It completes a prompt. */
  lemma ArrivePrompt(b: Buf, p: string, cur: nat, input: seq<string>, m: nat, d: string, q: string, i: nat)
    requires Begins(b, p, cur) && PartIn(p, cur, m, d)
    requires input != [] && "" !in input && "" !in input[1..] && |d| + |input[0]| < MAX_AT_RESPONSE && NoNul(input[0])
    requires q == Overlaid(p, d + input[0]) && PromptAt(q, i) && forall k :: 0 <= k < i ==> IsNewline(q[k])
    ensures var r := ReadOn(b, input);
            r.line == Some(PROMPT) && Begins(r.b, q, i + 3) && r.input == input[1..]
  {
    ArriveStep(b, p, cur, input, m, d);
    PromptStep(Arrived(b, d, input[0]), q, 0, input[1..], i);
  }

  // ----- an answer that is there before the command -----

  const ANSWERED: string := "\r\n7\r\n\r\nOK\r\n"
  const PROMPTED: string := "\r\n> "
  const SENT: string := "\r\n+CMGS: 5\r\n\r\nOK\r\n"

  /** How the memory begins after each line. */
  const AFTER_7: string := "\r\n7\0\n\r\nOK\r\n\0"
  const AFTER_OK: string := "\r\n7\0\n\r\nOK\0\n\0"
  const AFTER_PROMPT: string := "\r\n> \0\r\nOK\0\n\0"
  const AFTER_STALE: string := "OK\0\n+CMGS: 5\r\n\r\nOK\r\n\0"
  const AFTER_CMGS: string := "OK\0\n+CMGS: 5\0\n\r\nOK\r\n\0"
  const AFTER_ALL: string := "OK\0\n+CMGS: 5\0\n\r\nOK\0\n\0"

  lemma Texts()
    ensures PartIn([NUL], 0, 0, "") && NoNul(ANSWERED) && LineIn(ANSWERED + [NUL], 0, 2, 3) && (ANSWERED + [NUL])[2..3] == "7"
    ensures Overlaid([NUL], "" + ANSWERED) == ANSWERED + [NUL] && (ANSWERED + [NUL])[3 := NUL] == AFTER_7
    ensures LineIn(AFTER_7, 4, 7, 9) && AFTER_7[7..9] == "OK" && AFTER_7[9 := NUL] == AFTER_OK
  {
  }

  lemma PromptTexts()
    ensures PartIn(AFTER_OK, 10, 11, "") && NoNul(PROMPTED) && Overlaid(AFTER_OK, "" + PROMPTED) == AFTER_PROMPT
    ensures PromptAt(AFTER_PROMPT, 2) && IsNewline(AFTER_PROMPT[0]) && IsNewline(AFTER_PROMPT[1])
    ensures PartIn(AFTER_PROMPT, 5, 7, "OK")
  {
  }

  /** How it begins when the last chunk has arrived behind the stale OK. */
  const ARRIVED: string := "OK\r\n+CMGS: 5\r\n\r\nOK\r\n\0"

  lemma SentArrives()
    ensures NoNul(SENT) && Overlaid(AFTER_PROMPT, "OK" + SENT) == ARRIVED
  {
    assert "OK" + SENT == ARRIVED[..20];
  }

  lemma SentTexts()
    ensures LineIn(ARRIVED, 0, 0, 2) && ARRIVED[0..2] == "OK" && ARRIVED[2 := NUL] == AFTER_STALE
  {
  }

  lemma CmgsTexts()
    ensures LineIn(AFTER_STALE, 3, 4, 12) && AFTER_STALE[4..12] == "+CMGS: 5" && AFTER_STALE[12 := NUL] == AFTER_CMGS
  {
  }

  lemma LastTexts()
    ensures LineIn(AFTER_CMGS, 13, 16, 18) && AFTER_CMGS[16..18] == "OK" && AFTER_CMGS[18 := NUL] == AFTER_ALL
    ensures IsNewline(AFTER_ALL[19]) && AFTER_ALL[20] == NUL
  {
  }

  /** readline() returns `lines` and then fails. */
  ghost predicate Reads(b: Buf, input: seq<string>, lines: seq<string>) {
    Sound(b) && "" !in input && ReadAll(b, input) == (lines, false)
  }

  lemma ReadsFirst(b: Buf, input: seq<string>, lines: seq<string>)
    requires Sound(b) && "" !in input && ReadOn(b, input).line.Some? && Sound(ReadOn(b, input).b)
    requires Reads(ReadOn(b, input).b, ReadOn(b, input).input, lines)
    ensures Reads(b, input, [ReadOn(b, input).line.value] + lines)
  {
  }

  lemma NothingIsLeft(b: Buf)
    requires Begins(b, AFTER_ALL, 19)
    ensures Reads(b, [], [])
  {
    LastTexts();
    BeginsWith(b, AFTER_ALL, 19);
    ReadNothing(b, 20);
  }

  lemma LastIsRead(b: Buf)
    requires Begins(b, AFTER_CMGS, 13)
    ensures Reads(b, [], ["OK"] + [])
  {
    LastTexts();
    LineStep(b, AFTER_CMGS, 13, [], 16, 18);
    NothingIsLeft(ReadOn(b, []).b);
    ReadsFirst(b, [], []);
  }

  lemma CmgsIsRead(b: Buf)
    requires Begins(b, AFTER_STALE, 3)
    ensures Reads(b, [], ["+CMGS: 5"] + (["OK"] + []))
  {
    CmgsTexts();
    LineStep(b, AFTER_STALE, 3, [], 4, 12);
    LastIsRead(ReadOn(b, []).b);
    ReadsFirst(b, [], ["OK"] + []);
  }

  lemma StaleIsRead(b: Buf, later: seq<string>)
    requires Begins(b, AFTER_PROMPT, 5) && later == ["+CMGS: 5"] + (["OK"] + [])
    ensures Reads(b, [SENT], ["OK"] + later)
  {
    SentArrives();
    SentTexts();
    assert [SENT][1..] == [];
    ArriveLine(b, AFTER_PROMPT, 5, [SENT], 7, "OK", ARRIVED, 0, 2);
    CmgsIsRead(ReadOn(b, [SENT]).b);
    ReadsFirst(b, [SENT], later);
  }

  lemma PromptIsRead(b: Buf, later: seq<string>)
    requires Begins(b, AFTER_OK, 10) && later == ["+CMGS: 5"] + (["OK"] + [])
    ensures Reads(b, [PROMPTED, SENT], [PROMPT] + (["OK"] + later))
  {
    var input := [PROMPTED, SENT];
    PromptTexts();
    assert input[1..] == [SENT];
    ArrivePrompt(b, AFTER_OK, 10, input, 11, "", AFTER_PROMPT, 2);
    StaleIsRead(ReadOn(b, input).b, later);
    ReadsFirst(b, input, ["OK"] + later);
  }

  lemma OkIsRead(b: Buf, later: seq<string>)
    requires Begins(b, AFTER_7, 4) && later == ["+CMGS: 5"] + (["OK"] + [])
    ensures Reads(b, [PROMPTED, SENT], ["OK"] + ([PROMPT] + (["OK"] + later)))
  {
    Texts();
    LineStep(b, AFTER_7, 4, [PROMPTED, SENT], 7, 9);
    PromptIsRead(ReadOn(b, [PROMPTED, SENT]).b, later);
    ReadsFirst(b, [PROMPTED, SENT], [PROMPT] + (["OK"] + later));
  }

  lemma FirstIsRead(b: Buf, later: seq<string>)
    requires b == Unused() && later == ["+CMGS: 5"] + (["OK"] + [])
    ensures Reads(b, [ANSWERED, PROMPTED, SENT], ["7"] + (["OK"] + ([PROMPT] + (["OK"] + later))))
  {
    var input := [ANSWERED, PROMPTED, SENT];
    Texts();
    assert input[1..] == [PROMPTED, SENT] && b.mem[..1] == [NUL];
    ArriveLine(b, [NUL], 0, input, 0, "", ANSWERED + [NUL], 2, 3);
    OkIsRead(ReadOn(b, input).b, later);
    ReadsFirst(b, input, ["OK"] + ([PROMPT] + (["OK"] + later)));
  }

  lemma SixLines(a: string, b: string, c: string, d: string, e: string, f: string)
    ensures [a] + ([b] + ([c] + ([d] + ([e] + ([f] + []))))) == [a, b, c, d, e, f]
  {
  }

  /** An answer, a prompt, and the answer to what is sent behind the prompt: the OK of the first answer comes
      out once more, between the prompt and the second answer. */
  lemma StaleLineIsRead()
    ensures Reads(Unused(), [ANSWERED, PROMPTED, SENT], ["7", "OK", PROMPT, "OK", "+CMGS: 5", "OK"])
  {
    FirstIsRead(Unused(), ["+CMGS: 5"] + (["OK"] + []));
    SixLines("7", "OK", PROMPT, "OK", "+CMGS: 5", "OK");
  }

  /** To the command that was waiting for the prompt, the stale OK is its final result: it is complete and
      successful before its answer is read, and has no intermediate line. */
  lemma StaleOkEndsCommand(pdu: string, id: nat)
    ensures var c := Command(SingleLine, Some("+CMGS:"), Some(pdu));
            var ch := Feed(Started(c, id), [PROMPT, "OK"]);
            ch.pdu == None && ch.response == Some(Response(id, [], Some("OK"), 1))
  {
    var c := Command(SingleLine, Some("+CMGS:"), Some(pdu));
    PromptIsNotFinal();
    assert FINAL_SUCCESS[0] <= "OK";
    FedOnce(Started(c, id), [], PROMPT);
    FedOnce(Started(c, id), [PROMPT], "OK");
    assert [] + [PROMPT] == [PROMPT] && [PROMPT] + ["OK"] == [PROMPT, "OK"];
  }

  lemma FedOnce(ch: Channel, lines: seq<string>, line: string)
    requires Routable(ch)
    ensures Feed(ch, lines + [line]) == Route(Feed(ch, lines), line).0
  {
    assert (lines + [line])[..|lines|] == lines;
  }

  // ----- the edge of the buffer -----

  /** A read that fills the buffer to its last byte with a prompt. */
  function EdgeOfBuffer(): (t: string) { seq(8190, _ => '\n') + "> " }

  lemma EdgeArrives(n: Buf)
    requires n == Arrived(Unused(), "", EdgeOfBuffer())
    ensures NewlinesUpTo(n, MAX_AT_RESPONSE - 2) && PromptAt(n.mem, MAX_AT_RESPONSE - 2) && NoNul(EdgeOfBuffer())
  {
    var edge := EdgeOfBuffer();
    assert forall k :: 0 <= k < MAX_AT_RESPONSE ==> n.mem[k] == edge[k];
    assert n.mem[MAX_AT_RESPONSE] == NUL;
  }

  /** It leaves the cursor one past the buffer. */
  lemma PromptAtTheEdge()
    ensures ReadOn(Unused(), [EdgeOfBuffer()]).line == Some(PROMPT)
    ensures |ReadOn(Unused(), [EdgeOfBuffer()]).b.mem| == 8193 == ReadOn(Unused(), [EdgeOfBuffer()]).b.cur
    ensures ReadAll(Unused(), [EdgeOfBuffer()]) == (["> "], true)
  {
    var b, input, n := Unused(), [EdgeOfBuffer()], Arrived(Unused(), "", EdgeOfBuffer());
    EdgeArrives(n);
    ReadPrompt(n, [], MAX_AT_RESPONSE - 2);
    assert input[1..] == [] && b.mem[..1] == [NUL];
    PartMeans(b, [NUL], 0, 0, "");
    ReadArrives(b, Skipped(b), input, n);
  }
}
