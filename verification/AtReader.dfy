/** The reader thread from the byte stream to the dispositions of its lines. */
module AtReader {
  import opened Wrappers
  import opened AtLines
  import opened AtDispatch
  import opened AtStream
  import opened AtFraming

  /** What becomes of a line: routed by processLine, half of an SMS notification that bypasses it,
      or an SMS header that never got its second line because the channel closed. */
  datatype Fate = Routed(line: string, disposition: Disposition) | SmsPair(header: string, body: string) | SmsLost(header: string)

  type HandlerCall = (string, Option<string>)

  /** The reader loop over the lines that readline() delivers. */
  function ReaderRun(ch: Channel, lines: seq<string>): (r: (Channel, seq<Fate>))
    requires Routable(ch)
    ensures Routable(r.0)
    decreases |lines|
  {
    if lines == [] then (ch, [])
    else if IsSmsUnsolicited(lines[0]) then
      if |lines| == 1 then (ch, [SmsLost(lines[0])])
      else
        var (after, fates) := ReaderRun(ch, lines[2..]);
        (after, [SmsPair(lines[0], lines[1])] + fates)
    else
      var (next, d) := Route(ch, lines[0]);
      var (after, fates) := ReaderRun(next, lines[1..]);
      (after, [Routed(lines[0], d)] + fates)
  }

  function LinesOf(fates: seq<Fate>): (lines: seq<string>) {
    if fates == [] then []
    else (match fates[0]
          case Routed(line, _) => [line]
          case SmsPair(header, body) => [header, body]
          case SmsLost(header) => [header]) + LinesOf(fates[1..])
  }

  function RoutedLines(fates: seq<Fate>): (lines: seq<string>) {
    if fates == [] then [] else (if fates[0].Routed? then [fates[0].line] else []) + RoutedLines(fates[1..])
  }

  /** The calls of the unsolicited handler that the fates stand for. */
  function HandlerCalls(fates: seq<Fate>): (calls: seq<HandlerCall>) {
    if fates == [] then []
    else (match fates[0]
          case Routed(line, d) => if d.Unsolicited? then [(line, None)] else []
          case SmsPair(header, body) => [(header, Some(body))]
          case SmsLost(_) => []) + HandlerCalls(fates[1..])
  }

  /** What the reader writes to the modem, each text followed by a Ctrl-Z. */
  function Written(fates: seq<Fate>): (texts: seq<string>) {
    if fates == [] then []
    else (if fates[0].Routed? && fates[0].disposition.Prompt? then [fates[0].disposition.pdu] else []) + Written(fates[1..])
  }

  /** Every line gets exactly one fate, in order; only a last line can be lost. */
  lemma {:induction false} EachLineOnce(ch: Channel, lines: seq<string>)
    requires Routable(ch)
    ensures LinesOf(ReaderRun(ch, lines).1) == lines
    ensures forall k :: 0 <= k < |ReaderRun(ch, lines).1| && ReaderRun(ch, lines).1[k].SmsLost? ==> k == |ReaderRun(ch, lines).1| - 1
    decreases |lines|
  {
    if lines != [] {
      if IsSmsUnsolicited(lines[0]) {
        if |lines| > 1 {
          EachLineOnce(ch, lines[2..]);
          assert lines == lines[..2] + lines[2..];
        }
      } else {
        EachLineOnce(Route(ch, lines[0]).0, lines[1..]);
        assert lines == [lines[0]] + lines[1..];
      }
    }
  }

  /** Without SMS notifications every line is routed. */
  lemma {:induction false} AllRouted(ch: Channel, lines: seq<string>)
    requires Routable(ch) && forall k :: 0 <= k < |lines| ==> !IsSmsUnsolicited(lines[k])
    ensures RoutedLines(ReaderRun(ch, lines).1) == lines
    decreases |lines|
  {
    if lines != [] {
      AllRouted(Route(ch, lines[0]).0, lines[1..]);
      assert lines == [lines[0]] + lines[1..];
    }
  }

  lemma {:induction false} FeedFromFront(ch: Channel, line: string, lines: seq<string>)
    requires Routable(ch)
    ensures Feed(ch, [line] + lines) == Feed(Route(ch, line).0, lines)
  {
    var all := [line] + lines;
    if lines == [] {
      assert all[..0] == [];
      assert Feed(ch, all[..0]) == ch;
    } else {
      var init := lines[..|lines| - 1];
      FeedFromFront(ch, line, init);
      assert all[..|all| - 1] == [line] + init;
    }
  }

  /** SMS pairs leave the pending command alone: the channel is what the other lines make of it. */
  lemma {:induction false} RunFeedsTheRest(ch: Channel, lines: seq<string>)
    requires Routable(ch)
    ensures ReaderRun(ch, lines).0 == Feed(ch, RoutedLines(ReaderRun(ch, lines).1))
    decreases |lines|
  {
    if lines != [] {
      if IsSmsUnsolicited(lines[0]) {
        if |lines| > 1 {
          RunFeedsTheRest(ch, lines[2..]);
          assert ReaderRun(ch, lines).1[1..] == ReaderRun(ch, lines[2..]).1;
          assert RoutedLines(ReaderRun(ch, lines).1) == RoutedLines(ReaderRun(ch, lines[2..]).1);
        } else {
          assert ReaderRun(ch, lines).1[1..] == [];
          assert RoutedLines(ReaderRun(ch, lines).1) == [];
        }
      } else {
        var (next, d) := Route(ch, lines[0]);
        RunFeedsTheRest(next, lines[1..]);
        assert ReaderRun(ch, lines).1[1..] == ReaderRun(next, lines[1..]).1;
        FeedFromFront(ch, lines[0], RoutedLines(ReaderRun(next, lines[1..]).1));
      }
    }
  }

  /** Whatever lines readline() delivers after a command has been started, the channel ends up holding
      the answer that the ones among them without a part in an SMS notification contain. */
  lemma RunAnswersCommand(c: Command, id: nat, lines: seq<string>)
    requires WellFormed(c)
    ensures
      var (ch, fates) := ReaderRun(Started(c, id), lines);
      LinesOf(fates) == lines && Means(c, id, RoutedLines(fates), ch)
  {
    EachLineOnce(Started(c, id), lines);
    RunFeedsTheRest(Started(c, id), lines);
    FeedMeaning(c, id, RoutedLines(ReaderRun(Started(c, id), lines).1));
  }

  lemma {:induction false} RunKeepsClosed(ch: Channel, lines: seq<string>)
    requires Routable(ch)
    ensures ReaderRun(ch, lines).0.readerClosed == ch.readerClosed
    decreases |lines|
  {
    if lines != [] {
      if !IsSmsUnsolicited(lines[0]) {
        RunKeepsClosed(Route(ch, lines[0]).0, lines[1..]);
      } else if |lines| > 1 {
        RunKeepsClosed(ch, lines[2..]);
      }
    }
  }

  // ----- which line is lost -----

  /** How many lines at the end are SMS headers. */
  function TrailingHeaders(lines: seq<string>): (n: nat)
    ensures n <= |lines|
  {
    if lines == [] || !IsSmsUnsolicited(lines[|lines| - 1]) then 0 else 1 + TrailingHeaders(lines[..|lines| - 1])
  }

  lemma {:induction false} TrailingSplit(lines: seq<string>, k: nat)
    requires k <= |lines|
    ensures TrailingHeaders(lines) ==
            TrailingHeaders(lines[k..]) + if TrailingHeaders(lines[k..]) == |lines| - k then TrailingHeaders(lines[..k]) else 0
    decreases |lines|
  {
    if k == |lines| {
      assert lines[..k] == lines;
    } else {
      var init := lines[..|lines| - 1];
      assert lines[k..][..|lines| - k - 1] == init[k..] && init[..k] == lines[..k];
      TrailingSplit(init, k);
    }
  }

  lemma RoutedLineCountsNot(lines: seq<string>)
    requires lines != [] && !IsSmsUnsolicited(lines[0])
    ensures TrailingHeaders(lines) == TrailingHeaders(lines[1..])
  {
    TrailingSplit(lines, 1);
    assert lines[..1][0] == lines[0];
  }

  lemma PairAlone(pair: seq<string>)
    requires |pair| == 2 && IsSmsUnsolicited(pair[0])
    ensures TrailingHeaders(pair) == if IsSmsUnsolicited(pair[1]) then 2 else 0
  {
    assert pair[..1] == [pair[0]] && [pair[0]][..0] == [];
  }

  lemma PairCountsTwice(lines: seq<string>)
    requires |lines| > 1 && IsSmsUnsolicited(lines[0])
    ensures TrailingHeaders(lines) % 2 == TrailingHeaders(lines[2..]) % 2
  {
    TrailingSplit(lines, 2);
    PairAlone(lines[..2]);
    AddEven(TrailingHeaders(lines), TrailingHeaders(lines[2..]), TrailingHeaders(lines[..2]), TrailingHeaders(lines[2..]) == |lines| - 2);
  }

  lemma AddEven(sum: nat, n: nat, m: nat, added: bool)
    requires sum == n + (if added then m else 0) && (m == 0 || m == 2)
    ensures sum % 2 == n % 2
  {
  }

  ghost predicate LosesHeader(fates: seq<Fate>) { fates != [] && fates[|fates| - 1].SmsLost? }

  lemma LosesLater(first: Fate, fates: seq<Fate>)
    requires !first.SmsLost?
    ensures LosesHeader([first] + fates) <==> LosesHeader(fates)
  {
  }

  /** A header is lost exactly if the number of headers at the end of the lines is odd: every other one
      is taken for the body of the one before it. */
  lemma {:induction false} HeaderIsLostExactly(ch: Channel, lines: seq<string>)
    requires Routable(ch)
    ensures LosesHeader(ReaderRun(ch, lines).1) <==> TrailingHeaders(lines) % 2 == 1
    decreases |lines|
  {
    if lines != [] {
      if !IsSmsUnsolicited(lines[0]) {
        var (next, d) := Route(ch, lines[0]);
        HeaderIsLostExactly(next, lines[1..]);
        RoutedLineCountsNot(lines);
        LosesLater(Routed(lines[0], d), ReaderRun(next, lines[1..]).1);
      } else if |lines| > 1 {
        HeaderIsLostExactly(ch, lines[2..]);
        PairCountsTwice(lines);
        LosesLater(SmsPair(lines[0], lines[1]), ReaderRun(ch, lines[2..]).1);
      } else {
        assert lines[..0] == [];
      }
    }
  }

  lemma LoneLine(line: string)
    requires ProperLine(line)
    ensures Lines(line + "\r\n") == [line]
  {
    NoNextLine("\n", 1);
    FirstPrintedLine("", line, '\r', "\n");
    assert "" + line + ['\r'] + "\n" == line + "\r\n";
  }

  /** A stream of one SMS header: the handler is never called. */
  lemma LoneHeaderIsLost(ch: Channel)
    requires Routable(ch)
    ensures var run := ReaderRun(ch, Lines("+CMT: 5" + "\r\n"));
            run == (ch, [SmsLost("+CMT: 5")]) && HandlerCalls(run.1) == []
  {
    var line := "+CMT: 5";
    LoneLine(line);
    assert SMS_UNSOLICITED[0] <= line;
    CallsOfOne(SmsLost(line));
  }

  // ----- runs in pieces -----

  lemma RunOfLine(ch: Channel, line: string)
    requires Routable(ch) && !IsSmsUnsolicited(line)
    ensures ReaderRun(ch, [line]) == (Route(ch, line).0, [Routed(line, Route(ch, line).1)])
  {
    var routed := [Routed(line, Route(ch, line).1)];
    assert [line][1..] == [] && routed + [] == routed;
  }

  lemma RunOfPair(ch: Channel, header: string, body: string)
    requires Routable(ch) && IsSmsUnsolicited(header)
    ensures ReaderRun(ch, [header, body]) == (ch, [SmsPair(header, body)])
  {
    var pair := [SmsPair(header, body)];
    assert [header, body][2..] == [] && pair + [] == pair;
  }

  /** `b` follows on `a`, where `all` is the whole. */
  ghost predicate Joined(all: (Channel, seq<Fate>), a: seq<Fate>, b: (Channel, seq<Fate>)) {
    all == (b.0, a + b.1)
  }

  lemma JoinedLater(first: Fate, all: (Channel, seq<Fate>), a: seq<Fate>, b: (Channel, seq<Fate>))
    requires Joined(all, a, b)
    ensures Joined((all.0, [first] + all.1), [first] + a, b)
  {
    assert [first] + (a + b.1) == [first] + a + b.1;
  }

  /** If no header is lost, the run goes on where it has got to. */
  lemma {:induction false} RunContinues(ch: Channel, done: seq<string>, more: seq<string>)
    requires Routable(ch) && !LosesHeader(ReaderRun(ch, done).1)
    ensures Joined(ReaderRun(ch, done + more), ReaderRun(ch, done).1, ReaderRun(ReaderRun(ch, done).0, more))
    decreases |done|
  {
    if done == [] {
      assert done + more == more;
      assert [] + ReaderRun(ch, more).1 == ReaderRun(ch, more).1;
    } else if !IsSmsUnsolicited(done[0]) {
      var (next, d) := Route(ch, done[0]);
      assert (done + more)[1..] == done[1..] + more;
      LosesLater(Routed(done[0], d), ReaderRun(next, done[1..]).1);
      RunContinues(next, done[1..], more);
      JoinedLater(Routed(done[0], d), ReaderRun(next, done[1..] + more), ReaderRun(next, done[1..]).1, ReaderRun(ReaderRun(ch, done).0, more));
    } else if |done| > 1 {
      assert (done + more)[2..] == done[2..] + more;
      LosesLater(SmsPair(done[0], done[1]), ReaderRun(ch, done[2..]).1);
      RunContinues(ch, done[2..], more);
      JoinedLater(SmsPair(done[0], done[1]), ReaderRun(ch, done[2..] + more), ReaderRun(ch, done[2..]).1, ReaderRun(ReaderRun(ch, done).0, more));
    }
  }

  lemma CallsConcat(a: seq<Fate>, b: seq<Fate>)
    ensures HandlerCalls(a + b) == HandlerCalls(a) + HandlerCalls(b)
  {
    if a != [] {
      assert (a + b)[1..] == a[1..] + b;
      CallsConcat(a[1..], b);
    } else {
      assert a + b == b;
    }
  }

  lemma {:induction false} WrittenConcat(a: seq<Fate>, b: seq<Fate>)
    ensures Written(a + b) == Written(a) + Written(b)
  {
    if a == [] {
      assert a + b == b;
    } else {
      assert (a + b)[1..] == a[1..] + b;
      WrittenConcat(a[1..], b);
    }
  }

  lemma CallsOfOne(f: Fate)
    ensures f.Routed? ==> HandlerCalls([f]) == if f.disposition.Unsolicited? then [(f.line, None)] else []
    ensures f.SmsPair? ==> HandlerCalls([f]) == [(f.header, Some(f.body))]
    ensures f.SmsLost? ==> HandlerCalls([f]) == []
    ensures Written([f]) == if f.Routed? && f.disposition.Prompt? then [f.disposition.pdu] else []
  {
    assert [f][1..] == [];
  }

  // ----- the loop -----

  /** After a turn: the loop goes on, readline() has failed, or a prompt at the very end of the buffer
      has left the cursor past it, so that nothing is known of what the source does next. */
  datatype After = More | Ended | Overrun

  /** What readline() delivers: lines without newlines and NULs in them. */
  ghost predicate Readable(lines: seq<string>) { forall k :: 0 <= k < |lines| ==> ProperLine(lines[k]) && NoNul(lines[k]) }

  /** All lines to come and whether the cursor ends up outside the buffer, of a reader that may have failed. */
  ghost function Left(reader: LineReader, after: After): (r: (seq<string>, bool))
    requires after.More? ==> reader.Valid()
    reads reader, reader.buf
  {
    if after.More? then ReadAll(reader.Value(), reader.input) else ([], after.Overrun?)
  }

  /** The lines `got` have been read out of `all`, and `left` remain. */
  ghost predicate Consumed(all: (seq<string>, bool), got: seq<string>, left: (seq<string>, bool)) {
    all == (got + left.0, left.1)
  }

  lemma ConsumedOn(all: (seq<string>, bool), got: seq<string>, mid: (seq<string>, bool), more: seq<string>, left: (seq<string>, bool))
    requires Consumed(all, got, mid) && Consumed(mid, more, left)
    ensures Consumed(all, got + more, left)
  {
    assert got + (more + left.0) == got + more + left.0;
  }

  lemma AddNothing(got: seq<string>)
    ensures got + [] == got
  {
  }

  /** How the loop gets on: every turn takes bytes from the port or moves the cursor. */
  ghost predicate Further(left: nat, at: nat, leftBefore: nat, atBefore: nat) {
    left < leftBefore || (left == leftBefore && atBefore < at)
  }

  method UnsolHandler(ctx: AtContext, line: string, pdu: string)
    modifies ctx`unsolicited
    ensures ctx.unsolicited == old(ctx.unsolicited) + [(line, Some(pdu))]
  {
    ctx.unsolicited := ctx.unsolicited + [(line, Some(pdu))];
  }

  lemma NoneOfAll(b: Buf, input: seq<string>)
    requires Sound(b) && "" !in input && ReadOn(b, input).line == None
    ensures Consumed(ReadAll(b, input), [], ([], false))
  {
    AddNothing([]);
  }

  lemma LastOfAll(b: Buf, input: seq<string>)
    requires Sound(b) && "" !in input && ReadOn(b, input).line.Some? && ReadOn(b, input).b.cur > MAX_AT_RESPONSE
    ensures Consumed(ReadAll(b, input), [ReadOn(b, input).line.value], ([], true))
  {
    AddNothing([ReadOn(b, input).line.value]);
  }

  lemma FirstOfAll(b: Buf, input: seq<string>)
    requires Sound(b) && "" !in input && ReadOn(b, input).line.Some? && ReadOn(b, input).b.cur <= MAX_AT_RESPONSE
    ensures Consumed(ReadAll(b, input), [ReadOn(b, input).line.value], ReadAll(ReadOn(b, input).b, ReadOn(b, input).input))
  {
  }

  /** One call of readline(), which is the end of what the code defines if a prompt has moved the cursor past
      the buffer. */
  method Get(reader: LineReader) returns (line: Option<string>, after: After)
    requires reader.Valid()
    modifies reader`cur, reader`input, reader.buf
    ensures line == None <==> after.Ended?
    ensures line.Some? ==> Readable([line.value])
    ensures after.More? ==> reader.Valid() && Further(|Flat(reader.input)|, reader.cur, |Flat(old(reader.input))|, old(reader.cur))
    ensures after.Overrun? ==> line == Some(PROMPT) && reader.cur == MAX_AT_RESPONSE + 1
    ensures Consumed(ReadAll(old(reader.Value()), old(reader.input)), if line.Some? then [line.value] else [], Left(reader, after))
  {
    ghost var b, input := reader.Value(), reader.input;
    line := reader.ReadLine();
    if line == None {
      after := Ended;
      NoneOfAll(b, input);
    } else if reader.cur <= MAX_AT_RESPONSE {
      after := More;
      FirstOfAll(b, input);
    } else {
      after := Overrun;
      LastOfAll(b, input);
    }
  }

  /** What the handler is told of a header and the line behind it, if there is one. */
  method Notify(ctx: AtContext, header: string, body: Option<string>) returns (ghost fate: Fate)
    requires ctx.Valid()
    modifies ctx`unsolicited
    ensures ctx.Valid() && ctx.View() == old(ctx.View())
    ensures fate == if body == None then SmsLost(header) else SmsPair(header, body.value)
    ensures ctx.unsolicited == old(ctx.unsolicited) + HandlerCalls([fate]) && Written([fate]) == []
  {
    fate := if body == None then SmsLost(header) else SmsPair(header, body.value);
    if body.Some? {
      UnsolHandler(ctx, header, body.value);
    }
    CallsOfOne(fate);
  }

  /** The SMS branch: the header has been read, its second line has not. */
  method SmsTurn(reader: LineReader, ctx: AtContext, header: string) returns (ghost got: seq<string>, ghost fates: seq<Fate>, after: After)
    requires reader.Valid() && ctx.Valid() && IsSmsUnsolicited(header)
    modifies reader`cur, reader`input, reader.buf, ctx`unsolicited
    ensures ctx.Valid() && ctx.View() == old(ctx.View())
    ensures after.Ended? ==> got == [] && fates == [SmsLost(header)]
    ensures !after.Ended? ==> |got| == 1 && Readable(got) && fates == [SmsPair(header, got[0])]
    ensures ctx.unsolicited == old(ctx.unsolicited) + HandlerCalls(fates) && Written(fates) == []
    ensures after.More? ==> reader.Valid() && Further(|Flat(reader.input)|, reader.cur, |Flat(old(reader.input))|, old(reader.cur))
    ensures after.Overrun? ==> got == [PROMPT] && reader.cur == MAX_AT_RESPONSE + 1
    ensures Consumed(ReadAll(old(reader.Value()), old(reader.input)), got, Left(reader, after))
  {
    var body;
    body, after := Get(reader);
    ghost var left := Left(reader, after);
    ghost var fate := Notify(ctx, header, body);
    assert Left(reader, after) == left;
    got, fates := if body == None then [] else [body.value], [fate];
  }

  method RoutedTurn(ctx: AtContext, line: string) returns (ghost fates: seq<Fate>)
    requires ctx.Valid() && !IsSmsUnsolicited(line)
    modifies ctx, ctx.response
    ensures ctx.Valid() && ctx.response == old(ctx.response)
    ensures |fates| == 1 && fates[0].Routed? && (ctx.View(), fates) == ReaderRun(old(ctx.View()), [line])
    ensures ctx.unsolicited == old(ctx.unsolicited) + HandlerCalls(fates) && ctx.ctrlZ == old(ctx.ctrlZ) + Written(fates)
  {
    RunOfLine(ctx.View(), line);
    ghost var d := ctx.ProcessLine(line);
    fates := [Routed(line, d)];
    CallsOfOne(fates[0]);
  }

  /** What the loop does with a line. */
  method LineTurn(reader: LineReader, ctx: AtContext, line: string, was: After)
    returns (ghost more: seq<string>, ghost fates: seq<Fate>, after: After)
    requires ctx.Valid() && !was.Ended? && (was.More? ==> reader.Valid()) && (was.Overrun? ==> line == PROMPT && reader.cur == MAX_AT_RESPONSE + 1)
    modifies reader`cur, reader`input, reader.buf, ctx, ctx.response
    ensures ctx.Valid() && ctx.response == old(ctx.response)
    ensures (ctx.View(), fates) == ReaderRun(old(ctx.View()), [line] + more) && Readable(more)
    ensures ctx.unsolicited == old(ctx.unsolicited) + HandlerCalls(fates) && ctx.ctrlZ == old(ctx.ctrlZ) + Written(fates)
    ensures after.More? ==> !LosesHeader(fates) && reader.Valid() && was.More?
    ensures after.More? ==> (reader.input == old(reader.input) && reader.cur == old(reader.cur))
                            || Further(|Flat(reader.input)|, reader.cur, |Flat(old(reader.input))|, old(reader.cur))
    ensures after.Overrun? ==> ([line] + more)[|more|] == PROMPT && reader.cur == MAX_AT_RESPONSE + 1
    ensures Consumed(old(Left(reader, was)), more, Left(reader, after))
  {
    var sms := MatchesTable(line, SMS_UNSOLICITED);
    if sms {
      HeaderIsNoPrompt(line);
      more, fates, after := SmsTurn(reader, ctx, line);
      SmsRun(ctx.View(), line, [line] + more, fates);
    } else {
      fates := RoutedTurn(ctx, line);
      more, after := [], was;
      AddNothing([line]);
      assert Consumed(Left(reader, was), [], Left(reader, was)) by {
        assert [] + Left(reader, was).0 == Left(reader, was).0;
      }
    }
  }

  /** One turn of readerLoop, whatever the stream. */
  method Turn(reader: LineReader, ctx: AtContext) returns (ghost got: seq<string>, ghost fates: seq<Fate>, after: After)
    requires reader.Valid() && ctx.Valid()
    modifies reader`cur, reader`input, reader.buf, ctx, ctx.response
    ensures ctx.Valid() && ctx.response == old(ctx.response)
    ensures (ctx.View(), fates) == ReaderRun(old(ctx.View()), got) && Readable(got)
    ensures ctx.unsolicited == old(ctx.unsolicited) + HandlerCalls(fates) && ctx.ctrlZ == old(ctx.ctrlZ) + Written(fates)
    ensures after.More? ==> got != [] && !LosesHeader(fates) && reader.Valid()
    ensures after.More? ==> Further(|Flat(reader.input)|, reader.cur, |Flat(old(reader.input))|, old(reader.cur))
    ensures after.Overrun? ==> got != [] && got[|got| - 1] == PROMPT && reader.cur == MAX_AT_RESPONSE + 1
    ensures Consumed(ReadAll(old(reader.Value()), old(reader.input)), got, Left(reader, after))
  {
    ghost var all := ReadAll(reader.Value(), reader.input);
    var line;
    line, after := Get(reader);
    got, fates := [], [];
    if line.Some? {
      ghost var more, mid := [], Left(reader, after);
      more, fates, after := LineTurn(reader, ctx, line.value, after);
      got := [line.value] + more;
      ReadableConcat([line.value], more);
      ConsumedOn(all, [line.value], mid, more, Left(reader, after));
    }
  }

  lemma SmsRun(ch: Channel, header: string, got: seq<string>, fates: seq<Fate>)
    requires Routable(ch) && IsSmsUnsolicited(header) && got != [] && got[0] == header
    requires if |got| == 1 then fates == [SmsLost(header)] else |got| == 2 && fates == [SmsPair(header, got[1])]
    ensures (ch, fates) == ReaderRun(ch, got)
  {
    if |got| == 2 {
      RunOfPair(ch, header, got[1]);
      assert got == [header, got[1]];
    }
  }

  lemma HeaderIsNoPrompt(line: string)
    requires IsSmsUnsolicited(line)
    ensures line != PROMPT
  {
    var k :| 0 <= k < |SMS_UNSOLICITED| && SMS_UNSOLICITED[k] <= line;
    assert line[0] == SMS_UNSOLICITED[k][0];
  }

  /** What the loop has done since the context was `v`, the handler's calls were `calls` and the lines to come
      were `all`: the context is that of the run over the lines read, and all calls are logged. */
  ghost predicate Sofar(v: Channel, calls: seq<HandlerCall>, all: (seq<string>, bool), lines: seq<string>, fates: seq<Fate>, after: After,
                        now: Channel, log: seq<HandlerCall>, left: (seq<string>, bool))
  {
    && Routable(v) && (now, fates) == ReaderRun(v, lines) && Readable(lines)
    && log == calls + HandlerCalls(fates)
    && (after.More? ==> !LosesHeader(fates))
    && (after.Overrun? ==> lines != [] && lines[|lines| - 1] == PROMPT)
    && Consumed(all, lines, left)
  }

  lemma SofarStarts(v: Channel, calls: seq<HandlerCall>, all: (seq<string>, bool))
    requires Routable(v)
    ensures Sofar(v, calls, all, [], [], More, v, calls, all)
  {
    assert calls + HandlerCalls([]) == calls;
    assert [] + all.0 == all.0;
  }

  lemma RunNotEmpty(ch: Channel, lines: seq<string>)
    requires Routable(ch)
    ensures lines != [] ==> ReaderRun(ch, lines).1 != []
  {
  }

  lemma LosesLast(a: seq<Fate>, b: seq<Fate>)
    requires b != []
    ensures LosesHeader(a + b) <==> LosesHeader(b)
  {
  }

  lemma ReadableConcat(a: seq<string>, b: seq<string>)
    requires Readable(a) && Readable(b)
    ensures Readable(a + b)
  {
  }

  lemma SofarGoesOn(v: Channel, calls: seq<HandlerCall>, all: (seq<string>, bool), lines: seq<string>, fates: seq<Fate>,
                    mid: Channel, midLog: seq<HandlerCall>, midLeft: (seq<string>, bool),
                    got: seq<string>, next: seq<Fate>, after: After, now: Channel, log: seq<HandlerCall>, left: (seq<string>, bool))
    requires Sofar(v, calls, all, lines, fates, More, mid, midLog, midLeft)
    requires Sofar(mid, midLog, midLeft, got, next, after, now, log, left)
    requires after.More? ==> got != []
    ensures Sofar(v, calls, all, lines + got, fates + next, after, now, log, left)
  {
    RunContinues(v, lines, got);
    ReadableConcat(lines, got);
    CallsConcat(fates, next);
    assert log == calls + HandlerCalls(fates) + HandlerCalls(next) == calls + HandlerCalls(fates + next);
    RunNotEmpty(mid, got);
    if next != [] {
      LosesLast(fates, next);
    }
    ConsumedOn(all, lines, midLeft, got, left);
  }

  ghost predicate Logged(ctx: AtContext, texts: seq<string>, fates: seq<Fate>)
    reads ctx`ctrlZ
  {
    ctx.ctrlZ == texts + Written(fates)
  }

  lemma TextsGoOn(texts: seq<string>, fates: seq<Fate>, mid: seq<string>, next: seq<Fate>, now: seq<string>)
    requires mid == texts + Written(fates) && now == mid + Written(next)
    ensures now == texts + Written(fates + next)
  {
    WrittenConcat(fates, next);
  }

  /** The loop itself, whatever the stream: the lines read are those that readline() returns one after the
      other, and what the context has become and the handler has been called with is the run over them. */
  method ReadToEnd(reader: LineReader, ctx: AtContext) returns (ghost lines: seq<string>, ghost fates: seq<Fate>, after: After)
    requires reader.Valid() && ctx.Valid()
    modifies reader`cur, reader`input, reader.buf, ctx, ctx.response
    ensures ctx.Valid() && ctx.response == old(ctx.response) && !after.More?
    ensures (ctx.View(), fates) == ReaderRun(old(ctx.View()), lines) && Readable(lines)
    ensures ctx.unsolicited == old(ctx.unsolicited) + HandlerCalls(fates) && ctx.ctrlZ == old(ctx.ctrlZ) + Written(fates)
    ensures after.Overrun? ==> lines != [] && lines[|lines| - 1] == PROMPT && reader.cur == MAX_AT_RESPONSE + 1
    ensures (lines, after.Overrun?) == ReadAll(old(reader.Value()), old(reader.input))
  {
    ghost var v, calls, all := ctx.View(), ctx.unsolicited, ReadAll(reader.Value(), reader.input);
    lines, fates, after := [], [], More;
    ghost var texts := ctx.ctrlZ;
    SofarStarts(v, calls, all);
    while after.More?
      invariant ctx.Valid() && ctx.response == old(ctx.response) && (after.More? ==> reader.Valid())
      invariant Sofar(v, calls, all, lines, fates, after, ctx.View(), ctx.unsolicited, Left(reader, after))
      invariant after.Overrun? ==> reader.cur == MAX_AT_RESPONSE + 1
      invariant Logged(ctx, texts, fates)
      decreases after.More?, |Flat(reader.input)|, MAX_AT_RESPONSE + 1 - reader.cur
    {
      ghost var mid, midLog, midLeft := ctx.View(), ctx.unsolicited, Left(reader, after);
      ghost var midTexts := ctx.ctrlZ;
      ghost var got, fate;
      got, fate, after := Turn(reader, ctx);
      SofarGoesOn(v, calls, all, lines, fates, mid, midLog, midLeft, got, fate, after, ctx.View(), ctx.unsolicited, Left(reader, after));
      TextsGoOn(texts, fates, midTexts, fate, ctx.ctrlZ);
      lines, fates := lines + got, fates + fate;
    }
    AddNothing(lines);
  }

  /** readerLoop to the end of the stream, then onReaderClosed. */
  method ReaderLoop(reader: LineReader, ctx: AtContext, onClosedIsSet: bool) returns (ghost lines: seq<string>, ghost fates: seq<Fate>, after: After)
    requires reader.Valid() && ctx.Valid()
    modifies reader`cur, reader`input, reader.buf, ctx, ctx.response
    ensures ctx.Valid() && !after.More?
    ensures fates == ReaderRun(old(ctx.View()), lines).1 && Readable(lines)
    ensures ctx.View() == ReaderRun(old(ctx.View()), lines).0.(
                            readerClosed := old(ctx.View()).readerClosed || (after.Ended? && onClosedIsSet))
    ensures ctx.unsolicited == old(ctx.unsolicited) + HandlerCalls(fates) && ctx.ctrlZ == old(ctx.ctrlZ) + Written(fates)
    ensures (lines, after.Overrun?) == ReadAll(old(reader.Value()), old(reader.input))
  {
    lines, fates, after := ReadToEnd(reader, ctx);
    RunKeepsClosed(old(ctx.View()), lines);
    if after.Ended? && onClosedIsSet && !ctx.readerClosed {
      ctx.readerClosed := true;
    }
  }
}
