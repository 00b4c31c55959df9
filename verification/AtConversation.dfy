/** What the reader does with the lines of a conversation, told by the lines alone: what it writes to the
    modem, and what it tells the unsolicited handler. */
module AtConversation {
  import opened Wrappers
  import opened AtLines
  import opened AtDispatch
  import opened AtReader

  // ----- the lines alone -----

  /** The next line is the second half of an SMS notification: every other one of the headers right before it
      is itself the second half of the one before. */
  predicate AwaitsBody(lines: seq<string>) { TrailingHeaders(lines) % 2 == 1 }

  /** The lines that have no part in an SMS notification. */
  function Routed(lines: seq<string>): (r: seq<string>) {
    if lines == [] then []
    else
      var before, line := lines[..|lines| - 1], lines[|lines| - 1];
      Routed(before) + if AwaitsBody(before) || IsSmsUnsolicited(line) then [] else [line]
  }

  /** One line that the handler is told, or none: the two halves of a notification together, and of the other
      lines those that are neither final, nor in the answer, nor the prompt that is answered. */
  ghost function CallFor(c: Command, before: seq<string>, line: string): (calls: seq<HandlerCall>)
    requires WellFormed(c)
  {
    if AwaitsBody(before) && before != [] then [(before[|before| - 1], Some(line))]
    else if IsSmsUnsolicited(line) || IsFinal(line) || AnsweredPrompt(c, Routed(before), line) || BelongsToAnswer(c, Routed(before), line) then []
    else [(line, None)]
  }

  ghost function Calls(c: Command, lines: seq<string>): (calls: seq<HandlerCall>)
    requires WellFormed(c)
  {
    if lines == [] then []
    else
      var before, line := lines[..|lines| - 1], lines[|lines| - 1];
      Calls(c, before) + CallFor(c, before, line)
  }

  /** The same while no command is pending. */
  function IdleCalls(lines: seq<string>): (calls: seq<HandlerCall>) {
    if lines == [] then []
    else
      var before, line := lines[..|lines| - 1], lines[|lines| - 1];
      IdleCalls(before) + if AwaitsBody(before) && before != [] then [(before[|before| - 1], Some(line))]
                          else if IsSmsUnsolicited(line) then [] else [(line, None)]
  }

  // ----- one line -----

  /** What becomes of a line, told by the conversation before it. */
  lemma DispositionIs(c: Command, id: nat, before: seq<string>, ch: Channel, line: string)
    requires WellFormed(c) && Means(c, id, before, ch)
    ensures Routable(ch)
    ensures Route(ch, line).1 ==
            if IsFinal(line) then FinalResult
            else if AnsweredPrompt(c, before, line) then Prompt(c.pdu.value)
            else if BelongsToAnswer(c, before, line) then Intermediate else Unsolicited
  {
    if Plain(c, before, line) {
      AcceptsTheAnswer(c, id, before, ch, line);
    }
  }

  // ----- one more line at the end of a run -----

  /** The fates with one more line at the end. */
  function OneMore(run: (Channel, seq<Fate>), line: string): (r: (Channel, seq<Fate>))
    requires Routable(run.0)
  {
    if run.1 != [] && run.1[|run.1| - 1].SmsLost? then
      (run.0, run.1[..|run.1| - 1] + [SmsPair(run.1[|run.1| - 1].header, line)])
    else if IsSmsUnsolicited(line) then (run.0, run.1 + [SmsLost(line)])
    else (Route(run.0, line).0, run.1 + [Fate.Routed(line, Route(run.0, line).1)])
  }

  lemma Associate(first: Fate, fates: seq<Fate>, last: Fate)
    ensures [first] + fates + [last] == [first] + (fates + [last])
  {
  }

  lemma OneMoreLater(first: Fate, run: (Channel, seq<Fate>), line: string)
    requires Routable(run.0) && !first.SmsLost?
    ensures OneMore((run.0, [first] + run.1), line) == (OneMore(run, line).0, [first] + OneMore(run, line).1)
  {
    var fates := [first] + run.1;
    if run.1 != [] {
      assert fates[..|fates| - 1] == [first] + run.1[..|run.1| - 1];
      assert fates[|fates| - 1] == run.1[|run.1| - 1];
    }
    if run.1 != [] && run.1[|run.1| - 1].SmsLost? {
      Associate(first, run.1[..|run.1| - 1], SmsPair(run.1[|run.1| - 1].header, line));
    } else {
      Associate(first, run.1, if IsSmsUnsolicited(line) then SmsLost(line) else Fate.Routed(line, Route(run.0, line).1));
    }
  }

  lemma NothingBefore(fates: seq<Fate>)
    ensures [] + fates == fates
  {
  }

  lemma OneMoreAlone(ch: Channel, lines: seq<string>, line: string)
    requires Routable(ch) && |lines| <= 1 && (lines == [] || IsSmsUnsolicited(lines[0]))
    ensures ReaderRun(ch, lines + [line]) == OneMore(ReaderRun(ch, lines), line)
  {
    if lines == [] {
      assert lines + [line] == [line];
      if IsSmsUnsolicited(line) {
        NothingBefore([SmsLost(line)]);
      } else {
        RunOfLine(ch, line);
        NothingBefore([Fate.Routed(line, Route(ch, line).1)]);
      }
    } else {
      assert lines + [line] == [lines[0], line];
      RunOfPair(ch, lines[0], line);
      NothingBefore([SmsPair(lines[0], line)]);
    }
  }

  lemma {:induction false} RunOneMore(ch: Channel, lines: seq<string>, line: string)
    requires Routable(ch)
    ensures ReaderRun(ch, lines + [line]) == OneMore(ReaderRun(ch, lines), line)
    decreases |lines|
  {
    if |lines| == 0 || (|lines| == 1 && IsSmsUnsolicited(lines[0])) {
      OneMoreAlone(ch, lines, line);
    } else if IsSmsUnsolicited(lines[0]) {
      assert (lines + [line])[2..] == lines[2..] + [line];
      RunOneMore(ch, lines[2..], line);
      OneMoreLater(SmsPair(lines[0], lines[1]), ReaderRun(ch, lines[2..]), line);
    } else {
      assert (lines + [line])[1..] == lines[1..] + [line];
      var (next, d) := Route(ch, lines[0]);
      RunOneMore(next, lines[1..], line);
      OneMoreLater(Fate.Routed(lines[0], d), ReaderRun(next, lines[1..]), line);
    }
  }

  // ----- a whole conversation -----

  lemma {:induction false} RoutedLinesConcat(a: seq<Fate>, b: seq<Fate>)
    ensures RoutedLines(a + b) == RoutedLines(a) + RoutedLines(b)
  {
    if a == [] {
      NothingBefore(b);
    } else {
      assert (a + b)[1..] == a[1..] + b;
      RoutedLinesConcat(a[1..], b);
    }
  }

  /** What one more fate adds. */
  lemma OneFate(fates: seq<Fate>, f: Fate)
    ensures RoutedLines(fates + [f]) == RoutedLines(fates) + if f.Routed? then [f.line] else []
    ensures Written(fates + [f]) == Written(fates) + if f.Routed? && f.disposition.Prompt? then [f.disposition.pdu] else []
    ensures HandlerCalls(fates + [f]) == HandlerCalls(fates) +
            if f.SmsPair? then [(f.header, Some(f.body))] else if f.Routed? && f.disposition.Unsolicited? then [(f.line, None)] else []
  {
    RoutedLinesConcat(fates, [f]);
    WrittenConcat(fates, [f]);
    CallsConcat(fates, [f]);
    CallsOfOne(f);
    assert [f][1..] == [];
  }

  ghost predicate Told(run: (Channel, seq<Fate>), lines: seq<string>, calls: seq<HandlerCall>, written: seq<string>) {
    && RoutedLines(run.1) == Routed(lines) && HandlerCalls(run.1) == calls && Written(run.1) == written
    && (LosesHeader(run.1) <==> AwaitsBody(lines))
    && (LosesHeader(run.1) ==> lines != [] && run.1[|run.1| - 1] == SmsLost(lines[|lines| - 1]))
  }

  lemma AwaitsAfter(lines: seq<string>, line: string)
    ensures AwaitsBody(lines + [line]) <==> IsSmsUnsolicited(line) && !AwaitsBody(lines)
    ensures Routed(lines + [line]) == if AwaitsBody(lines) || IsSmsUnsolicited(line) then Routed(lines) else Routed(lines) + [line]
  {
    assert (lines + [line])[..|lines|] == lines;
  }

  /** A line that is the second half of a notification. */
  lemma BodyTold(run: (Channel, seq<Fate>), lines: seq<string>, line: string, calls: seq<HandlerCall>, written: seq<string>)
    requires Routable(run.0) && Told(run, lines, calls, written) && AwaitsBody(lines)
    ensures lines != [] && OneMore(run, line).0 == run.0
    ensures Told(OneMore(run, line), lines + [line], calls + [(lines[|lines| - 1], Some(line))], written)
  {
    var init, last := run.1[..|run.1| - 1], run.1[|run.1| - 1];
    assert run.1 == init + [last];
    OneFate(init, last);
    OneFate(init, SmsPair(last.header, line));
    AwaitsAfter(lines, line);
  }

  /** Any other line. */
  lemma LineTold(run: (Channel, seq<Fate>), lines: seq<string>, line: string, calls: seq<HandlerCall>, written: seq<string>)
    requires Routable(run.0) && Told(run, lines, calls, written) && !AwaitsBody(lines)
    ensures var d := Route(run.0, line).1;
            && OneMore(run, line).0 == (if IsSmsUnsolicited(line) then run.0 else Route(run.0, line).0)
            && Told(OneMore(run, line), lines + [line],
                    calls + (if !IsSmsUnsolicited(line) && d.Unsolicited? then [(line, None)] else []),
                    written + if !IsSmsUnsolicited(line) && d.Prompt? then [d.pdu] else [])
  {
    OneFate(run.1, if IsSmsUnsolicited(line) then SmsLost(line) else Fate.Routed(line, Route(run.0, line).1));
    AwaitsAfter(lines, line);
  }

  function Pdu(c: Command, lines: seq<string>): (texts: seq<string>) {
    if c.pdu.Some? && PROMPT in Routed(lines) then [c.pdu.value] else []
  }

  lemma {:induction false} ConversationTold(c: Command, id: nat, lines: seq<string>)
    requires WellFormed(c)
    ensures var run := ReaderRun(Started(c, id), lines);
            && Told(run, lines, Calls(c, lines), Pdu(c, lines))
            && Means(c, id, Routed(lines), run.0)
  {
    if lines == [] {
      FeedMeaning(c, id, []);
    } else {
      var before, line := lines[..|lines| - 1], lines[|lines| - 1];
      assert lines == before + [line];
      ConversationTold(c, id, before);
      RunOneMore(Started(c, id), before, line);
      LineAdds(c, id, before, line, ReaderRun(Started(c, id), before));
    }
  }

  lemma CallsAfter(c: Command, before: seq<string>, line: string)
    requires WellFormed(c)
    ensures Calls(c, before + [line]) == Calls(c, before) + CallFor(c, before, line)
  {
    assert (before + [line])[..|before|] == before;
  }

  /** What the routing of a line adds. */
  lemma RoutedAdds(c: Command, id: nat, before: seq<string>, line: string, run: (Channel, seq<Fate>))
    requires WellFormed(c) && Means(c, id, Routed(before), run.0) && !AwaitsBody(before) && !IsSmsUnsolicited(line)
    ensures Routable(run.0)
    ensures var d := Route(run.0, line).1;
            && CallFor(c, before, line) == (if d.Unsolicited? then [(line, None)] else [])
            && Pdu(c, before + [line]) == Pdu(c, before) + if d.Prompt? then [d.pdu] else []
  {
    DispositionIs(c, id, Routed(before), run.0, line);
    AwaitsAfter(before, line);
    PromptIsNotFinal();
  }

  lemma HeaderAdds(c: Command, before: seq<string>, line: string)
    requires WellFormed(c) && !AwaitsBody(before) && IsSmsUnsolicited(line)
    ensures CallFor(c, before, line) == [] && Pdu(c, before + [line]) == Pdu(c, before)
  {
    AwaitsAfter(before, line);
  }

  lemma BodyAdds(c: Command, id: nat, before: seq<string>, line: string, run: (Channel, seq<Fate>))
    requires WellFormed(c) && Means(c, id, Routed(before), run.0) && Told(run, before, Calls(c, before), Pdu(c, before))
    requires AwaitsBody(before)
    ensures Routable(run.0)
    ensures Told(OneMore(run, line), before + [line], Calls(c, before + [line]), Pdu(c, before + [line]))
    ensures Means(c, id, Routed(before + [line]), OneMore(run, line).0)
  {
    AwaitsAfter(before, line);
    CallsAfter(c, before, line);
    BodyTold(run, before, line, Calls(c, before), Pdu(c, before));
  }

  lemma OtherAdds(c: Command, id: nat, before: seq<string>, line: string, run: (Channel, seq<Fate>))
    requires WellFormed(c) && Means(c, id, Routed(before), run.0) && Told(run, before, Calls(c, before), Pdu(c, before))
    requires !AwaitsBody(before)
    ensures Routable(run.0)
    ensures Told(OneMore(run, line), before + [line], Calls(c, before + [line]), Pdu(c, before + [line]))
  {
    CallsAfter(c, before, line);
    LineTold(run, before, line, Calls(c, before), Pdu(c, before));
    if IsSmsUnsolicited(line) {
      HeaderAdds(c, before, line);
    } else {
      RoutedAdds(c, id, before, line, run);
    }
  }

  lemma LineAdds(c: Command, id: nat, before: seq<string>, line: string, run: (Channel, seq<Fate>))
    requires WellFormed(c) && Means(c, id, Routed(before), run.0) && Told(run, before, Calls(c, before), Pdu(c, before))
    ensures Routable(run.0)
    ensures Told(OneMore(run, line), before + [line], Calls(c, before + [line]), Pdu(c, before + [line]))
    ensures Means(c, id, Routed(before + [line]), OneMore(run, line).0)
  {
    if AwaitsBody(before) {
      BodyAdds(c, id, before, line, run);
    } else {
      OtherAdds(c, id, before, line, run);
      AwaitsAfter(before, line);
      if !IsSmsUnsolicited(line) {
        MeansOneMore(c, id, Routed(before), run.0, line);
      }
    }
  }

  lemma MeansOneMore(c: Command, id: nat, before: seq<string>, ch: Channel, line: string)
    requires WellFormed(c) && Means(c, id, before, ch)
    ensures Routable(ch) && Means(c, id, before + [line], Route(ch, line).0)
  {
    if IsFinal(line) {
      MeansFinalStep(c, id, before, ch, line);
    } else if AnsweredPrompt(c, before, line) {
      MeansPromptStep(c, id, before, ch, line);
    } else if BelongsToAnswer(c, before, line) {
      MeansKeptStep(c, id, before, ch, line);
    } else {
      MeansSkippedStep(c, id, before, ch, line);
    }
  }

  /** From the start of a command on, whatever the modem sends: the handler is told exactly the notifications,
      header and body together, and the lines that are neither final, nor in the answer, nor the answered prompt,
      in order; and what is written is the PDU of the command, once, if there is one and a prompt has come,
      and nothing else. */
  lemma ConversationIs(c: Command, id: nat, lines: seq<string>)
    requires WellFormed(c)
    ensures var fates := ReaderRun(Started(c, id), lines).1;
            && HandlerCalls(fates) == Calls(c, lines)
            && Written(fates) == if c.pdu.Some? && "> " in Routed(lines) then [c.pdu.value] else []
  {
    ConversationTold(c, id, lines);
  }

  /** While no command is pending, the handler is told everything, and nothing is written. */
  lemma IdleIs(ch: Channel, lines: seq<string>)
    requires ch.response == None
    ensures ReaderRun(ch, lines).0 == ch
    ensures HandlerCalls(ReaderRun(ch, lines).1) == IdleCalls(lines) && Written(ReaderRun(ch, lines).1) == []
  {
    IdleTold(ch, lines);
  }

  lemma {:induction false} IdleTold(ch: Channel, lines: seq<string>)
    requires ch.response == None
    ensures ReaderRun(ch, lines).0 == ch && Told(ReaderRun(ch, lines), lines, IdleCalls(lines), [])
  {
    if lines != [] {
      var before, line := lines[..|lines| - 1], lines[|lines| - 1];
      assert lines == before + [line];
      IdleTold(ch, before);
      RunOneMore(ch, before, line);
      if AwaitsBody(before) {
        BodyTold(ReaderRun(ch, before), before, line, IdleCalls(before), []);
      } else {
        LineTold(ReaderRun(ch, before), before, line, IdleCalls(before), []);
      }
    }
  }
}
