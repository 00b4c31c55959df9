/** Routing of one line read from the modem: to the pending command or to the unsolicited handler. */
module AtDispatch {
  import opened Wrappers
  import opened AtLines
  import opened AtResponse

  datatype CommandKind = NoResult | Numeric | SingleLine | MultiLine | MultiValue

  /** A response under construction; `rev` holds the intermediates newest first, as the list does. */
  datatype Response = Response(id: nat, rev: seq<string>, final: Option<string>, success: int)

  /** The fields of atcontext that the command mutex protects. */
  datatype Channel = Channel(
    response: Option<Response>, kind: CommandKind, prefix: Option<string>, pdu: Option<string>, readerClosed: bool)

  datatype Disposition = Unsolicited | Intermediate | FinalResult | Prompt(pdu: string)

  predicate NeedsPrefix(kind: CommandKind) { kind.SingleLine? || kind.MultiLine? || kind.MultiValue? }

  /** The prefix pointer is only ever followed for kinds that come with one. */
  predicate Routable(ch: Channel) { NeedsPrefix(ch.kind) && ch.response.Some? ==> ch.prefix.Some? }

  /** Whether a line that is neither final nor the awaited prompt is kept as an intermediate. */
  predicate Accepts(ch: Channel, line: string)
    requires Routable(ch) && ch.response.Some?
  {
    var resp := ch.response.value;
    match ch.kind
    case NoResult => false
    case Numeric => resp.rev == [] && StartsWithDigit(line)
    case SingleLine => resp.rev == [] && ch.prefix.value <= line
    case MultiLine => ch.prefix.value <= line
    case MultiValue => if resp.rev == [] then ch.prefix.value <= line else resp.success != 1
  }

  /** processLine on values. */
  function Route(ch: Channel, line: string): (r: (Channel, Disposition))
    requires Routable(ch)
    ensures Routable(r.0)
  {
    if ch.response == None then (ch, Unsolicited)
    else
      var resp := ch.response.value;
      if IsFinalSuccess(line) then
        (ch.(response := Some(resp.(success := 1, final := Some(line)))), FinalResult)
      else if IsFinalError(line) then
        (ch.(response := Some(resp.(success := 0, final := Some(line)))), FinalResult)
      else if ch.pdu.Some? && line == PROMPT then
        (ch.(pdu := None), Prompt(ch.pdu.value))
      else
        if Accepts(ch, line) then (ch.(response := Some(resp.(rev := [line] + resp.rev))), Intermediate)
        else (ch, Unsolicited)
  }

  /** The final line that a line makes the reader overwrite. */
  function Overwritten(ch: Channel, line: string): (texts: seq<string>) {
    if ch.response.Some? && IsFinal(line) then Held(ch.response.value.final) else []
  }

  datatype Command = Command(kind: CommandKind, prefix: Option<string>, pdu: Option<string>)

  predicate WellFormed(c: Command) { NeedsPrefix(c.kind) ==> c.prefix.Some? }

  /** The channel right after a command has been written and its empty response installed. */
  function Started(c: Command, id: nat): Channel {
    Channel(Some(Response(id, [], None, 0)), c.kind, c.prefix, c.pdu, false)
  }

  /** The context as the reader thread sees it: the handler's calls and the Ctrl-Z writes are logged. */
  class AtContext {
    var response: ATResponse?
    var kind: CommandKind
    var responsePrefix: Option<string>
    var smsPDU: Option<string>
    var readerClosed: bool
    var unsolicited: seq<(string, Option<string>)>
    /** Final lines of pending responses that were overwritten and never freed. */
    ghost var leaked: seq<string>
    var ctrlZ: seq<string>

    constructor ()
      ensures Valid() && response == null && responsePrefix == None && smsPDU == None
      ensures !readerClosed && unsolicited == [] && ctrlZ == [] && leaked == []
    {
      response, kind, responsePrefix, smsPDU := null, NoResult, None, None;
      readerClosed, unsolicited, ctrlZ, leaked := false, [], [], [];
    }

    ghost predicate Valid()
      reads this, response, if response != null then response.nodes else []
    {
      && (response != null ==> response.Valid())
      && Routable(View())
    }

    ghost function View(): (ch: Channel)
      reads this, response, if response != null then response.nodes else []
    {
      var r := if response == null then None
               else Some(Response(response.id, response.Lines(), response.finalResponse, response.success));
      Channel(r, kind, responsePrefix, smsPDU, readerClosed)
    }

    method HandleUnsolicited(line: string)
      modifies this`unsolicited
      ensures unsolicited == old(unsolicited) + [(line, None)]
    {
      unsolicited := unsolicited + [(line, None)];
    }

    method HandleFinalResponse(line: string)
      requires response != null
      modifies response`finalResponse, this`leaked
      ensures response.finalResponse == Some(line) && leaked == old(leaked) + Held(old(response.finalResponse))
    {
      leaked := leaked + Held(response.finalResponse);
      response.finalResponse := Some(line);
    }

    /** The switch on the command type. */
    method TryAccept(line: string) returns (accept: bool)
      requires Valid() && response != null
      ensures accept == Accepts(View(), line)
    {
      accept := false;
      match kind {
        case NoResult =>
        case Numeric =>
          accept := response.intermediates == null && StartsWithDigit(line);
        case SingleLine =>
          if response.intermediates == null {
            accept := StrStartsWith(line, responsePrefix.value);
          }
        case MultiLine =>
          accept := StrStartsWith(line, responsePrefix.value);
        case MultiValue =>
          if response.intermediates == null {
            accept := StrStartsWith(line, responsePrefix.value);
          } else {
            accept := response.success != 1;
          }
      }
    }

    /** The part of processLine that is about final lines. */
    method TakeFinal(line: string) returns (isFinal: bool)
      requires Valid() && response != null
      modifies response`success, response`finalResponse, this`leaked
      ensures Valid() && (isFinal <==> IsFinal(line)) && leaked == old(leaked) + Overwritten(old(View()), line)
      ensures isFinal ==> (View(), FinalResult) == Route(old(View()), line)
      ensures !isFinal ==> View() == old(View())
    {
      var isSuccess := MatchesTable(line, FINAL_SUCCESS);
      if isSuccess {
        response.success := 1;
        HandleFinalResponse(line);
        return true;
      }
      var isError := MatchesTable(line, FINAL_ERROR);
      if isError {
        response.success := 0;
        HandleFinalResponse(line);
      }
      return isError;
    }

    method ProcessLine(line: string) returns (ghost d: Disposition)
      requires Valid()
      modifies this, response
      ensures Valid() && response == old(response)
      ensures (View(), d) == Route(old(View()), line)
      ensures unsolicited == old(unsolicited) + if d.Unsolicited? then [(line, None)] else []
      ensures ctrlZ == old(ctrlZ) + if d.Prompt? then [d.pdu] else []
      ensures leaked == old(leaked) + Overwritten(old(View()), line)
      ensures response != null ==> fresh(set n | n in response.nodes && n !in old(response.nodes))
    {
      d := Unsolicited;
      if response == null {
        HandleUnsolicited(line);
        return;
      }
      var isFinal := TakeFinal(line);
      if isFinal {
        return FinalResult;
      }
      if smsPDU.Some? && line == PROMPT {
        ctrlZ := ctrlZ + [smsPDU.value];
        d := Prompt(smsPDU.value);
        smsPDU := None;
        return;
      }
      var accept := TryAccept(line);
      if accept {
        response.AddIntermediate(line);
        d := Intermediate;
      } else {
        HandleUnsolicited(line);
      }
    }

    /** The command side, once its line has been written. */
    method Install(id: nat, command: Command)
      requires WellFormed(command) && !readerClosed
      modifies this
      ensures Valid() && response != null && fresh(response)
      ensures View() == Started(command, id)
      ensures unsolicited == old(unsolicited) && ctrlZ == old(ctrlZ) && leaked == old(leaked)
    {
      kind, responsePrefix, smsPDU := command.kind, command.prefix, command.pdu;
      response := new ATResponse(id);
      assert response.Lines() == [];
    }

    /** The command side, once the wait is over: the caller gets the response object itself with its
        list flipped in place, or the response goes back to the allocator node by node. */
    method Deliver(wantOut: bool) returns (out: ATResponse?, ghost released: seq<ATLine>, ghost texts: seq<string>)
      requires Valid() && response != null
      modifies this`response, response, response.nodes
      ensures Valid() && response == null
      ensures wantOut ==> out == old(response) && out.Valid() && released == [] && texts == []
                          && out.Lines() == Reverse(old(response.Lines()))
                          && out.finalResponse == old(response.finalResponse) && out.success == old(response.success)
      ensures !wantOut ==> out == null && released == old(response.nodes)
                           && texts == old(response.Lines()) + Held(old(response.finalResponse))
      ensures View() == old(View()).(response := None)
    {
      out, released, texts := null, [], [];
      if !wantOut {
        released, texts := response.Free();
      } else {
        response.ReverseIntermediates();
        out := response;
      }
      response := null;
    }

    /** clearPendingCommand. */
    method ClearPendingCommand() returns (ghost released: seq<ATLine>, ghost texts: seq<string>)
      requires Valid()
      modifies this`response, this`responsePrefix, this`smsPDU
      ensures Valid()
      ensures View() == old(View()).(response := None, prefix := None, pdu := None)
      ensures released == if old(response) == null then [] else old(response.nodes)
      ensures texts == if old(response) == null then [] else old(response.Lines()) + Held(old(response.finalResponse))
    {
      released, texts := [], [];
      if response != null {
        released, texts := response.Free();
      }
      response, responsePrefix, smsPDU := null, None, None;
    }
  }

  // ----- what a whole exchange amounts to -----

  /** The channel after the reader has routed `lines`, oldest first. */
  function Feed(ch: Channel, lines: seq<string>): (r: Channel)
    requires Routable(ch)
    ensures Routable(r)
  {
    if lines == [] then ch else Route(Feed(ch, lines[..|lines| - 1]), lines[|lines| - 1]).0
  }

  // The reference below never mentions the channel: it says which lines of an exchange belong to
  // the command by looking at the lines alone.

  /** The one prompt that is answered with the PDU. */
  ghost predicate AnsweredPrompt(c: Command, before: seq<string>, line: string) {
    c.pdu.Some? && line == PROMPT && PROMPT !in before
  }

  ghost predicate Plain(c: Command, before: seq<string>, line: string) {
    !IsFinal(line) && !AnsweredPrompt(c, before, line)
  }

  ghost predicate Matches(c: Command, line: string)
    requires WellFormed(c)
  {
    match c.kind
    case NoResult => false
    case Numeric => StartsWithDigit(line)
    case SingleLine => c.prefix.value <= line
    case MultiLine => c.prefix.value <= line
    case MultiValue => c.prefix.value <= line
  }

  /** Some earlier line already opened the answer. */
  ghost predicate Opened(c: Command, before: seq<string>)
    requires WellFormed(c)
  {
    exists j :: 0 <= j < |before| && Plain(c, before[..j], before[j]) && Matches(c, before[j])
  }

  /** The most recent final result, if any, was a success. */
  ghost predicate Succeeded(lines: seq<string>) {
    exists f :: 0 <= f < |lines| && IsFinalSuccess(lines[f]) && forall g :: f < g < |lines| ==> !IsFinal(lines[g])
  }

  ghost predicate BelongsToAnswer(c: Command, before: seq<string>, line: string)
    requires WellFormed(c)
  {
    && Plain(c, before, line)
    && match c.kind
       case NoResult => false
       case Numeric => Matches(c, line) && !Opened(c, before)
       case SingleLine => Matches(c, line) && !Opened(c, before)
       case MultiLine => Matches(c, line)
       case MultiValue => if Opened(c, before) then !Succeeded(before) else Matches(c, line)
  }

  /** The lines of the answer, in the order in which the modem sent them. */
  ghost function Answer(c: Command, lines: seq<string>): (r: seq<string>)
    requires WellFormed(c)
  {
    if lines == [] then []
    else
      var before, line := lines[..|lines| - 1], lines[|lines| - 1];
      Answer(c, before) + if BelongsToAnswer(c, before, line) then [line] else []
  }

  ghost predicate IsLastFinal(lines: seq<string>, final: Option<string>) {
    match final
    case None => forall f :: 0 <= f < |lines| ==> !IsFinal(lines[f])
    case Some(text) =>
      exists f :: (0 <= f < |lines| && lines[f] == text && IsFinal(text) && forall g :: f < g < |lines| ==> !IsFinal(lines[g]))
  }

  lemma OpenedStep(c: Command, before: seq<string>, line: string)
    requires WellFormed(c)
    ensures Opened(c, before + [line]) <==> Opened(c, before) || (Plain(c, before, line) && Matches(c, line))
  {
    var lines := before + [line];
    assert lines[..|before|] == before;
    forall j | 0 <= j < |before|
      ensures lines[..j] == before[..j] && lines[j] == before[j]
    {
    }
    if Plain(c, before, line) && Matches(c, line) {
      assert Plain(c, lines[..|before|], lines[|before|]);
    }
    if Opened(c, before) {
      var j :| 0 <= j < |before| && Plain(c, before[..j], before[j]) && Matches(c, before[j]);
      assert Plain(c, lines[..j], lines[j]);
    }
  }

  lemma SucceededStep(before: seq<string>, line: string)
    ensures Succeeded(before + [line]) <==> IsFinalSuccess(line) || (Succeeded(before) && !IsFinal(line))
  {
    var lines := before + [line];
    if IsFinalSuccess(line) {
      assert IsFinalSuccess(lines[|before|]);
    }
    if Succeeded(before) && !IsFinal(line) {
      var f :| 0 <= f < |before| && IsFinalSuccess(before[f]) && forall g :: f < g < |before| ==> !IsFinal(before[g]);
      assert IsFinalSuccess(lines[f]);
    }
    if Succeeded(lines) && !IsFinalSuccess(line) {
      var f :| 0 <= f < |lines| && IsFinalSuccess(lines[f]) && forall g :: f < g < |lines| ==> !IsFinal(lines[g]);
      assert f < |before| && lines[|before|] == line;
      assert forall g :: f < g < |before| ==> !IsFinal(lines[g]) && lines[g] == before[g];
    }
  }

  lemma LastFinalStep(before: seq<string>, line: string, final: Option<string>)
    requires IsLastFinal(before, final)
    ensures IsLastFinal(before + [line], if IsFinal(line) then Some(line) else final)
  {
    var lines := before + [line];
    if IsFinal(line) {
      assert lines[|before|] == line;
    } else if final.Some? {
      var f :| 0 <= f < |before| && before[f] == final.value && forall g :: f < g < |before| ==> !IsFinal(before[g]);
      assert lines[f] == final.value;
    }
  }

  /** The last final result tells whether the conversation succeeded. */
  lemma FinalIsClassified(lines: seq<string>, final: Option<string>)
    requires IsLastFinal(lines, final) && final.Some?
    ensures IsFinal(final.value) && (Succeeded(lines) <==> IsFinalSuccess(final.value))
  {
    var f :| 0 <= f < |lines| && lines[f] == final.value && IsFinal(final.value) && forall g :: f < g < |lines| ==> !IsFinal(lines[g]);
    if Succeeded(lines) {
      var h :| 0 <= h < |lines| && IsFinalSuccess(lines[h]) && forall g :: h < g < |lines| ==> !IsFinal(lines[g]);
      assert h == f;
    }
  }

  /** A channel that has seen exactly `lines` since command `c` was started. */
  ghost predicate Means(c: Command, id: nat, lines: seq<string>, ch: Channel)
    requires WellFormed(c)
  {
    && ch.response.Some? && ch.response.value.id == id
    && ch.kind == c.kind && ch.prefix == c.prefix && !ch.readerClosed
    && ch.pdu == (if PROMPT in lines then None else c.pdu)
    && Reverse(ch.response.value.rev) == Answer(c, lines)
    && (ch.response.value.rev != [] <==> Opened(c, lines))
    && IsLastFinal(lines, ch.response.value.final)
    && ch.response.value.success == (if Succeeded(lines) then 1 else 0)
  }

  lemma AnswerStep(c: Command, before: seq<string>, line: string)
    requires WellFormed(c)
    ensures Answer(c, before + [line]) == Answer(c, before) + if BelongsToAnswer(c, before, line) then [line] else []
  {
    assert (before + [line])[..|before|] == before;
  }

  /** How one more line changes what the conversation so far amounts to. */
  lemma HistoryStep(c: Command, before: seq<string>, line: string, final: Option<string>)
    requires WellFormed(c) && IsLastFinal(before, final)
    ensures Answer(c, before + [line]) == Answer(c, before) + if BelongsToAnswer(c, before, line) then [line] else []
    ensures Opened(c, before + [line]) <==> Opened(c, before) || (Plain(c, before, line) && Matches(c, line))
    ensures Succeeded(before + [line]) <==> IsFinalSuccess(line) || (Succeeded(before) && !IsFinal(line))
    ensures IsLastFinal(before + [line], if IsFinal(line) then Some(line) else final)
    ensures PROMPT in before + [line] <==> PROMPT in before || line == PROMPT
  {
    AnswerStep(c, before, line);
    OpenedStep(c, before, line);
    SucceededStep(before, line);
    LastFinalStep(before, line, final);
  }

  lemma MeansFinalStep(c: Command, id: nat, before: seq<string>, ch: Channel, line: string)
    requires WellFormed(c) && Means(c, id, before, ch) && IsFinal(line)
    ensures Routable(ch) && Means(c, id, before + [line], Route(ch, line).0)
  {
    HistoryStep(c, before, line, ch.response.value.final);
    FinalClassesAreDisjoint(line);
    PromptIsNotFinal();
  }

  lemma PromptIsNotFinal()
    ensures !IsFinal(PROMPT)
  {
    forall k | 0 <= k < |FINAL_ERROR|
      ensures !(FINAL_ERROR[k] <= PROMPT)
    {
      assert FINAL_ERROR[k][0] != PROMPT[0];
    }
    forall k | 0 <= k < |FINAL_SUCCESS|
      ensures !(FINAL_SUCCESS[k] <= PROMPT)
    {
      assert FINAL_SUCCESS[k][0] != PROMPT[0];
    }
  }

  /** The reader keeps exactly the lines that belong to the answer. */
  lemma AcceptsTheAnswer(c: Command, id: nat, before: seq<string>, ch: Channel, line: string)
    requires WellFormed(c) && Means(c, id, before, ch) && Plain(c, before, line)
    ensures Routable(ch) && (Accepts(ch, line) <==> BelongsToAnswer(c, before, line))
  {
  }

  lemma MeansPromptStep(c: Command, id: nat, before: seq<string>, ch: Channel, line: string)
    requires WellFormed(c) && Means(c, id, before, ch) && !IsFinal(line) && AnsweredPrompt(c, before, line)
    ensures Routable(ch) && Means(c, id, before + [line], Route(ch, line).0)
  {
    HistoryStep(c, before, line, ch.response.value.final);
  }

  lemma MeansKeptStep(c: Command, id: nat, before: seq<string>, ch: Channel, line: string)
    requires WellFormed(c) && Means(c, id, before, ch) && BelongsToAnswer(c, before, line)
    ensures Routable(ch) && Means(c, id, before + [line], Route(ch, line).0)
  {
    HistoryStep(c, before, line, ch.response.value.final);
    AcceptsTheAnswer(c, id, before, ch, line);
    ReverseStep(line, ch.response.value.rev);
  }

  lemma ReverseStep(line: string, rev: seq<string>)
    ensures Reverse([line] + rev) == Reverse(rev) + [line]
  {
    assert ([line] + rev)[1..] == rev;
  }

  lemma MeansSkippedStep(c: Command, id: nat, before: seq<string>, ch: Channel, line: string)
    requires WellFormed(c) && Means(c, id, before, ch) && Plain(c, before, line) && !BelongsToAnswer(c, before, line)
    ensures Routable(ch) && Means(c, id, before + [line], Route(ch, line).0)
  {
    HistoryStep(c, before, line, ch.response.value.final);
    AcceptsTheAnswer(c, id, before, ch, line);
  }

  /** The list the reader builds, flipped, is exactly the answer; the stored final result is the
      last one sent, the success flag tells its class, and the PDU is spent by the first prompt. */
  lemma {:induction false} FeedMeaning(c: Command, id: nat, lines: seq<string>)
    requires WellFormed(c)
    ensures Means(c, id, lines, Feed(Started(c, id), lines))
  {
    if lines != [] {
      var before, line := lines[..|lines| - 1], lines[|lines| - 1];
      assert lines == before + [line];
      FeedMeaning(c, id, before);
      var prior := Feed(Started(c, id), before);
      if IsFinal(line) {
        MeansFinalStep(c, id, before, prior, line);
      } else if AnsweredPrompt(c, before, line) {
        MeansPromptStep(c, id, before, prior, line);
      } else if BelongsToAnswer(c, before, line) {
        MeansKeptStep(c, id, before, prior, line);
      } else {
        MeansSkippedStep(c, id, before, prior, line);
      }
    }
  }

  lemma {:induction false} AnswerMembers(c: Command, lines: seq<string>)
    requires WellFormed(c)
    ensures forall a :: a in Answer(c, lines) ==> a in lines && !IsFinal(a)
    ensures !c.kind.MultiValue? ==> forall a :: a in Answer(c, lines) ==> Matches(c, a)
  {
    if lines != [] {
      var before, line := lines[..|lines| - 1], lines[|lines| - 1];
      AnswerMembers(c, before);
      assert lines == before + [line];
    }
  }

  lemma {:induction false} AnswerOpens(c: Command, lines: seq<string>)
    requires WellFormed(c)
    ensures Answer(c, lines) == [] <==> !Opened(c, lines)
    ensures c.kind.NoResult? ==> Answer(c, lines) == []
    ensures c.kind.Numeric? || c.kind.SingleLine? ==> |Answer(c, lines)| <= 1
    ensures c.kind.MultiValue? && Answer(c, lines) != [] ==> Matches(c, Answer(c, lines)[0])
  {
    if lines != [] {
      var before, line := lines[..|lines| - 1], lines[|lines| - 1];
      AnswerOpens(c, before);
      OpenedStep(c, before, line);
      assert lines == before + [line];
    }
  }

  lemma {:induction false} MultiLineIsComplete(c: Command, lines: seq<string>, k: nat)
    requires WellFormed(c) && c.kind.MultiLine?
    requires k < |lines| && Plain(c, lines[..k], lines[k]) && Matches(c, lines[k])
    ensures lines[k] in Answer(c, lines)
  {
    var before := lines[..|lines| - 1];
    if k < |before| {
      assert lines[..k] == before[..k];
      MultiLineIsComplete(c, before, k);
    }
  }

  /** What the documentation of the command kinds promises about the answer. */
  lemma {:induction false} AnswerShape(c: Command, lines: seq<string>)
    requires WellFormed(c)
    ensures Answer(c, lines) == [] <==> !Opened(c, lines)
    ensures forall a :: a in Answer(c, lines) ==> a in lines && !IsFinal(a)
    ensures c.kind.NoResult? ==> Answer(c, lines) == []
    ensures c.kind.Numeric? || c.kind.SingleLine? ==> |Answer(c, lines)| <= 1
    ensures !c.kind.MultiValue? ==> forall a :: a in Answer(c, lines) ==> Matches(c, a)
    ensures c.kind.MultiValue? && Answer(c, lines) != [] ==> Matches(c, Answer(c, lines)[0])
    ensures c.kind.MultiLine? ==>
              forall k :: 0 <= k < |lines| && Plain(c, lines[..k], lines[k]) && Matches(c, lines[k]) ==> lines[k] in Answer(c, lines)
  {
    AnswerMembers(c, lines);
    AnswerOpens(c, lines);
    forall k | 0 <= k < |lines| && c.kind.MultiLine? && Plain(c, lines[..k], lines[k]) && Matches(c, lines[k])
      ensures lines[k] in Answer(c, lines)
    {
      MultiLineIsComplete(c, lines, k);
    }
  }
}
