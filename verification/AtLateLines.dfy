/** Lines that reach the pending command after its final result, while the command thread has yet to take
    the mutex: a later final result replaces the first one, and further lines may still join the answer. */
module AtLateLines {
  import opened Wrappers
  import opened AtLines
  import opened AtResponse
  import opened AtDispatch

  function Finals(lines: seq<string>): (n: nat) {
    if lines == [] then 0 else Finals(lines[..|lines| - 1]) + if IsFinal(lines[|lines| - 1]) then 1 else 0
  }

  /** The position of the first final result, or the end. */
  function FirstAt(lines: seq<string>): (k: nat)
    ensures k <= |lines| && (k < |lines| ==> IsFinal(lines[k])) && forall j :: 0 <= j < k ==> !IsFinal(lines[j])
  {
    if lines == [] then 0
    else
      var init := lines[..|lines| - 1];
      var k := FirstAt(init);
      if k < |init| || IsFinal(lines[|init|]) then k else |lines|
  }

  /** The position of the last final result, or the end. */
  function LastAt(lines: seq<string>): (k: nat)
    ensures k <= |lines| && (k < |lines| ==> IsFinal(lines[k]))
    ensures forall j :: (if k < |lines| then k + 1 else 0) <= j < |lines| ==> !IsFinal(lines[j])
  {
    if lines == [] then 0
    else
      var init := lines[..|lines| - 1];
      if IsFinal(lines[|init|]) then |init| else if LastAt(init) < |init| then LastAt(init) else |lines|
  }

  lemma {:induction false} OneFinalOnly(lines: seq<string>)
    ensures Finals(lines) == 0 <==> FirstAt(lines) == |lines|
    ensures Finals(lines) == 0 <==> LastAt(lines) == |lines|
    ensures Finals(lines) == 1 <==> FirstAt(lines) < |lines| && FirstAt(lines) == LastAt(lines)
  {
    if lines != [] {
      OneFinalOnly(lines[..|lines| - 1]);
    }
  }

  lemma LastFinalIs(lines: seq<string>, final: Option<string>)
    requires IsLastFinal(lines, final)
    ensures final == if LastAt(lines) < |lines| then Some(lines[LastAt(lines)]) else None
  {
    if final.Some? {
      var f :| 0 <= f < |lines| && lines[f] == final.value && IsFinal(final.value) && forall g :: f < g < |lines| ==> !IsFinal(lines[g]);
      assert f == LastAt(lines);
    }
  }

  /** The response ends up with the final line at `LastAt`. It is the first one sent exactly if no other
      final line came before the response was handed over. */
  lemma FinalIsTheFirstExactly(c: Command, id: nat, lines: seq<string>)
    requires WellFormed(c) && Finals(lines) > 0
    ensures Feed(Started(c, id), lines).response.Some?
    ensures var r := Feed(Started(c, id), lines).response.value;
            && LastAt(lines) < |lines| && r.final == Some(lines[LastAt(lines)])
            && (r.success == 1 <==> IsFinalSuccess(lines[LastAt(lines)]))
            && (LastAt(lines) == FirstAt(lines) <==> Finals(lines) == 1)
  {
    FeedMeaning(c, id, lines);
    var r := Feed(Started(c, id), lines).response.value;
    LastFinalIs(lines, r.final);
    OneFinalOnly(lines);
    FinalIsClassified(lines, r.final);
  }

  lemma OkAndError()
    ensures IsFinalSuccess("OK") && IsFinalError("ERROR") && !IsFinalSuccess("ERROR")
  {
    assert FINAL_SUCCESS[0] == "OK" && FINAL_SUCCESS[0] <= "OK";
    assert FINAL_ERROR[0] == "ERROR" && FINAL_ERROR[0] <= "ERROR";
    FinalClassesAreDisjoint("ERROR");
  }

  /** A modem that answers OK and then ERROR before the command thread has run: the call fails. */
  lemma LaterFinalWins(c: Command, id: nat)
    requires WellFormed(c)
    ensures Feed(Started(c, id), ["OK", "ERROR"]).response.Some?
    ensures var r := Feed(Started(c, id), ["OK", "ERROR"]).response.value; r.final == Some("ERROR") && r.success == 0
  {
    var lines := ["OK", "ERROR"];
    OkAndError();
    FeedMeaning(c, id, lines);
    assert lines[..1] == ["OK"] && lines[..1][..0] == [];
    OneFinalOnly(lines);
    assert IsFinal(lines[1]);
    var final := Feed(Started(c, id), lines).response.value.final;
    LastFinalIs(lines, final);
    FinalIsClassified(lines, final);
  }

  /** The text may be the first one again, though other final results came in between. */
  lemma FirstTextReturns(c: Command, id: nat)
    requires WellFormed(c)
    ensures Feed(Started(c, id), ["OK", "ERROR", "OK"]).response.Some?
    ensures Feed(Started(c, id), ["OK", "ERROR", "OK"]).response.value.final == Some("OK") && IsFinal("ERROR")
  {
    var lines := ["OK", "ERROR", "OK"];
    OkAndError();
    assert IsFinal(lines[0]) && IsFinal(lines[2]);
    OneFinalOnly(lines);
    FinalIsTheFirstExactly(c, id, lines);
    assert LastAt(lines) == 2;
  }

  // ----- what is never freed -----

  function FinalTexts(lines: seq<string>): (texts: seq<string>) {
    if lines == [] then [] else FinalTexts(lines[..|lines| - 1]) + if IsFinal(lines[|lines| - 1]) then [lines[|lines| - 1]] else []
  }

  /** The final lines overwritten while `lines` are routed. */
  function Leaked(ch: Channel, lines: seq<string>): (texts: seq<string>)
    requires Routable(ch)
  {
    if lines == [] then []
    else
      var init := lines[..|lines| - 1];
      Leaked(ch, init) + Overwritten(Feed(ch, init), lines[|lines| - 1])
  }

  lemma {:induction false} FinalsAreKeptOrLeaked(c: Command, id: nat, lines: seq<string>)
    requires WellFormed(c)
    ensures Feed(Started(c, id), lines).response.Some?
    ensures Leaked(Started(c, id), lines) + Held(Feed(Started(c, id), lines).response.value.final) == FinalTexts(lines)
    ensures |FinalTexts(lines)| == Finals(lines)
  {
    FeedMeaning(c, id, lines);
    if lines != [] {
      var init, last := lines[..|lines| - 1], lines[|lines| - 1];
      FinalsAreKeptOrLeaked(c, id, init);
      FinalOfRoute(Feed(Started(c, id), init), last);
      LeakedOnce(Leaked(Started(c, id), init), Feed(Started(c, id), init), last);
    }
  }

  /** A final line moves the one before it to those that leak. */
  lemma LeakedOnce(leaked: seq<string>, ch: Channel, line: string)
    requires ch.response.Some?
    ensures leaked + Overwritten(ch, line) + (if IsFinal(line) then [line] else Held(ch.response.value.final))
            == leaked + Held(ch.response.value.final) + if IsFinal(line) then [line] else []
  {
  }

  lemma FinalOfRoute(ch: Channel, line: string)
    requires Routable(ch) && ch.response.Some?
    ensures Route(ch, line).0.response.Some?
    ensures Route(ch, line).0.response.value.final == if IsFinal(line) then Some(line) else ch.response.value.final
  {
  }

  /** Every text that a conversation makes the reader allocate is in the response at its end, once, or leaks;
      and one leaks exactly if there is a second final line. */
  lemma TextsAddUp(c: Command, id: nat, lines: seq<string>)
    requires WellFormed(c)
    ensures Feed(Started(c, id), lines).response.Some?
    ensures var r := Feed(Started(c, id), lines).response.value;
            && Reverse(r.rev) + (Leaked(Started(c, id), lines) + Held(r.final)) == Answer(c, lines) + FinalTexts(lines)
            && (Leaked(Started(c, id), lines) != [] <==> Finals(lines) > 1)
  {
    FeedMeaning(c, id, lines);
    FinalsAreKeptOrLeaked(c, id, lines);
  }

  // ----- what joins the answer late -----

  /** None of `more` is added to the answer when it follows `lines`. */
  ghost predicate NoneJoins(c: Command, lines: seq<string>, more: seq<string>)
    requires WellFormed(c)
  {
    forall j :: 0 <= j < |more| ==> !BelongsToAnswer(c, lines + more[..j], more[j])
  }

  lemma AnswerGrowsOnce(c: Command, lines: seq<string>, init: seq<string>, last: string)
    requires WellFormed(c) && |Answer(c, lines)| <= |Answer(c, lines + init)|
    requires Answer(c, lines + init) == Answer(c, lines) <==> NoneJoins(c, lines, init)
    ensures |Answer(c, lines)| <= |Answer(c, lines + init + [last])|
    ensures Answer(c, lines + init + [last]) == Answer(c, lines) <==> NoneJoins(c, lines, init + [last])
  {
    AnswerStep(c, lines + init, last);
    NoneJoinsLast(c, lines, init, last);
    SameOnlyIfNothing(Answer(c, lines), Answer(c, lines + init), if BelongsToAnswer(c, lines + init, last) then [last] else []);
  }

  lemma {:induction false} AnswerGrows(c: Command, lines: seq<string>, more: seq<string>)
    requires WellFormed(c)
    ensures |Answer(c, lines)| <= |Answer(c, lines + more)|
    ensures Answer(c, lines + more) == Answer(c, lines) <==> NoneJoins(c, lines, more)
  {
    if more == [] {
      assert lines + more == lines;
    } else {
      AnswerGrows(c, lines, more[..|more| - 1]);
      AnswerGrowsOnce(c, lines, more[..|more| - 1], more[|more| - 1]);
      LastApart(lines, more);
    }
  }

  lemma SameOnlyIfNothing(a: seq<string>, b: seq<string>, x: seq<string>)
    requires |a| <= |b|
    ensures |a| <= |b + x| && (b + x == a <==> b == a && x == [])
  {
  }

  lemma LastApart(lines: seq<string>, more: seq<string>)
    requires more != []
    ensures more == more[..|more| - 1] + [more[|more| - 1]]
    ensures lines + more == lines + more[..|more| - 1] + [more[|more| - 1]]
  {
  }

  lemma NoneJoinsLast(c: Command, lines: seq<string>, init: seq<string>, last: string)
    requires WellFormed(c)
    ensures NoneJoins(c, lines, init + [last]) <==> NoneJoins(c, lines, init) && !BelongsToAnswer(c, lines + init, last)
  {
    var more := init + [last];
    assert forall j :: 0 <= j <= |init| ==> more[..j] == init[..j];
    assert forall j :: 0 <= j < |init| ==> more[j] == init[j];
    if NoneJoins(c, lines, more) {
      assert !BelongsToAnswer(c, lines + more[..|init|], more[|init|]);
      forall j | 0 <= j < |init|
        ensures !BelongsToAnswer(c, lines + init[..j], init[j])
      {
        assert !BelongsToAnswer(c, lines + more[..j], more[j]);
      }
    }
  }

  /** A line that the command would take if nothing had been kept so far. */
  ghost predicate Fits(c: Command, before: seq<string>, line: string)
    requires WellFormed(c)
  {
    Plain(c, before, line) && Matches(c, line)
  }

  /** What `more` has to be like for the answer to stay as it was after `lines`. */
  ghost predicate Unaffected(c: Command, lines: seq<string>, more: seq<string>)
    requires WellFormed(c)
  {
    match c.kind
    case NoResult => true
    case MultiLine => forall j :: 0 <= j < |more| ==> !Fits(c, lines + more[..j], more[j])
    case Numeric => Opened(c, lines) || forall j :: 0 <= j < |more| ==> !Fits(c, lines + more[..j], more[j])
    case SingleLine => Opened(c, lines) || forall j :: 0 <= j < |more| ==> !Fits(c, lines + more[..j], more[j])
    case MultiValue =>
      if Opened(c, lines)
      then forall j :: 0 <= j < |more| && Plain(c, lines + more[..j], more[j]) ==> Succeeded(lines + more[..j])
      else forall j :: 0 <= j < |more| ==> !Fits(c, lines + more[..j], more[j])
  }

  lemma {:induction false} OpenedStays(c: Command, lines: seq<string>, more: seq<string>)
    requires WellFormed(c)
    ensures Opened(c, lines) ==> Opened(c, lines + more)
    ensures (forall j :: 0 <= j < |more| ==> !Fits(c, lines + more[..j], more[j])) ==> (Opened(c, lines + more) <==> Opened(c, lines))
  {
    if more == [] {
      assert lines + more == lines;
    } else {
      var init, last := more[..|more| - 1], more[|more| - 1];
      assert forall j :: 0 <= j <= |init| ==> init[..j] == more[..j];
      assert forall j :: 0 <= j < |init| ==> init[j] == more[j];
      OpenedStays(c, lines, init);
      OpenedStep(c, lines + init, last);
      assert lines + more == lines + init + [last];
      assert more[..|init|] == init;
    }
  }

  lemma UnaffectedMeans(c: Command, lines: seq<string>, more: seq<string>)
    requires WellFormed(c) && Unaffected(c, lines, more)
    ensures NoneJoins(c, lines, more)
  {
    forall j | 0 <= j < |more|
      ensures !BelongsToAnswer(c, lines + more[..j], more[j])
    {
      var init := more[..j];
      assert forall i :: 0 <= i < j ==> init[..i] == more[..i] && init[i] == more[i];
      OpenedStays(c, lines, init);
    }
  }

  lemma NoneJoinsMeans(c: Command, lines: seq<string>, more: seq<string>)
    requires WellFormed(c) && NoneJoins(c, lines, more)
    ensures Unaffected(c, lines, more)
  {
    if Opened(c, lines) {
      forall j | 0 <= j < |more|
        ensures Opened(c, lines + more[..j])
      {
        OpenedStays(c, lines, more[..j]);
      }
    } else if !c.kind.NoResult? && !c.kind.MultiLine? {
      NothingFits(c, lines, more, |more|);
    }
  }

  /** As long as nothing joins an empty answer, nothing has fitted. */
  lemma {:induction false} NothingFits(c: Command, lines: seq<string>, more: seq<string>, n: nat)
    requires WellFormed(c) && NoneJoins(c, lines, more) && n <= |more|
    requires !Opened(c, lines) && !c.kind.NoResult? && !c.kind.MultiLine?
    ensures !Opened(c, lines + more[..n])
    ensures forall j :: 0 <= j < n ==> !Fits(c, lines + more[..j], more[j])
  {
    if n == 0 {
      assert lines + more[..0] == lines;
    } else {
      NothingFits(c, lines, more, n - 1);
      OpenedStep(c, lines + more[..n - 1], more[n - 1]);
      assert lines + more[..n] == lines + more[..n - 1] + [more[n - 1]];
    }
  }

  /** The answer handed over is the one that had come with the first final result exactly if the lines
      after that result are as `Unaffected` says: for a multiline command none of them has the prefix, for
      the others none does or the answer had begun, and a multivalue command that had begun takes
      everything unless its last final result so far is a success. */
  lemma {:induction false} AnswerEndsWithFinalExactly(c: Command, lines: seq<string>)
    requires WellFormed(c) && FirstAt(lines) < |lines|
    ensures var upTo, late := lines[..FirstAt(lines) + 1], lines[FirstAt(lines) + 1..];
            Answer(c, lines) == Answer(c, upTo) <==> Unaffected(c, upTo, late)
  {
    var upTo, late := lines[..FirstAt(lines) + 1], lines[FirstAt(lines) + 1..];
    assert lines == upTo + late;
    AnswerGrows(c, upTo, late);
    if Unaffected(c, upTo, late) {
      UnaffectedMeans(c, upTo, late);
    }
    if NoneJoins(c, upTo, late) {
      NoneJoinsMeans(c, upTo, late);
    }
  }

  lemma NothingYet(c: Command)
    requires WellFormed(c)
    ensures Answer(c, ["OK"]) == []
  {
    OkAndError();
    AnswerStep(c, [], "OK");
    assert [] + ["OK"] == ["OK"];
  }

  /** A line with the prefix that comes after OK joins the answer of a multiline command. */
  lemma LateLineJoins()
    ensures var c := Command(MultiLine, Some("+X:"), None);
            WellFormed(c) && Answer(c, ["OK"]) == [] && Answer(c, ["OK", "+X: 1"]) == ["+X: 1"]
  {
    var c := Command(MultiLine, Some("+X:"), None);
    NothingYet(c);
    AnswerStep(c, ["OK"], "+X: 1");
    assert ["OK"] + ["+X: 1"] == ["OK", "+X: 1"];
    NotFinal();
  }

  lemma NotFinal()
    ensures !IsFinal("+X: 1") && "+X:" <= "+X: 1"
  {
    var line := "+X: 1";
    forall k | 0 <= k < |FINAL_ERROR|
      ensures !(FINAL_ERROR[k] <= line)
    {
      assert FINAL_ERROR[k][0] != line[0] || FINAL_ERROR[k][1] != line[1];
    }
    forall k | 0 <= k < |FINAL_SUCCESS|
      ensures !(FINAL_SUCCESS[k] <= line)
    {
      assert FINAL_SUCCESS[k][0] != line[0];
    }
  }
}
