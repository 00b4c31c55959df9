/** Line classification shared by the AT reader and the command side
    (final result codes of 3GPP TS 27.007 Annex B, unsolicited SMS headers of TS 27.005). */
module AtLines {
  const FINAL_ERROR: seq<string> :=
    ["ERROR", "+CMS ERROR:", "+CME ERROR:", "NO CARRIER", "NO ANSWER", "NO DIALTONE", "*CNTI: +CME ERROR:"]
  const FINAL_SUCCESS: seq<string> := ["OK", "CONNECT"]
  const SMS_UNSOLICITED: seq<string> := ["+CMT:", "+CDS:", "+CBM:"]
  const PROMPT: string := "> "

  predicate StartsWithAny(line: string, table: seq<string>) {
    exists k :: 0 <= k < |table| && table[k] <= line
  }

  predicate IsFinalError(line: string) { StartsWithAny(line, FINAL_ERROR) }

  predicate IsFinalSuccess(line: string) { StartsWithAny(line, FINAL_SUCCESS) }

  predicate IsFinal(line: string) { IsFinalSuccess(line) || IsFinalError(line) }

  predicate IsSmsUnsolicited(line: string) { StartsWithAny(line, SMS_UNSOLICITED) }

  predicate StartsWithDigit(line: string) { line != "" && '0' <= line[0] <= '9' }

  /** The character-by-character prefix test: it is exactly the prefix relation on strings. */
  method StrStartsWith(line: string, prefix: string) returns (b: bool)
    ensures b <==> prefix <= line
  {
    var k := 0;
    while k < |line| && k < |prefix|
      invariant k <= |line| && k <= |prefix|
      invariant line[..k] == prefix[..k]
    {
      if line[k] != prefix[k] {
        return false;
      }
      k := k + 1;
    }
    return k == |prefix|;
  }

  /** The table scan behind the three classifiers of the source. */
  method MatchesTable(line: string, table: seq<string>) returns (b: bool)
    ensures b <==> StartsWithAny(line, table)
  {
    for k := 0 to |table|
      invariant forall j :: 0 <= j < k ==> !(table[j] <= line)
    {
      var hit := StrStartsWith(line, table[k]);
      if hit {
        return true;
      }
    }
    return false;
  }

  /** No line is both a success and an error, so the order in which the reader asks does not
      matter, and neither a prompt nor a digit line can be mistaken for a final result. */
  lemma FinalClassesAreDisjoint(line: string)
    ensures !(IsFinalSuccess(line) && IsFinalError(line))
    ensures IsFinal(line) ==> line != PROMPT && !StartsWithDigit(line) && !IsSmsUnsolicited(line)
  {
    if IsFinalError(line) {
      var k :| 0 <= k < |FINAL_ERROR| && FINAL_ERROR[k] <= line;
      assert line[0] == FINAL_ERROR[k][0];
      if k == 1 || k == 2 {
        assert line[4] == FINAL_ERROR[k][4];
      }
    }
    if IsFinalSuccess(line) {
      var k :| 0 <= k < |FINAL_SUCCESS| && FINAL_SUCCESS[k] <= line;
      assert line[0] == FINAL_SUCCESS[k][0];
    }
    if IsSmsUnsolicited(line) {
      var k :| 0 <= k < |SMS_UNSOLICITED| && SMS_UNSOLICITED[k] <= line;
      assert line[0] == SMS_UNSOLICITED[k][0];
      assert line[4] == SMS_UNSOLICITED[k][4];
    }
  }

  // ----- the classes, spelled out -----

  lemma SuccessesAre(line: string)
    ensures IsFinalSuccess(line) <==> "OK" <= line || "CONNECT" <= line
  {
    assert "OK" <= line ==> FINAL_SUCCESS[0] <= line;
    assert "CONNECT" <= line ==> FINAL_SUCCESS[1] <= line;
  }

  lemma ErrorsAre(line: string)
    ensures IsFinalError(line) <==>
            "ERROR" <= line || "+CMS ERROR:" <= line || "+CME ERROR:" <= line || "NO CARRIER" <= line || "NO ANSWER" <= line
            || "NO DIALTONE" <= line || "*CNTI: +CME ERROR:" <= line
  {
    assert "ERROR" <= line ==> FINAL_ERROR[0] <= line;
    assert "+CMS ERROR:" <= line ==> FINAL_ERROR[1] <= line;
    assert "+CME ERROR:" <= line ==> FINAL_ERROR[2] <= line;
    assert "NO CARRIER" <= line ==> FINAL_ERROR[3] <= line;
    assert "NO ANSWER" <= line ==> FINAL_ERROR[4] <= line;
    assert "NO DIALTONE" <= line ==> FINAL_ERROR[5] <= line;
    assert "*CNTI: +CME ERROR:" <= line ==> FINAL_ERROR[6] <= line;
  }

  lemma NotificationsAre(line: string)
    ensures IsSmsUnsolicited(line) <==> "+CMT:" <= line || "+CDS:" <= line || "+CBM:" <= line
  {
    assert "+CMT:" <= line ==> SMS_UNSOLICITED[0] <= line;
    assert "+CDS:" <= line ==> SMS_UNSOLICITED[1] <= line;
    assert "+CBM:" <= line ==> SMS_UNSOLICITED[2] <= line;
  }

  lemma DigitLinesAre(line: string)
    ensures StartsWithDigit(line) <==> line != "" && line[0] in "0123456789"
  {
  }
}
