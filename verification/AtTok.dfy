/** The destructive tokenizer for AT response lines. */
module AtTok {
  import opened Wrappers

  const INT_SPAN: int := 0x1_0000_0000
  const LONG_MAX: int := 0x7FFF_FFFF_FFFF_FFFF

  predicate IsSpace(c: char) { c == ' ' || '\t' <= c <= '\r' }

  predicate IsDigit(c: char) { '0' <= c <= '9' }

  // ----- the tokenizer on strings; no rest stands for the NULL cursor -----

  function SkipSpaces(s: string): (r: string) {
    if s != "" && IsSpace(s[0]) then SkipSpaces(s[1..]) else s
  }

  function IndexOf(s: string, c: char): (k: nat)
    ensures k <= |s|
  {
    if s == "" || s[0] == c then 0 else 1 + IndexOf(s[1..], c)
  }

  /** strsep on a string: the text up to the delimiter and what follows it, if it occurs. */
  function Separate(s: string, delim: char): (r: (string, Option<string>)) {
    var k := IndexOf(s, delim);
    (s[..k], if k < |s| then Some(s[k + 1..]) else None)
  }

  function SkipComma(s: string): (r: string) {
    var k := IndexOf(s, ',');
    if k < |s| then s[k + 1..] else ""
  }

  /** nextTok on a string. */
  function NextToken(s: string): (r: (string, Option<string>)) {
    var t := SkipSpaces(s);
    if t != "" && t[0] == '"' then
      var (token, rest) := Separate(t[1..], '"');
      (token, if rest == None then None else Some(SkipComma(rest.value)))
    else Separate(t, ',')
  }

  predicate HasMoreOf(rest: Option<string>) { rest.Some? && rest.value != "" }

  // ----- numbers -----

  function Value(s: string): (n: nat)
    requires forall k :: 0 <= k < |s| ==> IsDigit(s[k])
  {
    if s == "" then 0
    else
      var c := s[|s| - 1];
      assert IsDigit(c);
      Value(s[..|s| - 1]) * 10 + (c as int - '0' as int)
  }

  function LeadingDigits(s: string): (r: string)
    ensures r <= s && forall k :: 0 <= k < |r| ==> IsDigit(r[k])
  {
    if s == "" || !IsDigit(s[0]) then "" else [s[0]] + LeadingDigits(s[1..])
  }

  /** The sign and the digits that strtol reads, after white space. */
  function SignAndDigits(s: string): (r: (bool, string))
    ensures forall k :: 0 <= k < |r.1| ==> IsDigit(r.1[k])
  {
    var t := SkipSpaces(s);
    (t != "" && t[0] == '-', LeadingDigits(if t != "" && (t[0] == '-' || t[0] == '+') then t[1..] else t))
  }

  function Clamp(v: int): int { if v > LONG_MAX then LONG_MAX else if v < -LONG_MAX - 1 then -LONG_MAX - 1 else v }

  /** strtol in base 10 with a 64-bit long, and the conversion to int; None if there is no number. */
  function Strtol(s: string): (n: Option<int>) {
    var (negative, digits) := SignAndDigits(s);
    if digits == "" then None else Some(ToInt(Clamp(if negative then 0 - Value(digits) else Value(digits))))
  }

  function ToInt(x: int): int { (x + 0x8000_0000) % INT_SPAN - 0x8000_0000 }

  // ----- printing -----

  datatype Field = IntField(n: int) | StrField(s: string)

  /** A field with the white space before it and whatever stands between it and the next comma. */
  datatype Piece = Piece(pad: string, field: Field, slack: string)

  /** White space in the C locale. */
  predicate Blank(s: string) { forall k :: 0 <= k < |s| ==> s[k] in " \t\n\U{0B}\U{0C}\r" }

  /** What stands behind a number does not go on with it. */
  predicate ValidPiece(p: Piece) {
    && Blank(p.pad) && (forall k :: 0 <= k < |p.slack| ==> p.slack[k] != ',' && p.slack[k] != '\0')
    && match p.field
       case IntField(n) => -0x8000_0000 <= n < 0x8000_0000 && (p.slack != "" ==> p.slack[0] !in "0123456789")
       case StrField(s) => forall k :: 0 <= k < |s| ==> s[k] != '"' && s[k] != '\0'
  }

  predicate AllValid(pieces: seq<Piece>) { forall j :: 0 <= j < |pieces| ==> ValidPiece(pieces[j]) }

  function Digits(n: nat): (s: string) {
    (if n < 10 then "" else Digits(n / 10)) + [(n % 10 + '0' as int) as char]
  }

  function Text(f: Field): (s: string) {
    match f
    case IntField(n) => if n < 0 then "-" + Digits(-n) else Digits(n)
    case StrField(s) => s
  }

  function Show(p: Piece): (s: string) {
    p.pad + (if p.field.IntField? then Text(p.field) else ['"'] + Text(p.field) + ['"']) + p.slack
  }

  /** The token a piece is read back as: a number with what stands behind it, a string without its quotes. */
  function Token(p: Piece): (s: string) { if p.field.IntField? then Text(p.field) + p.slack else Text(p.field) }

  /** The pieces joined by commas. */
  function Join(pieces: seq<Piece>): (s: string) {
    if pieces == [] then "" else if |pieces| == 1 then Show(pieces[0]) else Show(pieces[0]) + "," + Join(pieces[1..])
  }

  lemma {:induction false} DigitsAreDigits(n: nat)
    ensures Digits(n) != "" && forall k :: 0 <= k < |Digits(n)| ==> IsDigit(Digits(n)[k])
    ensures Value(Digits(n)) == n
  {
    if n >= 10 {
      DigitsAreDigits(n / 10);
      assert Digits(n)[..|Digits(n)| - 1] == Digits(n / 10);
    } else {
      assert Digits(n)[..0] == "";
    }
  }

  lemma {:induction false} AllLeading(s: string, slack: string)
    requires forall k :: 0 <= k < |s| ==> IsDigit(s[k])
    requires slack != "" ==> slack[0] !in "0123456789"
    ensures LeadingDigits(s + slack) == s
  {
    if s == "" {
      assert s + slack == slack;
    } else {
      assert (s + slack)[1..] == s[1..] + slack;
      AllLeading(s[1..], slack);
    }
  }

  lemma NoCommaInNumbers(n: int)
    ensures var t := Text(IntField(n)); t != "" && !IsSpace(t[0]) && t[0] != '"' && forall k :: 0 <= k < |t| ==> t[k] != ','
  {
    DigitsAreDigits(if n < 0 then -n else n);
  }

  lemma SignAndDigitsOf(sign: string, s: string, slack: string)
    requires sign == "" || sign == "-" || sign == "+"
    requires s != "" && forall k :: 0 <= k < |s| ==> IsDigit(s[k])
    requires slack != "" ==> slack[0] !in "0123456789"
    ensures SignAndDigits(sign + s + slack) == (sign == "-", s)
  {
    var t := sign + s + slack;
    AllLeading(s, slack);
    assert t[0] == if sign == "" then s[0] else sign[0];
    assert SkipSpaces(t) == t;
    if sign == "" {
      assert t == s + slack && IsDigit(s[0]);
    } else {
      assert t[1..] == s + slack;
    }
  }

  /** Numbers that do not fit a 64-bit long are cut off there, and then the low 32 bits are taken. */
  lemma WrapIs(n: int)
    ensures var r := ToInt(Clamp(n));
            && -0x8000_0000 <= r < 0x8000_0000
            && (-0x8000_0000_0000_0000 <= n < 0x8000_0000_0000_0000 ==> (n - r) % 0x1_0000_0000 == 0)
            && (-0x8000_0000 <= n < 0x8000_0000 ==> r == n)
            && (n >= 0x8000_0000_0000_0000 ==> r == -1) && (n < -0x8000_0000_0000_0000 ==> r == 0)
  {
  }

  lemma TextOfInt(n: int) returns (digits: string)
    ensures Text(IntField(n)) == (if n < 0 then "-" else "") + digits
    ensures digits != "" && (forall k :: 0 <= k < |digits| ==> IsDigit(digits[k])) && Value(digits) == if n < 0 then -n else n
  {
    var m: nat := if n < 0 then -n else n;
    digits := Digits(m);
    DigitsAreDigits(m);
    assert "" + digits == digits;
  }

  lemma StrtolOf(sign: string, digits: string, slack: string)
    requires sign == "" || sign == "-" || sign == "+"
    requires digits != "" && forall k :: 0 <= k < |digits| ==> IsDigit(digits[k])
    requires slack != "" ==> slack[0] !in "0123456789"
    ensures Strtol(sign + digits + slack) == Some(ToInt(Clamp(if sign == "-" then 0 - Value(digits) else Value(digits))))
  {
    SignAndDigitsOf(sign, digits, slack);
  }

  lemma PrintedIsWrapped(n: int, slack: string)
    requires slack != "" ==> slack[0] !in "0123456789"
    ensures Strtol(Text(IntField(n)) + slack) == Some(ToInt(Clamp(n)))
  {
    var digits := TextOfInt(n);
    StrtolOf(if n < 0 then "-" else "", digits, slack);
  }

  lemma PlusIsWrapped(n: nat, slack: string)
    requires slack != "" ==> slack[0] !in "0123456789"
    ensures Strtol("+" + Text(IntField(n)) + slack) == Some(ToInt(Clamp(n)))
  {
    var digits := TextOfInt(n);
    assert Text(IntField(n)) == digits;
    StrtolOf("+", digits, slack);
  }

  /** Printing an int and reading it back gives the int, with or without a plus sign and whatever stands behind
      it; a number beyond the range of an int gives its low 32 bits, or -1 and 0 beyond that of a long. */
  lemma NumbersRoundTrip(n: int, slack: string)
    requires slack != "" ==> slack[0] !in "0123456789"
    ensures n >= 0 ==> Strtol("+" + Text(IntField(n)) + slack) == Strtol(Text(IntField(n)) + slack)
    ensures var r := Strtol(Text(IntField(n)) + slack);
            && r.Some? && -0x8000_0000 <= r.value < 0x8000_0000
            && (-0x8000_0000 <= n < 0x8000_0000 ==> r.value == n)
            && (-0x8000_0000_0000_0000 <= n < 0x8000_0000_0000_0000 ==> (n - r.value) % 0x1_0000_0000 == 0)
            && (n >= 0x8000_0000_0000_0000 ==> r.value == -1) && (n < -0x8000_0000_0000_0000 ==> r.value == 0)
  {
    PrintedIsWrapped(n, slack);
    if n >= 0 {
      PlusIsWrapped(n, slack);
    }
    WrapIs(n);
  }

  lemma {:induction false} IndexIs(s: string, c: char, k: nat)
    requires k <= |s| && (k < |s| ==> s[k] == c) && forall j :: 0 <= j < k ==> s[j] != c
    ensures IndexOf(s, c) == k
  {
    if k > 0 {
      IndexIs(s[1..], c, k - 1);
    }
  }

  lemma {:induction false} BlanksAreSkipped(pad: string, t: string)
    requires Blank(pad) && (t == "" || !IsSpace(t[0]))
    ensures SkipSpaces(pad + t) == t
  {
    if pad == "" {
      assert pad + t == t;
    } else {
      assert (pad + t)[1..] == pad[1..] + t;
      assert pad[0] in " \t\n\U{0B}\U{0C}\r";
      BlanksAreSkipped(pad[1..], t);
    }
  }

  lemma NumberIsRead(pad: string, n: int, slack: string, more: string)
    requires Blank(pad) && (more == "" || more[0] == ',') && forall k :: 0 <= k < |slack| ==> slack[k] != ','
    ensures var t := Text(IntField(n)) + slack;
            NextToken(pad + (t + more)) == (t, if more == "" then None else Some(more[1..]))
  {
    var t := Text(IntField(n)) + slack;
    var s := t + more;
    NoCommaInNumbers(n);
    assert s[0] == Text(IntField(n))[0];
    BlanksAreSkipped(pad, s);
    IndexIs(s, ',', |t|);
    assert s[..|t|] == t;
    assert more != "" ==> s[|t| + 1..] == more[1..];
  }

  lemma QuotedIsRead(pad: string, text: string, slack: string, more: string)
    requires Blank(pad) && (more == "" || more[0] == ',') && forall k :: 0 <= k < |slack| ==> slack[k] != ','
    requires forall k :: 0 <= k < |text| ==> text[k] != '"'
    ensures NextToken(pad + (['"'] + text + ['"'] + slack + more)) == (text, Some(if more == "" then "" else more[1..]))
  {
    var s := ['"'] + text + ['"'] + slack + more;
    var t := text + ['"'] + (slack + more);
    assert s[1..] == t;
    BlanksAreSkipped(pad, s);
    IndexIs(t, '"', |text|);
    assert t[..|text|] == text;
    assert t[|text| + 1..] == slack + more;
    IndexIs(slack + more, ',', |slack|);
    assert more != "" ==> (slack + more)[|slack| + 1..] == more[1..];
  }

  /** What is left after the first of the pieces. */
  function RestOf(pieces: seq<Piece>): (r: Option<string>)
    requires pieces != []
  {
    if |pieces| > 1 then Some(Join(pieces[1..])) else if pieces[0].field.IntField? then None else Some("")
  }

  lemma Regroup(a: string, b: string, c: string, d: string)
    ensures a + b + c + d == a + (b + c + d)
  {
  }

  lemma Associate(a: string, b: string, c: string)
    ensures a + b + c == a + (b + c)
  {
  }

  lemma IntPieceIsRead(p: Piece, more: string)
    requires ValidPiece(p) && p.field.IntField? && (more == "" || more[0] == ',')
    ensures NextToken(Show(p) + more) == (Token(p), if more == "" then None else Some(more[1..]))
  {
    NumberIsRead(p.pad, p.field.n, p.slack, more);
    Regroup(p.pad, Text(p.field), p.slack, more);
  }

  lemma StrPieceIsRead(p: Piece, more: string)
    requires ValidPiece(p) && p.field.StrField? && (more == "" || more[0] == ',')
    ensures NextToken(Show(p) + more) == (Token(p), Some(if more == "" then "" else more[1..]))
  {
    QuotedIsRead(p.pad, p.field.s, p.slack, more);
    Regroup(p.pad, ['"'] + p.field.s + ['"'], p.slack, more);
  }

  /** What stands behind the first of the pieces. */
  function MoreOf(pieces: seq<Piece>): (more: string) { if |pieces| > 1 then "," + Join(pieces[1..]) else "" }

  lemma JoinSplits(pieces: seq<Piece>)
    requires pieces != []
    ensures Join(pieces) == Show(pieces[0]) + MoreOf(pieces)
    ensures |pieces| > 1 ==> MoreOf(pieces)[1..] == Join(pieces[1..])
  {
    if |pieces| > 1 {
      Associate(Show(pieces[0]), ",", Join(pieces[1..]));
      BehindComma(Join(pieces[1..]));
    } else {
      NothingBehind(Show(pieces[0]));
    }
  }

  lemma BehindComma(s: string)
    ensures ("," + s)[1..] == s
  {
  }

  lemma NothingBehind(s: string)
    ensures s + "" == s
  {
  }

  /** Reading one printed field, with white space before it and anything up to the comma behind it, leaves
      exactly the others. */
  lemma FieldIsRead(pieces: seq<Piece>)
    requires pieces != [] && ValidPiece(pieces[0])
    ensures NextToken(Join(pieces)) == (Token(pieces[0]), RestOf(pieces))
  {
    JoinSplits(pieces);
    if pieces[0].field.IntField? {
      IntPieceIsRead(pieces[0], MoreOf(pieces));
    } else {
      StrPieceIsRead(pieces[0], MoreOf(pieces));
    }
  }

  lemma JoinIsNotEmpty(pieces: seq<Piece>)
    requires pieces != []
    ensures Join(pieces) != ""
  {
    if pieces[0].field.IntField? {
      NoCommaInNumbers(pieces[0].field.n);
    }
  }

  /** The cursor after reading `k` tokens; it may have become NULL. */
  function AfterTokens(rest: Option<string>, k: nat): (r: Option<string>)
    decreases k
  {
    if k == 0 || rest == None then rest else AfterTokens(NextToken(rest.value).1, k - 1)
  }

  lemma OneTokenFirst(s: string, r: Option<string>, k: nat)
    requires k > 0 && NextToken(s).1 == r
    ensures AfterTokens(Some(s), k) == AfterTokens(r, k - 1)
  {
  }

  lemma NoTokens(r: Option<string>)
    ensures AfterTokens(r, 0) == r
  {
  }

  /** The first printed field is read, and the rest of the reading starts at the others. */
  lemma StepOverField(pieces: seq<Piece>, k: nat)
    requires pieces != [] && ValidPiece(pieces[0]) && k > 0
    ensures AfterTokens(Some(Join(pieces)), k) == AfterTokens(RestOf(pieces), k - 1)
  {
    FieldIsRead(pieces);
    OneTokenFirst(Join(pieces), RestOf(pieces), k);
  }

  /** Strings each of which is what reading a token of the one before leaves. */
  predicate IsChain(rests: seq<string>) {
    forall j :: 0 <= j < |rests| - 1 ==> NextToken(rests[j]).1 == Some(rests[j + 1])
  }

  lemma {:induction false} AlongChain(rests: seq<string>)
    requires rests != [] && IsChain(rests)
    ensures AfterTokens(Some(rests[0]), |rests| - 1) == Some(rests[|rests| - 1])
    decreases |rests|
  {
    if |rests| == 1 {
      NoTokens(Some(rests[0]));
    } else {
      assert NextToken(rests[0]).1 == Some(rests[1]);
      OneTokenFirst(rests[0], Some(rests[1]), |rests| - 1);
      AlongChain(rests[1..]);
    }
  }

  lemma RestIsRead(pieces: seq<Piece>, j: nat)
    requires j + 1 < |pieces| && AllValid(pieces)
    ensures NextToken(Join(pieces[j..])).1 == Some(Join(pieces[j + 1..]))
  {
    assert pieces[j..][1..] == pieces[j + 1..];
    FieldIsRead(pieces[j..]);
  }

  lemma CursorInFields(pieces: seq<Piece>, k: nat)
    requires k < |pieces| && AllValid(pieces)
    ensures AfterTokens(Some(Join(pieces)), k) == Some(Join(pieces[k..]))
  {
    var rests := seq(k + 1, j requires 0 <= j <= k => Join(pieces[j..]));
    forall j | 0 <= j < k
      ensures NextToken(rests[j]).1 == Some(rests[j + 1])
    {
      RestIsRead(pieces, j);
    }
    AlongChain(rests);
    assert pieces[0..] == pieces;
  }

  lemma {:induction false} CursorPastFields(pieces: seq<Piece>)
    requires AllValid(pieces)
    ensures !HasMoreOf(AfterTokens(Some(Join(pieces)), |pieces|))
  {
    if pieces == [] {
      NoTokens(Some(Join(pieces)));
    } else {
      StepOverField(pieces, |pieces|);
      if |pieces| > 1 {
        CursorPastFields(pieces[1..]);
      } else {
        NoTokens(RestOf(pieces));
      }
    }
  }

  /** Reading a printed list field by field gives the list back, commas inside quotes included, and
      there is more exactly while pieces remain. */
  lemma {:induction false} PrintedFieldsAreRead(pieces: seq<Piece>, k: nat)
    requires k <= |pieces| && AllValid(pieces)
    ensures HasMoreOf(AfterTokens(Some(Join(pieces)), k)) <==> k < |pieces|
    ensures k < |pieces| ==> AfterTokens(Some(Join(pieces)), k) == Some(Join(pieces[k..]))
    ensures k < |pieces| ==> NextToken(Join(pieces[k..])).0 == Token(pieces[k])
  {
    if k < |pieces| {
      CursorInFields(pieces, k);
      FieldIsRead(pieces[k..]);
      JoinIsNotEmpty(pieces[k..]);
    } else {
      CursorPastFields(pieces);
    }
  }

  lemma {:induction false} AfterOneMore(rest: Option<string>, k: nat)
    ensures AfterTokens(rest, k + 1) ==
            (if AfterTokens(rest, k) == None then None else NextToken(AfterTokens(rest, k).value).1)
    decreases k
  {
    if k == 0 || rest == None {
      assert AfterTokens(rest, 0) == rest;
      assert rest.Some? ==> AfterTokens(NextToken(rest.value).1, 0) == NextToken(rest.value).1;
    } else {
      AfterOneMore(NextToken(rest.value).1, k - 1);
    }
  }

  lemma {:induction false} NoneStays(rest: Option<string>, i: nat, k: nat)
    requires i <= k && AfterTokens(rest, i) == None
    ensures AfterTokens(rest, k) == None
    decreases k
  {
    if i < k {
      NoneStays(rest, i, k - 1);
      AfterOneMore(rest, k - 1);
    }
  }

  /** What is left of a response line after the prefix has been stepped over. */
  function AfterPrefix(line: string): (r: Option<string>) {
    var k := IndexOf(line, ':');
    if k < |line| then Some(line[k + 1..]) else None
  }

  /** The int at position `k` of a line, as at_tok_start and at_tok_index_int find it. */
  function IntAt(line: string, k: nat): (n: Option<int>) {
    var rest := AfterTokens(AfterPrefix(line), k);
    if rest == None then None else Strtol(NextToken(rest.value).0)
  }

  /** A printed response line gives back the int printed at every position that holds one, and none past the end. */
  lemma {:induction false} PrintedLineIsIndexed(prefix: string, pieces: seq<Piece>, k: nat)
    requires forall j :: 0 <= j < |prefix| ==> prefix[j] != ':'
    requires AllValid(pieces)
    ensures k < |pieces| && pieces[k].field.IntField? ==> IntAt(prefix + ":" + Join(pieces), k) == Some(pieces[k].field.n)
    ensures k == |pieces| ==> IntAt(prefix + ":" + Join(pieces), k) == None
  {
    var line := prefix + ":" + Join(pieces);
    IndexIs(line, ':', |prefix|);
    assert line[|prefix| + 1..] == Join(pieces);
    if k <= |pieces| {
      PrintedFieldsAreRead(pieces, k);
    }
    if k < |pieces| && pieces[k].field.IntField? {
      NumbersRoundTrip(pieces[k].field.n, pieces[k].slack);
    }
    if k == |pieces| && AfterTokens(Some(Join(pieces)), k) != None {
      assert AfterTokens(Some(Join(pieces)), k).value == "";
    }
  }

  // ----- the cursor in the buffer -----

  /** A C string being tokenized: delimiters are overwritten with NULs as tokens are handed out. The
      ghost fields record every token handed out so far, by position and by text. */
  class Cursor {
    const buf: array<char>
    var cur: Option<nat>
    ghost var tokens: seq<nat>
    ghost var texts: seq<string>

    constructor (s: string)
      requires forall k :: 0 <= k < |s| ==> s[k] != '\0'
      ensures Valid() && Rest() == Some(s) && tokens == [] && texts == []
    {
      buf := new char[|s| + 1](k requires 0 <= k <= |s| => if k < |s| then s[k] else '\0');
      cur, tokens, texts := Some(0), [], [];
      new;
      assert buf[..|s|] == s;
    }

    /** The string that a char pointer to `p` denotes is `text`, and it ends before `limit`. */
    ghost predicate TokenIs(p: nat, text: string, limit: nat)
      reads buf
    {
      && p + |text| < limit <= buf.Length && buf[p + |text|] == '\0'
      && forall k :: 0 <= k < |text| ==> text[k] != '\0' && buf[p + k] == text[k]
    }

    /** Tokens handed out stay what they were, because they lie before the cursor. */
    ghost predicate Valid()
      reads this, buf
    {
      && buf.Length > 0 && buf[buf.Length - 1] == '\0'
      && (cur.Some? ==> cur.value < buf.Length && forall k :: cur.value <= k < buf.Length - 1 ==> buf[k] != '\0')
      && TokensBelow(if cur.Some? then cur.value else buf.Length)
    }

    ghost predicate TokensBelow(limit: nat)
      reads this, buf
    {
      |tokens| == |texts| && forall k :: 0 <= k < |tokens| ==> TokenIs(tokens[k], texts[k], limit)
    }

    ghost function Rest(): Option<string>
      requires Valid()
      reads this, buf
    {
      if cur == None then None else Some(buf[cur.value..buf.Length - 1])
    }

    /** Moving the cursor forward. */
    method Advance(to: nat)
      requires Valid() && cur.Some? && cur.value <= to < buf.Length
      modifies this`cur
      ensures Valid() && cur == Some(to) && Rest() == Some(old(Rest()).value[to - old(cur.value)..])
    {
      cur := Some(to);
    }

    method Find(delim: char) returns (p: nat)
      requires Valid() && cur.Some?
      ensures cur.value <= p < buf.Length && p - cur.value == IndexOf(Rest().value, delim)
      ensures buf[p] == '\0' <==> p == buf.Length - 1
      ensures p < buf.Length - 1 ==> buf[p] == delim
    {
      p := cur.value;
      while buf[p] != '\0' && buf[p] != delim
        invariant cur.value <= p < buf.Length
        invariant forall k :: cur.value <= k < p ==> buf[k] != delim
        decreases buf.Length - p
      {
        p := p + 1;
      }
      IndexIs(Rest().value, delim, p - cur.value);
    }

    method SkipWhiteSpace()
      requires Valid()
      modifies this`cur
      ensures Valid()
      ensures if old(cur) == None then cur == None else cur.Some? && Rest() == Some(SkipSpaces(old(Rest()).value))
    {
      if cur == None {
        return;
      }
      while buf[cur.value] != '\0' && IsSpace(buf[cur.value])
        invariant Valid() && cur.Some? && SkipSpaces(Rest().value) == SkipSpaces(old(Rest()).value)
        decreases buf.Length - cur.value
      {
        assert Rest().value[1..] == buf[cur.value + 1..buf.Length - 1];
        Advance(cur.value + 1);
      }
    }

    method SkipNextComma()
      requires Valid()
      modifies this`cur
      ensures Valid()
      ensures if old(cur) == None then cur == None else cur.Some? && Rest() == Some(SkipComma(old(Rest()).value))
    {
      if cur == None {
        return;
      }
      ghost var rest := Rest().value;
      var p := Find(',');
      assert |rest| == buf.Length - 1 - cur.value;
      Advance(if buf[p] == ',' then p + 1 else p);
      assert rest[|rest|..] == "";
    }

    /** Ends the token that starts at the cursor. The tokens before it are not touched. */
    method EndToken(q: nat)
      requires Valid() && cur.Some? && cur.value <= q < buf.Length
      modifies buf
      ensures buf[q] == '\0' && forall k :: 0 <= k < buf.Length && k != q ==> buf[k] == old(buf[k])
      ensures TokensBelow(cur.value)
    {
      ghost var p := cur.value;
      buf[q] := '\0';
      forall k | 0 <= k < |tokens|
        ensures TokenIs(tokens[k], texts[k], p)
      {
        assert old(TokenIs(tokens[k], texts[k], p));
      }
    }

    ghost method AddToken(p: nat, q: nat, limit: nat)
      requires TokensBelow(p) && p <= q < limit <= buf.Length && buf[q] == '\0' && forall k :: p <= k < q ==> buf[k] != '\0'
      modifies this`tokens, this`texts
      ensures tokens == old(tokens) + [p] && texts == old(texts) + [buf[p..q]] && TokensBelow(limit)
    {
      assert forall k :: 0 <= k < |tokens| ==> TokenIs(tokens[k], texts[k], p);
      tokens, texts := tokens + [p], texts + [buf[p..q]];
      assert TokenIs(p, buf[p..q], limit);
    }

    method Strsep(delim: char) returns (p: Option<nat>)
      requires Valid() && delim != '\0'
      modifies this, buf
      ensures Valid()
      ensures if old(cur) == None then p == None && cur == None && tokens == old(tokens) && texts == old(texts)
              else
                && p == old(cur) && tokens == old(tokens) + [p.value]
                && texts == old(texts) + [Separate(old(Rest()).value, delim).0]
                && Rest() == Separate(old(Rest()).value, delim).1
    {
      if cur == None {
        return None;
      }
      p := cur;
      ghost var rest, start := Rest().value, cur.value;
      var q := Find(delim);
      assert rest[..q - start] == buf[start..q];
      if buf[q] == '\0' {
        assert |rest| == q - start;
        AddToken(start, q, buf.Length);
        cur := None;
      } else {
        assert rest[q - start + 1..] == buf[q + 1..buf.Length - 1];
        ghost var before := buf[..];
        EndToken(q);
        assert buf[start..q] == before[start..q] && buf[q + 1..buf.Length - 1] == before[q + 1..buf.Length - 1];
        AddToken(start, q, q + 1);
        cur := Some(q + 1);
      }
    }

    method NextTok() returns (p: Option<nat>)
      requires Valid()
      modifies this, buf
      ensures Valid()
      ensures if old(cur) == None then p == None && cur == None && tokens == old(tokens) && texts == old(texts)
              else
                && p.Some? && tokens == old(tokens) + [p.value]
                && texts == old(texts) + [NextToken(old(Rest()).value).0]
                && Rest() == NextToken(old(Rest()).value).1
    {
      SkipWhiteSpace();
      if cur == None {
        return None;
      }
      if buf[cur.value] == '"' {
        Advance(cur.value + 1);
        p := Strsep('"');
        SkipNextComma();
      } else {
        p := Strsep(',');
      }
    }

    /** at_tok_start: step over the prefix. */
    method Start() returns (ok: bool)
      requires Valid()
      modifies this`cur
      ensures Valid()
      ensures Rest() == if old(cur) == None then None else AfterPrefix(old(Rest()).value)
      ensures ok <==> Rest().Some?
    {
      if cur == None {
        return false;
      }
      var p := Find(':');
      assert |Rest().value| == buf.Length - 1 - cur.value;
      ok := buf[p] == ':';
      if ok {
        Advance(p + 1);
      } else {
        cur := None;
      }
    }

    /** The C string at a token handed out. */
    method ReadToken(p: nat, ghost k: nat) returns (s: string)
      requires Valid() && k < |tokens| && tokens[k] == p
      ensures s == texts[k]
    {
      assert TokenIs(p, texts[k], if cur.Some? then cur.value else buf.Length);
      var i := p;
      s := "";
      while buf[i] != '\0'
        invariant p <= i <= p + |texts[k]| && s == texts[k][..i - p]
        invariant i < p + |texts[k]| ==> buf[i] == texts[k][i - p] && buf[i] != '\0'
        decreases p + |texts[k]| - i
      {
        s := s + [buf[i]];
        i := i + 1;
      }
      assert texts[k][..i - p] == texts[k];
    }

    /** at_tok_nextint; `out` is the value stored before the call, `stored` the one after it. */
    method NextInt(out: int) returns (ok: bool, stored: int)
      requires Valid()
      modifies this, buf
      ensures Valid()
      ensures if old(cur) == None then !ok && stored == out && cur == None
              else
                && var n := Strtol(NextToken(old(Rest()).value).0);
                && (ok <==> n.Some?) && stored == (if n.Some? then n.value else 0)
                && Rest() == NextToken(old(Rest()).value).1
      ensures old(tokens) <= tokens && old(texts) <= texts
    {
      if cur == None {
        return false, out;
      }
      var p := NextTok();
      var s := ReadToken(p.value, |tokens| - 1);
      var n := Strtol(s);
      return n.Some?, if n.Some? then n.value else 0;
    }

    /** at_tok_nextstr. */
    method NextStr(out: Option<nat>) returns (ok: bool, stored: Option<nat>)
      requires Valid()
      modifies this, buf
      ensures Valid()
      ensures if old(cur) == None then !ok && stored == out && cur == None
              else
                && ok && stored.Some? && tokens == old(tokens) + [stored.value]
                && texts == old(texts) + [NextToken(old(Rest()).value).0]
                && Rest() == NextToken(old(Rest()).value).1
    {
      if cur == None {
        return false, out;
      }
      stored := NextTok();
      ok := true;
    }

    /** The loop over the values that are not wanted. */
    method Discard(n: nat) returns (ok: bool)
      requires Valid()
      modifies this, buf
      ensures Valid() && Rest() == AfterTokens(old(Rest()), n)
      ensures !ok ==> cur == None
      ensures old(tokens) <= tokens && old(texts) <= texts
    {
      ghost var rest := Rest();
      for i := 0 to n
        invariant Valid() && Rest() == AfterTokens(rest, i)
        invariant old(tokens) <= tokens && old(texts) <= texts
      {
        AfterOneMore(rest, i);
        var p := NextTok();
        if p == None {
          NoneStays(rest, i, n);
          return false;
        }
      }
      return true;
    }

    /** at_tok_index_int: discard `index` tokens and read an int. */
    method IndexInt(out: int, index: int) returns (ok: bool, stored: int)
      requires Valid()
      modifies this, buf
      ensures Valid()
      ensures var rest := AfterTokens(old(Rest()), if index < 0 then 0 else index);
              if rest == None then !ok && stored == out && cur == None
              else
                && var n := Strtol(NextToken(rest.value).0);
                && (ok <==> n.Some?) && stored == (if n.Some? then n.value else 0)
                && Rest() == NextToken(rest.value).1
      ensures old(tokens) <= tokens && old(texts) <= texts
    {
      var n: nat := if index < 0 then 0 else index;
      ok := Discard(n);
      if !ok {
        return false, out;
      }
      ok, stored := NextInt(out);
    }

    method HasMore() returns (more: bool)
      requires Valid()
      ensures more <==> HasMoreOf(Rest())
    {
      return cur.Some? && buf[cur.value] != '\0';
    }
  }
}
