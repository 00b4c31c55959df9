/** The list of emergency numbers: duplicates are dropped in place. */
module EccList {
  import opened Strings
  import opened Wrappers

  const MAX_NUMBERS := 32

  predicate IsDelimiter(c: char) { c == ' ' || c == ',' }

  predicate IsNumber(t: string) { t != "" && forall k :: 0 <= k < |t| ==> !IsDelimiter(t[k]) }

  predicate AreNumbers(ts: seq<string>) { forall k :: 0 <= k < |ts| ==> IsNumber(ts[k]) }

  // ----- strtok -----

  function Skip(s: string): (r: string)
    ensures |r| <= |s| && (r != "" ==> !IsDelimiter(r[0]))
  {
    if s != "" && IsDelimiter(s[0]) then Skip(s[1..]) else s
  }

  function Span(s: string): (n: nat)
    ensures n <= |s| && (n < |s| ==> IsDelimiter(s[n])) && forall k :: 0 <= k < n ==> !IsDelimiter(s[k])
  {
    if s == "" || IsDelimiter(s[0]) then 0 else 1 + Span(s[1..])
  }

  function Tokens(s: string): (ts: seq<string>)
    decreases |s|
  {
    var t := Skip(s);
    if t == "" then []
    else
      var n := Span(t);
      [t[..n]] + Tokens(t[n..])
  }

  lemma {:induction false} SpanIs(s: string, n: nat)
    requires n <= |s| && (n < |s| ==> IsDelimiter(s[n])) && forall k :: 0 <= k < n ==> !IsDelimiter(s[k])
    ensures Span(s) == n
  {
    if n > 0 {
      SpanIs(s[1..], n - 1);
    }
  }

  /** The next token from `p` on, if there is one, and where it ends. */
  method StrTok(s: string, p: nat) returns (token: Option<string>, next: nat)
    requires p <= |s|
    ensures p <= next <= |s|
    ensures token == None ==> Tokens(s[p..]) == []
    ensures token.Some? ==> p < next && Tokens(s[p..]) == [token.value] + Tokens(s[next..])
  {
    var q := p;
    while q < |s| && IsDelimiter(s[q])
      invariant p <= q <= |s| && Skip(s[p..]) == Skip(s[q..])
    {
      assert s[q..][1..] == s[q + 1..];
      q := q + 1;
    }
    assert Skip(s[p..]) == s[q..];
    if q == |s| {
      return None, q;
    }
    next := q;
    while next < |s| && !IsDelimiter(s[next])
      invariant q <= next <= |s| && forall k :: q <= k < next ==> !IsDelimiter(s[k])
    {
      next := next + 1;
    }
    SpanIs(s[q..], next - q);
    assert s[q..][..next - q] == s[q..next] && s[q..][next - q..] == s[next..];
    token := Some(s[q..next]);
  }

  // ----- what is kept -----

  /** The first occurrences, in order. */
  function Distinct(ts: seq<string>): (r: seq<string>) {
    if ts == [] then []
    else
      var n := |ts| - 1;
      Distinct(ts[..n]) + if ts[n] in ts[..n] then [] else [ts[n]]
  }

  function Attenuated(s: string): (r: string) { JoinFields(Distinct(Prefix(Tokens(s), MAX_NUMBERS))) }

  predicate NoneTwice(ts: seq<string>) { forall j, k :: 0 <= j < k < |ts| ==> ts[j] != ts[k] }

  /** Each number is kept once, and only numbers of the list are. */
  lemma {:induction false} DistinctKeeps(ts: seq<string>)
    ensures forall t :: t in Distinct(ts) <==> t in ts
    ensures NoneTwice(Distinct(ts)) && |Distinct(ts)| <= |ts|
  {
    if ts != [] {
      DistinctKeeps(ts[..|ts| - 1]);
      assert ts == ts[..|ts| - 1] + [ts[|ts| - 1]];
    }
  }

  /** Numbers keep the order of their first occurrences. */
  lemma {:induction false} DistinctKeepsOrder(ts: seq<string>, a: nat, b: nat) returns (j: nat, k: nat)
    requires a < b < |Distinct(ts)|
    ensures j < k < |ts| && ts[j] == Distinct(ts)[a] && ts[k] == Distinct(ts)[b] && ts[j] !in ts[..j] && ts[k] !in ts[..k]
  {
    var n := |ts| - 1;
    if b < |Distinct(ts[..n])| {
      j, k := DistinctKeepsOrder(ts[..n], a, b);
      assert ts[..n][..j] == ts[..j] && ts[..n][..k] == ts[..k];
    } else {
      j := FirstOf(ts[..n], a);
      k := n;
      assert ts[..n][..j] == ts[..j];
    }
  }

  lemma {:induction false} FirstOf(ts: seq<string>, a: nat) returns (j: nat)
    requires a < |Distinct(ts)|
    ensures j < |ts| && ts[j] == Distinct(ts)[a] && ts[j] !in ts[..j]
  {
    var n := |ts| - 1;
    if a < |Distinct(ts[..n])| {
      j := FirstOf(ts[..n], a);
      assert ts[..n][..j] == ts[..j];
    } else {
      j := n;
    }
  }

  lemma {:induction false} NothingToDrop(ts: seq<string>)
    requires NoneTwice(ts)
    ensures Distinct(ts) == ts
  {
    if ts != [] {
      var n := |ts| - 1;
      NothingToDrop(ts[..n]);
      assert ts == ts[..n] + [ts[n]];
    }
  }

  lemma {:induction false} TokensAreNumbers(s: string)
    ensures AreNumbers(Tokens(s))
    decreases |s|
  {
    var t := Skip(s);
    if t != "" {
      TokensAreNumbers(t[Span(t)..]);
    }
  }

  lemma {:induction false} JoinedIsTokens(ts: seq<string>)
    requires AreNumbers(ts)
    ensures Tokens(JoinFields(ts)) == ts
    decreases |ts|
  {
    var s := JoinFields(ts);
    if ts != [] {
      var n := |ts[0]|;
      assert Skip(s) == s;
      SpanIs(s, n);
      assert s[..n] == ts[0];
      if |ts| == 1 {
        assert s[n..] == "";
      } else {
        JoinedIsTokens(ts[1..]);
        assert s[n..][1..] == JoinFields(ts[1..]);
        assert Skip(s[n..]) == Skip(JoinFields(ts[1..]));
        SameTokens(s[n..], JoinFields(ts[1..]));
      }
    }
  }

  lemma SameTokens(a: string, b: string)
    requires Skip(a) == Skip(b)
    ensures Tokens(a) == Tokens(b)
  {
  }

  function Size(ts: seq<string>): (n: nat) { if ts == [] then 0 else |ts[0]| + 1 + Size(ts[1..]) }

  lemma {:induction false} JoinedSize(ts: seq<string>)
    requires ts != []
    ensures |JoinFields(ts)| == Size(ts) - 1
  {
    if |ts| > 1 {
      JoinedSize(ts[1..]);
    } else {
      assert Size(ts[1..]) == 0;
    }
  }

  lemma {:induction false} SizeSplits(a: seq<string>, b: seq<string>)
    ensures Size(a + b) == Size(a) + Size(b)
  {
    if a == [] {
      assert a + b == b;
    } else {
      SizeSplits(a[1..], b);
      assert (a + b)[1..] == a[1..] + b;
    }
  }

  lemma {:induction false} DistinctIsSmaller(ts: seq<string>)
    ensures Size(Distinct(ts)) <= Size(ts)
  {
    if ts != [] {
      var n := |ts| - 1;
      DistinctIsSmaller(ts[..n]);
      SizeSplits(ts[..n], [ts[n]]);
      SizeSplits(Distinct(ts[..n]), [ts[n]]);
      assert ts == ts[..n] + [ts[n]];
      assert Distinct(ts[..n]) + [] == Distinct(ts[..n]);
    }
  }

  lemma {:induction false} TokensFit(s: string)
    ensures Size(Tokens(s)) <= |s| + 1
    decreases |s|
  {
    var t := Skip(s);
    if t != "" {
      var n := Span(t);
      var rest := t[n..];
      if rest == "" {
        assert Skip(rest) == "" && Tokens(rest) == [];
      } else {
        TokensFit(rest[1..]);
        assert Skip(rest) == Skip(rest[1..]);
        SameTokens(rest, rest[1..]);
      }
    }
  }

  lemma FirstNumbersFit(s: string)
    ensures Size(Prefix(Tokens(s), MAX_NUMBERS)) <= |s| + 1
  {
    TokensFit(s);
    PrefixIsSmaller(Tokens(s), MAX_NUMBERS);
  }

  lemma PrefixIsSmaller(ts: seq<string>, n: nat)
    ensures Size(Prefix(ts, n)) <= Size(ts)
  {
    var first, rest := Prefix(ts, n), ts[|Prefix(ts, n)|..];
    assert ts == first + rest;
    SizeSplits(first, rest);
  }

  /** The result is never longer than the list it replaces. */
  lemma NeverLonger(s: string)
    ensures |Attenuated(s)| <= |s|
  {
    var first := Prefix(Tokens(s), MAX_NUMBERS);
    FirstNumbersFit(s);
    DistinctIsSmaller(first);
    if Distinct(first) != [] {
      JoinedSize(Distinct(first));
    }
  }

  lemma DistinctAreNumbers(ts: seq<string>)
    requires AreNumbers(ts)
    ensures AreNumbers(Distinct(ts))
  {
    DistinctKeeps(ts);
    forall k | 0 <= k < |Distinct(ts)|
      ensures IsNumber(Distinct(ts)[k])
    {
      assert Distinct(ts)[k] in ts;
    }
  }

  /** Doing it again changes nothing. */
  lemma Idempotent(s: string)
    ensures Attenuated(Attenuated(s)) == Attenuated(s)
  {
    var first := Prefix(Tokens(s), MAX_NUMBERS);
    var kept := Distinct(first);
    TokensAreNumbers(s);
    DistinctAreNumbers(first);
    DistinctKeeps(first);
    JoinedIsTokens(kept);
    assert Prefix(kept, MAX_NUMBERS) == kept;
    NothingToDrop(kept);
  }

  // ----- lists told by their characters -----

  predicate Gap(s: string) { forall k :: 0 <= k < |s| ==> s[k] == ' ' || s[k] == ',' }

  predicate Unbroken(t: string) { t != "" && forall k :: 0 <= k < |t| ==> t[k] != ' ' && t[k] != ',' }

  /** Numbers with blanks and commas before, between and behind them. */
  function Listing(gap: string, numbers: seq<string>, gaps: seq<string>): (s: string)
    requires |numbers| == |gaps|
    decreases |numbers|
  {
    if numbers == [] then gap else gap + numbers[0] + Listing(gaps[0], numbers[1..], gaps[1..])
  }

  lemma {:induction false} GapIsSkipped(gap: string, t: string)
    requires Gap(gap) && (t != "" ==> !IsDelimiter(t[0]))
    ensures Skip(gap + t) == t
  {
    if gap == "" {
      assert gap + t == t;
    } else {
      assert (gap + t)[1..] == gap[1..] + t;
      GapIsSkipped(gap[1..], t);
    }
  }

  lemma FirstOfListing(gap: string, number: string, rest: string)
    requires Gap(gap) && Unbroken(number) && (rest != "" ==> rest[0] == ' ' || rest[0] == ',')
    ensures Tokens(gap + number + rest) == [number] + Tokens(rest)
  {
    var t := number + rest;
    assert gap + number + rest == gap + t;
    GapIsSkipped(gap, t);
    SpanIs(t, |number|);
    assert t[..|number|] == number && t[|number|..] == rest;
  }

  lemma ListingBegins(gap: string, numbers: seq<string>, gaps: seq<string>)
    requires |numbers| == |gaps| && Gap(gap) && (numbers != [] ==> gap != "")
    ensures Listing(gap, numbers, gaps) != "" ==> Listing(gap, numbers, gaps)[0] == ' ' || Listing(gap, numbers, gaps)[0] == ','
  {
  }

  lemma {:induction false} ListingHasNumbers(gap: string, numbers: seq<string>, gaps: seq<string>)
    requires |numbers| == |gaps| && Gap(gap)
    requires forall k :: 0 <= k < |numbers| ==> Unbroken(numbers[k]) && Gap(gaps[k]) && (k + 1 < |numbers| ==> gaps[k] != "")
    ensures Tokens(Listing(gap, numbers, gaps)) == numbers
    decreases |numbers|
  {
    if numbers == [] {
      GapIsSkipped(gap, "");
      assert gap + "" == gap;
    } else {
      ListingHasNumbers(gaps[0], numbers[1..], gaps[1..]);
      ListingBegins(gaps[0], numbers[1..], gaps[1..]);
      FirstOfListing(gap, numbers[0], Listing(gaps[0], numbers[1..], gaps[1..]));
    }
  }

  /** Of a list with any blanks and commas in it, the first occurrences among the first 32 numbers are kept, with
      a comma between them. */
  lemma ListingIsAttenuated(gap: string, numbers: seq<string>, gaps: seq<string>)
    requires |numbers| == |gaps| && Gap(gap)
    requires forall k :: 0 <= k < |numbers| ==> Unbroken(numbers[k]) && Gap(gaps[k]) && (k + 1 < |numbers| ==> gaps[k] != "")
    ensures Attenuated(Listing(gap, numbers, gaps)) == JoinFields(Distinct(if |numbers| <= 32 then numbers else numbers[..32]))
  {
    ListingHasNumbers(gap, numbers, gaps);
  }

  // ----- in the buffer -----

  predicate NoNul(s: string) { forall k :: 0 <= k < |s| ==> s[k] != '\0' }

  /** The C string in the buffer is `s`. */
  ghost predicate Holds(buf: array<char>, s: string)
    reads buf
  {
    |s| < buf.Length && buf[..|s|] == s && buf[|s|] == '\0' && NoNul(s)
  }

  /** The numbers, each followed by a comma. */
  function Commas(ts: seq<string>): (s: string) { if ts == [] then "" else JoinFields(ts) + "," }

  lemma {:induction false} OneMoreComma(ts: seq<string>, t: string)
    ensures Commas(ts + [t]) == Commas(ts) + t + ","
  {
    if ts != [] {
      OneMoreComma(ts[1..], t);
      assert (ts + [t])[1..] == ts[1..] + [t];
      assert Commas(ts + [t]) == ts[0] + "," + Commas(ts[1..] + [t]);
      assert Commas(ts) == ts[0] + "," + Commas(ts[1..]);
    } else {
      assert [] + [t] == [t];
    }
  }

  lemma CommasSize(ts: seq<string>)
    ensures |Commas(ts)| == Size(ts)
  {
    if ts != [] {
      JoinedSize(ts);
    }
  }

  lemma {:induction false} JoinedHasNoNul(ts: seq<string>)
    requires forall k :: 0 <= k < |ts| ==> NoNul(ts[k])
    ensures NoNul(JoinFields(ts))
  {
    if |ts| > 1 {
      JoinedHasNoNul(ts[1..]);
    }
  }

  lemma {:induction false} SkipHasNoNul(s: string)
    requires NoNul(s)
    ensures NoNul(Skip(s))
  {
    if s != "" && IsDelimiter(s[0]) {
      SkipHasNoNul(s[1..]);
    }
  }

  lemma {:induction false} TokensHaveNoNul(s: string)
    requires NoNul(s)
    ensures forall k :: 0 <= k < |Tokens(s)| ==> NoNul(Tokens(s)[k])
    decreases |s|
  {
    var t := Skip(s);
    if t != "" {
      SkipHasNoNul(s);
      TokensHaveNoNul(t[Span(t)..]);
    }
  }

  lemma AttenuatedHasNoNul(s: string)
    requires NoNul(s)
    ensures NoNul(Attenuated(s))
  {
    var first := Prefix(Tokens(s), MAX_NUMBERS);
    TokensHaveNoNul(s);
    DistinctKeeps(first);
    forall k | 0 <= k < |Distinct(first)|
      ensures NoNul(Distinct(first)[k])
    {
      assert Distinct(first)[k] in first;
    }
    JoinedHasNoNul(Distinct(first));
  }

  /** What is written of a prefix of the list still fits, the last comma included. */
  lemma {:induction false} PrefixFits(ts: seq<string>, i: nat)
    requires i <= |ts|
    ensures |Commas(Distinct(ts[..i]))| <= Size(ts)
  {
    DistinctIsSmaller(ts[..i]);
    CommasSize(Distinct(ts[..i]));
    SizeSplits(ts[..i], ts[i..]);
    assert ts == ts[..i] + ts[i..];
  }

  method Populate(s: string) returns (list: seq<string>)
    ensures list == Prefix(Tokens(s), MAX_NUMBERS)
  {
    list := [];
    var p := 0;
    ghost var all: seq<string> := [];
    var elm, next := StrTok(s, p);
    assert s[0..] == s;
    while elm.Some? && |list| < MAX_NUMBERS
      invariant p <= next <= |s| && (elm.Some? ==> p < next)
      invariant Tokens(s) == list + (if elm.Some? then [elm.value] + Tokens(s[next..]) else [])
      invariant |list| <= MAX_NUMBERS
      decreases |s| - p, if elm.Some? then 1 else 0
    {
      assert list + ([elm.value] + Tokens(s[next..])) == (list + [elm.value]) + Tokens(s[next..]);
      list := list + [elm.value];
      p := next;
      elm, next := StrTok(s, p);
    }
  }

  /** Whether entry `j` has been dropped once the first `i` entries have been compared with the later ones. */
  predicate Dropped(ts: seq<string>, i: nat, j: nat)
    requires j < |ts|
  {
    ts[j] in ts[..if i < j then i else j]
  }

  method DropDuplicates(ts: seq<string>) returns (list: array<Option<string>>)
    ensures fresh(list) && list.Length == |ts|
    ensures forall j :: 0 <= j < |ts| ==> list[j] == if ts[j] in ts[..j] then None else Some(ts[j])
  {
    list := new Option<string>[|ts|](k requires 0 <= k < |ts| => Some(ts[k]));
    for i := 0 to |ts|
      invariant forall j :: 0 <= j < |ts| ==> list[j] == if Dropped(ts, i, j) then None else Some(ts[j])
    {
      for j := i + 1 to |ts|
        invariant list[i] == if Dropped(ts, i, i) then None else Some(ts[i])
        invariant forall k :: 0 <= k < |ts| ==> list[k] == if Dropped(ts, if k < j then i + 1 else i, k) then None else Some(ts[k])
      {
        assert ts[..i + 1] == ts[..i] + [ts[i]];
        if list[i].Some? && list[j].Some? && list[i] == list[j] {
          list[j] := None;
        }
      }
    }
  }

  method WriteNumber(buf: array<char>, t: string, index: nat) returns (next: nat)
    requires index + |t| + 1 <= buf.Length
    modifies buf
    ensures next == index + |t| + 1
    ensures buf[..next] == old(buf[..index]) + t + ","
    ensures forall k :: next <= k < buf.Length ==> buf[k] == old(buf[k])
  {
    for k := 0 to |t|
      invariant buf[..index + k] == old(buf[..index]) + t[..k]
      invariant forall j :: index + k <= j < buf.Length ==> buf[j] == old(buf[j])
    {
      buf[index + k] := t[k];
    }
    buf[index + |t|] := ',';
    return index + |t| + 1;
  }

  method Clear(buf: array<char>)
    modifies buf
    ensures forall k :: 0 <= k < buf.Length ==> buf[k] == '\0'
  {
    for k := 0 to buf.Length
      invariant forall j :: 0 <= j < k ==> buf[j] == '\0'
    {
      buf[k] := '\0';
    }
  }

  lemma OneMoreKept(ts: seq<string>, i: nat)
    requires i < |ts|
    ensures Commas(Distinct(ts[..i + 1])) ==
            if ts[i] in ts[..i] then Commas(Distinct(ts[..i])) else Commas(Distinct(ts[..i])) + ts[i] + ","
  {
    assert ts[..i + 1][..i] == ts[..i];
    OneMoreComma(Distinct(ts[..i]), ts[i]);
    assert Distinct(ts[..i]) + [] == Distinct(ts[..i]);
  }

  /** The numbers that are left, written one after the other into the cleared buffer. */
  method WriteAll(buf: array<char>, ts: seq<string>, list: array<Option<string>>) returns (index: nat)
    requires list.Length == |ts| && forall j :: 0 <= j < |ts| ==> list[j] == if ts[j] in ts[..j] then None else Some(ts[j])
    requires Size(ts) <= buf.Length && forall k :: 0 <= k < buf.Length ==> buf[k] == '\0'
    modifies buf
    ensures index <= buf.Length && buf[..index] == Commas(Distinct(ts))
    ensures forall k :: index <= k < buf.Length ==> buf[k] == '\0'
  {
    index := 0;
    for i := 0 to |ts|
      invariant index <= buf.Length && buf[..index] == Commas(Distinct(ts[..i]))
      invariant forall k :: index <= k < buf.Length ==> buf[k] == '\0'
    {
      OneMoreKept(ts, i);
      if list[i].Some? {
        PrefixFits(ts, i + 1);
        index := WriteNumber(buf, list[i].value, index);
      }
    }
    assert ts[..|ts|] == ts;
  }

  method StrLen(buf: array<char>, ghost s: string) returns (n: nat)
    requires Holds(buf, s)
    ensures n == |s|
  {
    n := 0;
    while buf[n] != '\0'
      invariant n <= |s| && (n < |s| ==> buf[n] == s[n])
      decreases |s| - n
    {
      n := n + 1;
      assert n < |s| ==> buf[..|s|][n] == s[n];
    }
  }

  /** ecclistAttenuate: the string in the buffer is replaced, and nothing is left behind it. */
  method Attenuate(buf: array<char>, ghost s: string)
    requires Holds(buf, s)
    modifies buf
    ensures Holds(buf, Attenuated(s)) && forall k :: |Attenuated(s)| <= k < buf.Length ==> buf[k] == '\0'
  {
    var n := StrLen(buf, s);
    var ts := Populate(buf[..n]);
    var list := DropDuplicates(ts);
    FirstNumbersFit(s);
    Clear(buf);
    var index := WriteAll(buf, ts, list);
    if index > 0 && buf[index - 1] == ',' {
      buf[index - 1] := '\0';
    }
    NeverLonger(s);
    AttenuatedHasNoNul(s);
  }
}
