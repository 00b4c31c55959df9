/** Satellites in view: the NMEA tokenizer and the list gathered from GSV sentences over several groups. */
module Gsv {
  import AtTok
  import opened Strings
  import opened Wrappers

  const MAX_NMEA_TOKENS := 24
  const MIN_LINE := 9

  // ----- tokens of a sentence -----

  function DropLast(s: string, c: char): string { if s != "" && s[|s| - 1] == c then s[..|s| - 1] else s }

  function WithoutDollar(s: string): string { if s != "" && s[0] == '$' then s[1..] else s }

  function WithoutNewline(s: string): string {
    if s != "" && s[|s| - 1] == '\n' then DropLast(s[..|s| - 1], '\r') else s
  }

  function WithoutChecksum(s: string): string { if |s| >= 3 && s[|s| - 3] == '*' then s[..|s| - 3] else s }

  /** The sentence without the optional '$', the end of the line and the checksum. */
  function Body(line: string): (s: string) { WithoutChecksum(WithoutNewline(WithoutDollar(line))) }

  /** The text between commas; nothing after a last comma does not count as a token. */
  function Split(s: string): (tokens: seq<string>) {
    if s == "" then []
    else
      var k := AtTok.IndexOf(s, ',');
      [s[..k]] + if k < |s| then Split(s[k + 1..]) else []
  }

  function Tokens(line: string): (tokens: seq<string>) { Prefix(Split(Body(line)), MAX_NMEA_TOKENS) }

  /** nmea_tokenizer_get. */
  function Get(tokens: seq<string>, k: nat): (t: string) { if k < |tokens| then tokens[k] else "" }

  method NextComma(line: string, p: nat, end: nat) returns (q: nat)
    requires p <= end <= |line|
    ensures p <= q <= end && q - p == AtTok.IndexOf(line[p..end], ',')
  {
    q := p;
    while q < end && line[q] != ','
      invariant p <= q <= end && forall j :: p <= j < q ==> line[j] != ','
    {
      q := q + 1;
    }
    AtTok.IndexIs(line[p..end], ',', q - p);
  }

  method Trim(line: string) returns (p: nat, end: nat)
    ensures p <= end <= |line| && line[p..end] == Body(line)
  {
    p := 0;
    if line != "" && line[0] == '$' {
      p := 1;
    }
    assert line[p..|line|] == WithoutDollar(line);
    end := TrimNewline(line, p);
    end := TrimChecksum(line, p, end);
  }

  lemma SliceOfSlice(line: string, p: nat, end: nat, a: nat, b: nat)
    requires p <= end <= |line| && a <= b <= end - p
    ensures line[p..end][a..b] == line[p + a..p + b]
  {
    var x, y := line[p..end][a..b], line[p + a..p + b];
    assert |x| == |y|;
    forall k | 0 <= k < |x|
      ensures x[k] == y[k]
    {
      assert x[k] == line[p..end][a + k] == line[p + a + k];
    }
  }

  lemma LastOfSlice(line: string, p: nat, end: nat)
    requires p < end <= |line|
    ensures |line[p..end]| == end - p && line[p..end][end - p - 1] == line[end - 1]
    ensures line[p..end][..end - p - 1] == line[p..end - 1]
  {
    SliceOfSlice(line, p, end, 0, end - p - 1);
  }

  method TrimChecksum(line: string, p: nat, before: nat) returns (end: nat)
    requires p <= before <= |line|
    ensures p <= end <= |line| && line[p..end] == WithoutChecksum(line[p..before])
  {
    end := before;
    if end >= p + 3 && line[end - 3] == '*' {
      end := end - 3;
      SliceOfSlice(line, p, before, 0, end - p);
    }
  }

  method TrimReturn(line: string, p: nat, before: nat) returns (end: nat)
    requires p <= before <= |line|
    ensures p <= end <= |line| && line[p..end] == DropLast(line[p..before], '\r')
  {
    end := before;
    if end > p {
      LastOfSlice(line, p, before);
      if line[end - 1] == '\r' {
        end := end - 1;
      }
    }
  }

  method TrimNewline(line: string, p: nat) returns (end: nat)
    requires p <= |line|
    ensures p <= end <= |line| && line[p..end] == WithoutNewline(line[p..|line|])
  {
    end := |line|;
    if end > p {
      LastOfSlice(line, p, end);
      if line[end - 1] == '\n' {
        end := TrimReturn(line, p, end - 1);
      }
    }
  }

  lemma SplitStep(line: string, p: nat, q: nat, end: nat)
    requires p <= q <= end <= |line| && p < end && q - p == AtTok.IndexOf(line[p..end], ',')
    ensures Split(line[p..end]) == [line[p..q]] + Split(line[if q < end then q + 1 else q..end])
  {
    var s := line[p..end];
    SliceOfSlice(line, p, end, 0, q - p);
    assert s[..q - p] == line[p..q];
    if q < end {
      SliceOfSlice(line, p, end, q - p + 1, end - p);
      assert s[q - p + 1..] == line[q + 1..end];
    } else {
      assert line[q..end] == "";
    }
  }

  lemma PrefixGrows<T>(all: seq<T>, x: T, n: nat)
    ensures Prefix(all + [x], n) == if |Prefix(all, n)| < n then Prefix(all, n) + [x] else Prefix(all, n)
  {
  }

  lemma TakeFirst<T>(all: seq<T>, rest: seq<T>)
    requires rest != []
    ensures all + rest == (all + [rest[0]]) + rest[1..]
  {
  }

  /** nmea_tokenizer_init. */
  method Tokenize(line: string) returns (tokens: seq<string>)
    ensures tokens == Tokens(line)
  {
    var p, end := Trim(line);
    tokens := [];
    ghost var all: seq<string> := [];
    ghost var rest := Split(Body(line));
    ghost var whole := rest;
    while p < end
      invariant p <= end <= |line| && rest == Split(line[p..end])
      invariant whole == all + rest && tokens == Prefix(all, MAX_NMEA_TOKENS)
      decreases end - p
    {
      var q := NextComma(line, p, end);
      SplitStep(line, p, q, end);
      PrefixGrows(all, line[p..q], MAX_NMEA_TOKENS);
      if |tokens| < MAX_NMEA_TOKENS {
        tokens := tokens + [line[p..q]];
      }
      TakeFirst(all, rest);
      all, rest := all + [rest[0]], rest[1..];
      p := if q < end then q + 1 else q;
    }
  }

  /** str2int: the value of a string of digits, -1 for anything else. */
  function IntOf(s: string): (n: int) {
    if s != "" && (forall k :: 0 <= k < |s| ==> AtTok.IsDigit(s[k])) then AtTok.Value(s) else -1
  }

  const INT_LIMIT := 0x8000_0000

  /** The string begins with a number that is too large for an `int`. */
  ghost predicate Overflows(s: string) {
    exists k: nat :: k <= |s| && IntOf(s[..k]) >= INT_LIMIT
  }

  lemma NoLongerNumber(s: string, k: nat, j: nat)
    requires k < j <= |s| && !AtTok.IsDigit(s[k])
    ensures IntOf(s[..j]) == -1
  {
    assert s[..j][k] == s[k];
  }

  /** The code adds up the leading digits in an `int`, whatever follows them. If that overflows, its result is
      not defined; here it is the value. */
  method Str2Int(s: string) returns (n: int, ghost overflows: bool)
    ensures n == IntOf(s) && (overflows <==> Overflows(s))
  {
    overflows := false;
    if s == "" {
      return -1, false;
    }
    n := 0;
    for k := 0 to |s|
      invariant (forall j :: 0 <= j < k ==> AtTok.IsDigit(s[..k][j])) && n == AtTok.Value(s[..k])
      invariant overflows <==> exists j: nat :: j <= k && IntOf(s[..j]) >= INT_LIMIT
    {
      if !AtTok.IsDigit(s[k]) {
        forall j: nat | k < j <= |s|
          ensures IntOf(s[..j]) == -1
        {
          NoLongerNumber(s, k, j);
        }
        return -1, overflows;
      }
      assert s[..k + 1][..k] == s[..k];
      n := n * 10 + (s[k] as int - '0' as int);
      assert n == IntOf(s[..k + 1]);
      overflows := overflows || n >= INT_LIMIT;
    }
    assert s[..|s|] == s;
  }

  method IntAt(tokens: seq<string>, i: nat) returns (n: int)
    ensures n == IntOf(Get(tokens, i))
  {
    ghost var overflows;
    n, overflows := Str2Int(Get(tokens, i));
  }

  // ----- what the sentences do to the list -----

  /** The measurements are kept as the text they are given in. */
  datatype Sv = Sv(prn: int, elevation: string, azimuth: string, snr: string)

  datatype Gsv = Gsv(sentences: int, sentence: int, satellites: int, slots: seq<Sv>)

  datatype Sentence = GsvSentence(g: Gsv) | Gsa | Rmc | Other

  function SlotOf(tokens: seq<string>, i: nat): (v: Sv) {
    Sv(IntOf(Get(tokens, i * 4 + 4)), Get(tokens, i * 4 + 5), Get(tokens, i * 4 + 6), Get(tokens, i * 4 + 7))
  }

  function GsvOf(tokens: seq<string>): (g: Gsv)
    ensures |g.slots| == 4
  {
    Gsv(IntOf(Get(tokens, 1)), IntOf(Get(tokens, 2)), IntOf(Get(tokens, 3)),
        [SlotOf(tokens, 0), SlotOf(tokens, 1), SlotOf(tokens, 2), SlotOf(tokens, 3)])
  }

  predicate IsGsvId(id: string) { "GPGSV" <= id || "GLGSV" <= id }

  function SentenceOf(line: string): (s: Sentence)
    ensures s.GsvSentence? ==> |s.g.slots| == 4
  {
    var tokens := Tokens(line);
    var id := Get(tokens, 0);
    if |line| < MIN_LINE || |id| < 5 then Other
    else if IsGsvId(id) then GsvSentence(GsvOf(tokens))
    else if id[2..5] == "GSA" then Gsa
    else if id[2..5] == "RMC" then Rmc
    else Other
  }

  /** The satellites listed, how many are expected in all, whether a group is to be added to them, and
      whether they are complete. */
  datatype View = View(svs: seq<Sv>, total: int, keep: bool, changed: bool)

  function Opened(v: View, g: Gsv): (r: View) {
    if g.sentence == 1 then
      var svs := if v.keep then v.svs else [];
      View(svs, |svs| + g.satellites, true, false)
    else v
  }

  function Room(v: View): (n: nat) { if v.total - |v.svs| >= 4 then 4 else if v.total <= |v.svs| then 0 else v.total - |v.svs| }

  function Add(v: View, g: Gsv): (r: View)
    requires |g.slots| == 4
  {
    if g.satellites <= 0 then v
    else
      var o := Opened(v, g);
      o.(svs := o.svs + g.slots[..Room(o)], changed := o.changed || g.sentence == g.sentences)
  }

  function Step(v: View, s: Sentence): (r: View)
    requires s.GsvSentence? ==> |s.g.slots| == 4
  {
    match s
    case GsvSentence(g) => Add(v, g)
    case Gsa => v.(changed := true)
    case Rmc => v.(keep := false)
    case Other => v
  }

  /** Whether adding the satellites of a sentence writes behind a list of `capacity` slots: the source does not look. */
  predicate Overruns(v: View, s: Sentence, capacity: nat) {
    s.GsvSentence? && s.g.satellites > 0
    && var o := Opened(v, s.g); Room(o) > 0 && |o.svs| + Room(o) > capacity
  }

  /** The reader. Its list has room for `capacity` satellites; what is written behind it is kept here like the
      rest, and `overran` remembers that it happened. */
  class NmeaReader {
    const capacity: nat
    ghost var overran: bool
    var svList: seq<Sv>
    var numSvs: nat
    var total: int
    var keep: bool
    var changed: bool

    /** A fresh list; the totals and the keep flag outlive the reader. */
    method Init()
      modifies this`svList, this`numSvs, this`changed
      ensures Valid() && Listed() == old(View([], total, keep, false))
    {
      svList, numSvs, changed := [], 0, false;
    }

    ghost predicate Valid()
      reads this
    {
      numSvs <= |svList|
    }

    function Listed(): (v: View)
      requires numSvs <= |svList|
      reads this
    {
      View(svList[..numSvs], total, keep, changed)
    }

    /** One more satellite behind those listed; what was in its slot is overwritten. */
    method AddSlot(v: Sv)
      requires Valid()
      modifies this`svList, this`numSvs, this`overran
      ensures Valid() && numSvs == old(numSvs) + 1 && svList[..numSvs] == old(svList[..numSvs]) + [v]
      ensures overran <==> old(overran) || old(numSvs) >= capacity
    {
      overran := overran || numSvs >= capacity;
      svList := if numSvs < |svList| then svList[numSvs := v] else svList + [v];
      numSvs := numSvs + 1;
    }

    /** The loop over the satellites of one sentence. */
    method AddSlots(tokens: seq<string>, ghost slots: seq<Sv>)
      requires Valid() && |slots| == 4 && forall i :: 0 <= i < 4 ==> slots[i] == SlotOf(tokens, i)
      modifies this`svList, this`numSvs, this`overran
      ensures Valid() && Listed() == old(Listed()).(svs := old(Listed()).svs + slots[..Room(old(Listed()))])
      ensures overran <==> old(overran) || (Room(old(Listed())) > 0 && old(numSvs) + Room(old(Listed())) > capacity)
    {
      ghost var o, was := Listed(), svList[..numSvs];
      var i := 0;
      while i < 4 && numSvs < total
        invariant 0 <= i <= Room(o) && Valid() && numSvs == |was| + i
        invariant svList[..numSvs] == was + slots[..i]
        invariant overran <==> old(overran) || (i > 0 && numSvs > capacity)
        decreases 4 - i
      {
        var prn := IntAt(tokens, i * 4 + 4);
        var v := Sv(prn, Get(tokens, i * 4 + 5), Get(tokens, i * 4 + 6), Get(tokens, i * 4 + 7));
        assert v == slots[i];
        AddSlot(v);
        assert was + slots[..i + 1] == was + slots[..i] + [v];
        i := i + 1;
      }
    }

    /** The first sentence of a group. */
    method OpenGroup(ghost g: Gsv, satellites: int)
      requires Valid() && g.sentence == 1 && g.satellites == satellites && satellites > 0
      modifies this`numSvs, this`keep, this`changed, this`total
      ensures Valid() && Listed() == Opened(old(Listed()), g)
    {
      if !keep {
        numSvs, keep := 0, true;
      }
      changed, total := false, numSvs + satellites;
    }

    /** A sentence that announces satellites. */
    method AddGroup(tokens: seq<string>, ghost g: Gsv, satellites: int, sentence: int, sentences: int)
      requires Valid() && |g.slots| == 4 && forall i :: 0 <= i < 4 ==> g.slots[i] == SlotOf(tokens, i)
      requires g.satellites == satellites && g.sentence == sentence && g.sentences == sentences && satellites > 0
      modifies this
      ensures Valid() && Listed() == Add(old(Listed()), g)
      ensures overran <==> old(overran) || Overruns(old(Listed()), GsvSentence(g), capacity)
    {
      if sentence == 1 {
        OpenGroup(g, satellites);
      }
      assert Listed() == Opened(old(Listed()), g);
      AddSlots(tokens, g.slots);
      if sentence == sentences {
        changed := true;
      }
    }

    method ParseGsv(tokens: seq<string>)
      requires Valid()
      modifies this
      ensures Valid() && Listed() == Add(old(Listed()), GsvOf(tokens))
      ensures overran <==> old(overran) || Overruns(old(Listed()), GsvSentence(GsvOf(tokens)), capacity)
    {
      var satellites := IntAt(tokens, 3);
      if satellites <= 0 {
        return;
      }
      var sentence := IntAt(tokens, 2);
      var sentences := IntAt(tokens, 1);
      AddGroup(tokens, GsvOf(tokens), satellites, sentence, sentences);
    }

    /** The periodic status report of the timer thread, which is made only while the interface is running and to
        a callback that has been set. */
    method Report(running: bool, callbackIsSet: bool) returns (reported: Option<View>)
      requires Valid()
      modifies this`changed
      ensures reported == if running && callbackIsSet && old(changed) then Some(old(Listed())) else None
      ensures Valid() && Listed() == if running && callbackIsSet then After(old(Listed()), Reported) else old(Listed())
    {
      reported := None;
      if running && changed && callbackIsSet {
        reported := Some(View(svList[..numSvs], total, keep, changed));
        changed := false;
      }
    }

    /** What nmea_reader_parse does to the satellite status: the GSV, GSA and RMC parts. */
    method Parse(line: string)
      requires Valid()
      modifies this
      ensures Valid() && Listed() == Step(old(Listed()), SentenceOf(line))
      ensures overran <==> old(overran) || Overruns(old(Listed()), SentenceOf(line), capacity)
    {
      if |line| < MIN_LINE {
        return;
      }
      var tokens := Tokenize(line);
      var id := Get(tokens, 0);
      if |id| < 5 {
        return;
      }
      if IsGsvId(id) {
        ParseGsv(tokens);
      } else if id[2..5] == "GSA" {
        changed := true;
      } else if id[2..5] == "RMC" {
        keep := false;
      }
    }
  }

  // ----- whole runs -----

  datatype Event = Line(line: string) | Reported | Restart

  function After(v: View, e: Event): (r: View) {
    match e
    case Line(line) => Step(v, SentenceOf(line))
    case Reported => v.(changed := false)
    case Restart => v.(svs := [], changed := false)
  }

  function RunOf(v: View, es: seq<Event>): (r: View) {
    if es == [] then v else After(RunOf(v, es[..|es| - 1]), es[|es| - 1])
  }

  const START := View([], 0, false, false)

  predicate Within(v: View) { |v.svs| <= v.total }

  lemma StaysWithin(v: View, s: Sentence)
    requires Within(v) && (s.GsvSentence? ==> |s.g.slots| == 4)
    ensures Within(Step(v, s))
  {
    if s.GsvSentence? && s.g.satellites > 0 {
      var o := Opened(v, s.g);
      assert Within(o);
    }
  }

  lemma AfterStaysWithin(v: View, e: Event)
    requires Within(v)
    ensures Within(After(v, e))
  {
    match e
    case Line(line) =>
      var s := SentenceOf(line);
      StaysWithin(v, s);
    case Reported =>
    case Restart =>
  }

  lemma RunStep(v: View, es: seq<Event>)
    requires es != []
    ensures RunOf(v, es) == After(RunOf(v, es[..|es| - 1]), es[|es| - 1])
  {
  }

  /** However sentences are lost, repeated or damaged, there are never more satellites than announced. */
  lemma {:induction false} NeverMoreThanAnnounced(es: seq<Event>)
    ensures |RunOf(START, es).svs| <= RunOf(START, es).total
  {
    if es != [] {
      NeverMoreThanAnnounced(es[..|es| - 1]);
      AfterStaysWithin(RunOf(START, es[..|es| - 1]), es[|es| - 1]);
      RunStep(START, es);
    }
  }

  // ----- complete groups -----

  /** The sentences that list these satellites, four to a sentence. What fills the last one up is not looked at. */
  predicate IsGroup(gs: seq<Gsv>, svs: seq<Sv>) {
    && svs != [] && |gs| == (|svs| + 3) / 4
    && forall j :: 0 <= j < |gs| ==> IsPart(gs[j], svs, j, |gs|)
  }

  predicate IsPart(g: Gsv, svs: seq<Sv>, j: nat, n: nat) {
    && g.sentences == n && g.sentence == j + 1 && g.satellites == |svs| && |g.slots| == 4
    && forall i :: 0 <= i < 4 && 4 * j + i < |svs| ==> g.slots[i] == svs[4 * j + i]
  }

  predicate WellFormed(gs: seq<Gsv>) { forall j :: 0 <= j < |gs| ==> |gs[j].slots| == 4 }

  function AddAll(v: View, gs: seq<Gsv>): (r: View)
    requires WellFormed(gs)
  {
    if gs == [] then v else Add(AddAll(v, gs[..|gs| - 1]), gs[|gs| - 1])
  }

  function Base(v: View): seq<Sv> { if v.keep then v.svs else [] }

  lemma PrefixGoesOn(svs: seq<Sv>, n: nat, slots: seq<Sv>)
    requires n < |svs| && |slots| == 4 && forall i :: 0 <= i < 4 && n + i < |svs| ==> slots[i] == svs[n + i]
    ensures Prefix(svs, n) + slots[..if |svs| - n >= 4 then 4 else |svs| - n] == Prefix(svs, n + 4)
  {
  }

  lemma PartIsAdded(v: View, g: Gsv, svs: seq<Sv>, j: nat, n: nat, base: seq<Sv>)
    requires IsPart(g, svs, j, n) && 4 * j < |svs|
    requires Opened(v, g) == View(base + Prefix(svs, 4 * j), |base| + |svs|, true, false)
    ensures Add(v, g) == View(base + Prefix(svs, 4 * j + 4), |base| + |svs|, true, j + 1 == n)
  {
    var done, room := Prefix(svs, 4 * j), Room(Opened(v, g));
    assert room == if |svs| - 4 * j >= 4 then 4 else |svs| - 4 * j;
    PrefixGoesOn(svs, 4 * j, g.slots);
    Associate(base, done, g.slots[..room]);
  }

  lemma {:induction false} PartOfGroup(v: View, gs: seq<Gsv>, svs: seq<Sv>, j: nat)
    requires IsGroup(gs, svs) && 0 < j <= |gs|
    ensures WellFormed(gs[..j])
    ensures AddAll(v, gs[..j]) == View(Base(v) + Prefix(svs, 4 * j), |Base(v)| + |svs|, true, j == |gs|)
  {
    var g := gs[j - 1];
    assert IsPart(g, svs, j - 1, |gs|);
    assert gs[..j][..j - 1] == gs[..j - 1];
    if j == 1 {
      assert AddAll(v, gs[..0]) == v;
      assert Base(v) + Prefix(svs, 0) == Base(v);
      PartIsAdded(v, g, svs, 0, |gs|, Base(v));
    } else {
      PartOfGroup(v, gs, svs, j - 1);
      PartIsAdded(AddAll(v, gs[..j - 1]), g, svs, j - 1, |gs|, Base(v));
    }
  }

  /** A complete group replaces the list if the keep flag is clear and extends it if it is set. */
  lemma GroupIsAdded(v: View, gs: seq<Gsv>, svs: seq<Sv>)
    requires IsGroup(gs, svs)
    ensures WellFormed(gs) && AddAll(v, gs) == View(Base(v) + svs, |Base(v)| + |svs|, true, true)
  {
    PartOfGroup(v, gs, svs, |gs|);
    assert gs[..|gs|] == gs;
  }

  function Concat<T>(ss: seq<seq<T>>): (s: seq<T>) { if ss == [] then [] else Concat(ss[..|ss| - 1]) + ss[|ss| - 1] }

  predicate AreGroups(groups: seq<seq<Gsv>>, lists: seq<seq<Sv>>) {
    |groups| == |lists| && forall k :: 0 <= k < |groups| ==> IsGroup(groups[k], lists[k])
  }

  lemma {:induction false} AddAllJoins(v: View, a: seq<Gsv>, b: seq<Gsv>)
    requires WellFormed(a) && WellFormed(b)
    ensures WellFormed(a + b) && AddAll(v, a + b) == AddAll(AddAll(v, a), b)
  {
    if b == [] {
      assert a + b == a;
    } else {
      AddAllJoins(v, a, b[..|b| - 1]);
      assert (a + b)[..|a + b| - 1] == a + b[..|b| - 1];
    }
  }

  lemma GroupsSplit(groups: seq<seq<Gsv>>, lists: seq<seq<Sv>>)
    requires AreGroups(groups, lists) && groups != []
    ensures AreGroups(groups[..|groups| - 1], lists[..|groups| - 1]) && IsGroup(groups[|groups| - 1], lists[|groups| - 1])
  {
  }

  /** One more group behind a list that was already being kept. */
  lemma GroupIsAppended(v: View, before: seq<Gsv>, list: seq<Sv>, group: seq<Gsv>, svs: seq<Sv>)
    requires WellFormed(before) && IsGroup(group, svs) && AddAll(v, before) == View(list, |list|, true, true)
    ensures WellFormed(before + group) && AddAll(v, before + group) == View(list + svs, |list| + |svs|, true, true)
  {
    GroupIsAdded(AddAll(v, before), group, svs);
    AddAllJoins(v, before, group);
  }

  lemma OneGroupIsJoined(v: View, groups: seq<seq<Gsv>>, lists: seq<seq<Sv>>)
    requires |groups| == |lists| == 1 && IsGroup(groups[0], lists[0])
    ensures WellFormed(Concat(groups))
    ensures AddAll(v, Concat(groups)) == View(Base(v) + Concat(lists), |Base(v)| + |Concat(lists)|, true, true)
  {
    assert Concat(groups[..0]) == [] && Concat(lists[..0]) == [];
    assert Concat(groups) == groups[0] && Concat(lists) == lists[0];
    GroupIsAdded(v, groups[0], lists[0]);
  }

  lemma ConcatLast<T>(ss: seq<seq<T>>, n: nat)
    requires |ss| == n + 1
    ensures Concat(ss) == Concat(ss[..n]) + ss[n]
  {
  }

  lemma Associate<T>(a: seq<T>, b: seq<T>, c: seq<T>)
    ensures a + b + c == a + (b + c)
  {
  }

  lemma OneMoreGroupIsJoined(v: View, before: seq<Gsv>, list: seq<Sv>, group: seq<Gsv>, svs: seq<Sv>)
    requires IsGroup(group, svs) && WellFormed(before)
    requires AddAll(v, before) == View(Base(v) + list, |Base(v)| + |list|, true, true)
    ensures WellFormed(before + group)
    ensures AddAll(v, before + group) == View(Base(v) + (list + svs), |Base(v)| + |list + svs|, true, true)
  {
    GroupIsAppended(v, before, Base(v) + list, group, svs);
    Associate(Base(v), list, svs);
  }

  /** After the first complete group, each further one is appended: the list is the concatenation of all. */
  lemma {:induction false} GroupsAreJoined(v: View, groups: seq<seq<Gsv>>, lists: seq<seq<Sv>>)
    requires AreGroups(groups, lists) && groups != []
    ensures WellFormed(Concat(groups))
    ensures AddAll(v, Concat(groups)) == View(Base(v) + Concat(lists), |Base(v)| + |Concat(lists)|, true, true)
    decreases |groups|
  {
    var n := |groups| - 1;
    GroupsSplit(groups, lists);
    if n == 0 {
      OneGroupIsJoined(v, groups, lists);
    } else {
      GroupsAreJoined(v, groups[..n], lists[..n]);
      OneMoreGroupIsJoined(v, Concat(groups[..n]), Concat(lists[..n]), groups[n], lists[n]);
      ConcatLast(groups, n);
      ConcatLast(lists, n);
    }
  }

  function Announcing(e: Event): (gs: seq<Gsv>)
    ensures WellFormed(gs)
  {
    var s := if e.Line? then SentenceOf(e.line) else Other;
    if s.GsvSentence? && s.g.satellites > 0 then [s.g] else []
  }

  /** The GSV sentences that announce satellites, among the lines of a run. */
  function GsvsIn(es: seq<Event>): (gs: seq<Gsv>)
    ensures WellFormed(gs)
  {
    if es == [] then []
    else
      GsvsIn(es[..|es| - 1]) + Announcing(es[|es| - 1])
  }

  predicate OneEpoch(es: seq<Event>) {
    forall k :: 0 <= k < |es| ==> !es[k].Restart? && (es[k].Line? ==> SentenceOf(es[k].line) != Rmc)
  }

  /** Equal but for the changed flag. */
  predicate Alike(v: View, w: View) { v.svs == w.svs && v.total == w.total && v.keep == w.keep }

  lemma AddAlike(v: View, w: View, g: Gsv)
    requires Alike(v, w) && |g.slots| == 4
    ensures Alike(Add(v, g), Add(w, g))
  {
  }

  lemma {:induction false} OnlyGsvsCount(v: View, es: seq<Event>)
    requires OneEpoch(es)
    ensures Alike(RunOf(v, es), AddAll(v, GsvsIn(es)))
  {
    if es != [] {
      var before, e := es[..|es| - 1], es[|es| - 1];
      OnlyGsvsCount(v, before);
      var s := if e.Line? then SentenceOf(e.line) else Other;
      if s.GsvSentence? && s.g.satellites > 0 {
        AddedLast(v, GsvsIn(before), s.g);
        AddAlike(RunOf(v, before), AddAll(v, GsvsIn(before)), s.g);
      } else {
        assert GsvsIn(es) == GsvsIn(before);
      }
    }
  }

  lemma AddedLast(v: View, gs: seq<Gsv>, g: Gsv)
    requires WellFormed(gs) && |g.slots| == 4
    ensures WellFormed(gs + [g]) && AddAll(v, gs + [g]) == Add(AddAll(v, gs), g)
  {
    assert (gs + [g])[..|gs|] == gs;
  }

  /** From any state with the keep flag clear, as an RMC sentence leaves it: if the announcing GSV sentences
      that follow are complete groups, the list is exactly the satellites of those groups, in order. Other
      sentences and reports may come in between. */
  lemma {:induction false} EpochIsGathered(v: View, es: seq<Event>, groups: seq<seq<Gsv>>, lists: seq<seq<Sv>>)
    requires !v.keep && OneEpoch(es) && AreGroups(groups, lists) && GsvsIn(es) == Concat(groups)
    ensures Alike(RunOf(v, es), if groups == [] then v else View(Concat(lists), |Concat(lists)|, true, true))
  {
    OnlyGsvsCount(v, es);
    if groups == [] {
      assert AddAll(v, Concat(groups)) == v;
    } else {
      GroupsAreJoined(v, groups, lists);
      assert Base(v) == [];
    }
  }

  // ----- a GSV line as it is sent -----

  predicate Plain(s: string) { forall k :: 0 <= k < |s| ==> s[k] != ',' }

  lemma {:induction false} FieldIsSplit(fields: seq<string>, k: nat)
    requires k < |fields| && forall j :: 0 <= j < |fields| ==> Plain(fields[j])
    ensures Get(Split(JoinFields(fields)), k) == fields[k] && |Split(JoinFields(fields))| <= |fields|
  {
    var s := JoinFields(fields);
    if |fields| == 1 {
      AtTok.IndexIs(s, ',', |s|);
      assert s[..|s|] == s;
    } else {
      AtTok.IndexIs(s, ',', |fields[0]|);
      assert s[..|fields[0]|] == fields[0];
      assert s[|fields[0]| + 1..] == JoinFields(fields[1..]);
      FieldIsSplit(fields[1..], if k == 0 then 0 else k - 1);
    }
  }

  function Framed(body: string, c0: char, c1: char): (line: string) { "$" + body + ['*', c0, c1, '\r', '\n'] }

  lemma FrameIsRemoved(body: string, c0: char, c1: char)
    ensures Body(Framed(body, c0, c1)) == body
  {
    var line := Framed(body, c0, c1);
    var s := body + ['*', c0, c1, '\r', '\n'];
    assert WithoutDollar(line) == s;
    assert WithoutNewline(s) == body + ['*', c0, c1] by {
      assert s[..|s| - 1] == body + ['*', c0, c1, '\r'];
      assert (body + ['*', c0, c1, '\r'])[..|body| + 3] == body + ['*', c0, c1];
    }
    assert WithoutChecksum(body + ['*', c0, c1]) == body;
  }

  /** The first 24 fields of a sentence are read back by position, an empty last one included, and no others. */
  lemma {:induction false} FieldsAreRead(fields: seq<string>, k: nat, c0: char, c1: char)
    requires fields != [] && forall j :: 0 <= j < |fields| ==> Plain(fields[j])
    ensures Get(Tokens(Framed(JoinFields(fields), c0, c1)), k) == if k < |fields| && k < 24 then fields[k] else ""
  {
    FrameIsRemoved(JoinFields(fields), c0, c1);
    FieldIsSplit(fields, if k < |fields| then k else 0);
  }

  lemma LongEnough(fields: seq<string>, c0: char, c1: char)
    requires fields != []
    ensures |Framed(JoinFields(fields), c0, c1)| >= |fields[0]| + 6
  {
    assert |JoinFields(fields)| >= |fields[0]|;
  }

  lemma KindIs(line: string, id: string)
    requires |line| >= 9 && |id| == 5 && Get(Tokens(line), 0) == id
    ensures var s := SentenceOf(line);
            && (s.GsvSentence? <==> id == "GPGSV" || id == "GLGSV")
            && (s.Gsa? <==> id[2] == 'G' && id[3] == 'S' && id[4] == 'A')
            && (s.Rmc? <==> id[2] == 'R' && id[3] == 'M' && id[4] == 'C')
  {
    assert id[2..5] == [id[2], id[3], id[4]];
  }

  /** What kind of sentence a framed one is: GSV only of GPS and GLONASS, GSA and RMC of any talker. */
  lemma {:induction false} SentenceIsKnown(fields: seq<string>, c0: char, c1: char)
    requires fields != [] && |fields[0]| == 5 && forall j :: 0 <= j < |fields| ==> Plain(fields[j])
    ensures var s, id := SentenceOf(Framed(JoinFields(fields), c0, c1)), fields[0];
            && (s.GsvSentence? <==> id == "GPGSV" || id == "GLGSV")
            && (s.Gsa? <==> id[2] == 'G' && id[3] == 'S' && id[4] == 'A')
            && (s.Rmc? <==> id[2] == 'R' && id[3] == 'M' && id[4] == 'C')
  {
    FieldsAreRead(fields, 0, c0, c1);
    LongEnough(fields, c0, c1);
    KindIs(Framed(JoinFields(fields), c0, c1), fields[0]);
  }

  lemma FirstToken(id: string, rest: string)
    requires Plain(id)
    ensures Get(Prefix(Split(id + "," + rest), MAX_NMEA_TOKENS), 0) == id
  {
    var s := id + "," + rest;
    AtTok.IndexIs(s, ',', |id|);
    assert s[..|id|] == id;
  }

  /** What framed sentences other than GSV do: GSA has the list reported, RMC starts a new epoch, and all others
      do nothing. */
  lemma SentenceDoes(v: View, fields: seq<string>, c0: char, c1: char)
    requires fields != [] && |fields[0]| == 5 && forall j :: 0 <= j < |fields| ==> Plain(fields[j])
    requires fields[0] != "GPGSV" && fields[0] != "GLGSV"
    ensures var s, id := SentenceOf(Framed(JoinFields(fields), c0, c1)), fields[0];
            && !s.GsvSentence?
            && Step(v, s) == if id[2] == 'G' && id[3] == 'S' && id[4] == 'A' then View(v.svs, v.total, v.keep, true)
                             else if id[2] == 'R' && id[3] == 'M' && id[4] == 'C' then View(v.svs, v.total, false, v.changed)
                             else v
  {
    SentenceIsKnown(fields, c0, c1);
  }

  lemma UnframedBody(line: string)
    requires |line| >= 3 && line[0] != '$' && line[|line| - 1] != '\n' && line[|line| - 3] != '*'
    ensures Body(line) == line
  {
  }

  /** Without a frame nine characters are enough, and fewer are not. */
  lemma ShortIsIgnored(id: string, rest: string)
    requires |id| == 5 && Plain(id) && id[0] != '$' && id[2] == 'R' && id[3] == 'M' && id[4] == 'C'
    requires forall k :: 0 <= k < |rest| ==> rest[k] != '*' && rest[k] != '\n'
    ensures SentenceOf(id + "," + rest) == if |rest| < 3 then Other else Rmc
  {
    var line := id + "," + rest;
    if |rest| >= 3 {
      assert line[|line| - 1] == rest[|rest| - 1] && line[|line| - 3] == rest[|rest| - 3];
      UnframedBody(line);
      FirstToken(id, rest);
      KindIs(line, id);
    }
  }

  /** A GSV sentence put together from fields, a short last one included, is parsed as those fields. */
  lemma {:induction false} GsvIsRead(fields: seq<string>, c0: char, c1: char)
    requires fields != [] && forall j :: 0 <= j < |fields| ==> Plain(fields[j])
    requires fields[0] == "GPGSV" || fields[0] == "GLGSV"
    ensures SentenceOf(Framed(JoinFields(fields), c0, c1)) == GsvSentence(GsvOf(fields))
  {
    var line := Framed(JoinFields(fields), c0, c1);
    forall k: nat | k < 20
      ensures Get(Tokens(line), k) == Get(fields, k)
    {
      FieldsAreRead(fields, k, c0, c1);
    }
    LongEnough(fields, c0, c1);
    SameGets(Tokens(line), fields);
  }

  lemma SameGets(a: seq<string>, b: seq<string>)
    requires forall k: nat :: k < 20 ==> Get(a, k) == Get(b, k)
    ensures GsvOf(a) == GsvOf(b)
  {
    assert SlotOf(a, 0) == SlotOf(b, 0) && SlotOf(a, 1) == SlotOf(b, 1);
    assert SlotOf(a, 2) == SlotOf(b, 2) && SlotOf(a, 3) == SlotOf(b, 3);
  }

  /** The numbers in a sentence are read as printed, with or without leading zeros. */
  lemma {:induction false} NumbersAreRead(n: nat, zeros: string)
    requires forall k :: 0 <= k < |zeros| ==> zeros[k] == '0'
    ensures IntOf(zeros + AtTok.Digits(n)) == n && Plain(zeros + AtTok.Digits(n))
  {
    AtTok.DigitsAreDigits(n);
    LeadingZeros(zeros, AtTok.Digits(n));
  }

  lemma {:induction false} LeadingZeros(zeros: string, digits: string)
    requires forall k :: 0 <= k < |zeros| ==> zeros[k] == '0'
    requires forall k :: 0 <= k < |digits| ==> AtTok.IsDigit(digits[k])
    ensures AtTok.Value(zeros + digits) == AtTok.Value(digits)
    decreases |zeros| + |digits|
  {
    var s := zeros + digits;
    if digits != "" {
      LeadingZeros(zeros, digits[..|digits| - 1]);
      assert s[..|s| - 1] == zeros + digits[..|digits| - 1];
    } else if zeros != "" {
      LeadingZeros(zeros[..|zeros| - 1], digits);
      assert s[..|s| - 1] == zeros[..|zeros| - 1] + digits;
    }
  }
}
