/** Groups of GSV sentences: as they are printed and read back, over epochs that RMC sentences open, and in
    a list of limited capacity. */
module GsvGroups {
  import AtTok
  import opened Strings
  import opened Gsv

  // ----- epochs -----

  lemma InitOfSum<T>(a: seq<T>, b: seq<T>)
    requires b != []
    ensures (a + b)[..|a + b| - 1] == a + b[..|b| - 1] && (a + b)[|a + b| - 1] == b[|b| - 1]
  {
  }

  lemma {:induction false} RunJoins(v: View, a: seq<Event>, b: seq<Event>)
    ensures RunOf(v, a + b) == RunOf(RunOf(v, a), b)
  {
    if b == [] {
      assert a + b == a;
    } else {
      RunJoins(v, a, b[..|b| - 1]);
      InitOfSum(a, b);
    }
  }

  /** Every RMC sentence starts such an epoch, whatever came before it. */
  lemma RmcStartsAnEpoch(v: View, before: seq<Event>, rmc: string, es: seq<Event>, groups: seq<seq<Gsv>>, lists: seq<seq<Sv>>)
    requires SentenceOf(rmc) == Rmc && OneEpoch(es) && AreGroups(groups, lists) && groups != [] && GsvsIn(es) == Concat(groups)
    ensures Alike(RunOf(v, before + [Line(rmc)] + es), View(Concat(lists), |Concat(lists)|, true, true))
  {
    var prior := before + [Line(rmc)];
    assert prior[..|before|] == before;
    assert !RunOf(v, prior).keep;
    RunJoins(v, prior, es);
    EpochIsGathered(RunOf(v, prior), es, groups, lists);
  }

  /** In particular a framed one, of any talker. */
  lemma FramedRmcStartsAnEpoch(v: View, before: seq<Event>, fields: seq<string>, c0: char, c1: char,
                               es: seq<Event>, groups: seq<seq<Gsv>>, lists: seq<seq<Sv>>)
    requires fields != [] && forall j :: 0 <= j < |fields| ==> Plain(fields[j])
    requires |fields[0]| == 5 && fields[0][2] == 'R' && fields[0][3] == 'M' && fields[0][4] == 'C'
    requires OneEpoch(es) && AreGroups(groups, lists) && groups != [] && GsvsIn(es) == Concat(groups)
    ensures Alike(RunOf(v, before + [Line(Framed(JoinFields(fields), c0, c1))] + es), View(Concat(lists), |Concat(lists)|, true, true))
  {
    SentenceIsKnown(fields, c0, c1);
    RmcStartsAnEpoch(v, before, Framed(JoinFields(fields), c0, c1), es, groups, lists);
  }

  // ----- a group as it is sent -----

  predicate Printable(svs: seq<Sv>) {
    forall k :: 0 <= k < |svs| ==> svs[k].prn >= 0 && Plain(svs[k].elevation) && Plain(svs[k].azimuth) && Plain(svs[k].snr)
  }

  /** Satellite numbers have two digits or more. */
  function Number(n: nat): (s: string) { (if n < 10 then "0" else "") + AtTok.Digits(n) }

  lemma NumberIsRead(n: nat)
    ensures IntOf(Number(n)) == n && Plain(Number(n))
  {
    NumbersAreRead(n, if n < 10 then "0" else "");
  }

  function SvFields(svs: seq<Sv>): (fields: seq<string>)
    requires Printable(svs)
    ensures |fields| == 4 * |svs|
  {
    if svs == [] then [] else [Number(svs[0].prn), svs[0].elevation, svs[0].azimuth, svs[0].snr] + SvFields(svs[1..])
  }

  lemma {:induction false} SvFieldsAre(svs: seq<Sv>, i: nat)
    requires Printable(svs) && i < |svs|
    ensures var f := SvFields(svs);
            f[4 * i] == Number(svs[i].prn) && f[4 * i + 1] == svs[i].elevation && f[4 * i + 2] == svs[i].azimuth && f[4 * i + 3] == svs[i].snr
  {
    if i > 0 {
      SvFieldsAre(svs[1..], i - 1);
    }
  }

  lemma {:induction false} SvFieldsArePlain(svs: seq<Sv>)
    requires Printable(svs)
    ensures forall j :: 0 <= j < |SvFields(svs)| ==> Plain(SvFields(svs)[j])
  {
    if svs != [] {
      NumberIsRead(svs[0].prn);
      SvFieldsArePlain(svs[1..]);
    }
  }

  function SentenceCount(svs: seq<Sv>): nat { (|svs| + 3) / 4 }

  /** The satellites of the j-th sentence: four, or what is left. */
  function Quarter(svs: seq<Sv>, j: nat): (r: seq<Sv>)
    requires j < SentenceCount(svs)
  {
    if 4 * j + 4 <= |svs| then svs[4 * j..4 * j + 4] else svs[4 * j..]
  }

  predicate IsGsvName(id: string) { id == "GPGSV" || id == "GLGSV" }

  function Header(svs: seq<Sv>, j: nat, id: string): seq<string> {
    [id, AtTok.Digits(SentenceCount(svs)), AtTok.Digits(j + 1), AtTok.Digits(|svs|)]
  }

  function SentenceFields(svs: seq<Sv>, j: nat, id: string): (fields: seq<string>)
    requires Printable(svs) && j < SentenceCount(svs)
    ensures 4 < |fields| <= MAX_NMEA_TOKENS
  {
    Header(svs, j, id) + SvFields(Quarter(svs, j))
  }

  lemma HeaderIsPlain(svs: seq<Sv>, j: nat, id: string)
    requires Plain(id)
    ensures forall k :: 0 <= k < 4 ==> Plain(Header(svs, j, id)[k])
    ensures IntOf(AtTok.Digits(SentenceCount(svs))) == SentenceCount(svs)
    ensures IntOf(AtTok.Digits(j + 1)) == j + 1 && IntOf(AtTok.Digits(|svs|)) == |svs|
  {
    NumberAlone(SentenceCount(svs));
    NumberAlone(j + 1);
    NumberAlone(|svs|);
  }

  lemma NumberAlone(n: nat)
    ensures IntOf(AtTok.Digits(n)) == n && Plain(AtTok.Digits(n))
  {
    NumbersAreRead(n, "");
    assert "" + AtTok.Digits(n) == AtTok.Digits(n);
  }

  lemma FieldAt(svs: seq<Sv>, j: nat, id: string, m: nat)
    requires Printable(svs) && j < SentenceCount(svs) && m < 4 * |Quarter(svs, j)|
    ensures SentenceFields(svs, j, id)[4 + m] == SvFields(Quarter(svs, j))[m]
  {
    Behind(Header(svs, j, id), SvFields(Quarter(svs, j)), m);
  }

  lemma Behind(a: seq<string>, b: seq<string>, m: nat)
    requires m < |b|
    ensures (a + b)[|a| + m] == b[m]
  {
  }

  lemma SlotIsRead(svs: seq<Sv>, j: nat, id: string, i: nat)
    requires Printable(svs) && j < SentenceCount(svs) && i < 4 && 4 * j + i < |svs|
    ensures SlotOf(SentenceFields(svs, j, id), i) == svs[4 * j + i]
  {
    var part, v := Quarter(svs, j), svs[4 * j + i];
    assert part[i] == v;
    SvFieldsAre(part, i);
    NumberIsRead(v.prn);
    FieldAt(svs, j, id, 4 * i);
    FieldAt(svs, j, id, 4 * i + 1);
    FieldAt(svs, j, id, 4 * i + 2);
    FieldAt(svs, j, id, 4 * i + 3);
  }

  lemma FieldsStart(svs: seq<Sv>, j: nat, id: string)
    requires Printable(svs) && j < SentenceCount(svs)
    ensures var f := SentenceFields(svs, j, id);
            && Get(f, 1) == AtTok.Digits(SentenceCount(svs)) && Get(f, 2) == AtTok.Digits(j + 1) && Get(f, 3) == AtTok.Digits(|svs|)
  {
    assert SentenceFields(svs, j, id)[..4] == Header(svs, j, id);
  }

  lemma HeaderIsRead(svs: seq<Sv>, j: nat, id: string)
    requires Printable(svs) && j < SentenceCount(svs) && Plain(id)
    ensures var g := GsvOf(SentenceFields(svs, j, id));
            g.sentences == SentenceCount(svs) && g.sentence == j + 1 && g.satellites == |svs|
  {
    FieldsStart(svs, j, id);
    HeaderIsPlain(svs, j, id);
  }

  lemma SlotsAre(tokens: seq<string>, i: nat)
    requires i < 4
    ensures GsvOf(tokens).slots[i] == SlotOf(tokens, i)
  {
  }

  lemma FieldsArePart(svs: seq<Sv>, j: nat, id: string)
    requires Printable(svs) && j < SentenceCount(svs) && Plain(id)
    ensures IsPart(GsvOf(SentenceFields(svs, j, id)), svs, j, SentenceCount(svs))
  {
    var g := GsvOf(SentenceFields(svs, j, id));
    HeaderIsRead(svs, j, id);
    forall i | 0 <= i < 4 && 4 * j + i < |svs|
      ensures g.slots[i] == svs[4 * j + i]
    {
      SlotIsRead(svs, j, id, i);
      SlotsAre(SentenceFields(svs, j, id), i);
    }
  }

  /** The lines of a group, with any checksum characters. */
  function GroupLines(svs: seq<Sv>, id: string, c0: char, c1: char): (es: seq<Event>)
    requires Printable(svs)
  {
    seq(SentenceCount(svs), j requires 0 <= j < SentenceCount(svs) => Line(Framed(JoinFields(SentenceFields(svs, j, id)), c0, c1)))
  }

  function GroupOf(svs: seq<Sv>, id: string): (gs: seq<Gsv>)
    requires Printable(svs)
    ensures WellFormed(gs)
  {
    seq(SentenceCount(svs), j requires 0 <= j < SentenceCount(svs) => GsvOf(SentenceFields(svs, j, id)))
  }

  lemma FieldsArePlain(svs: seq<Sv>, j: nat, id: string)
    requires Printable(svs) && j < SentenceCount(svs) && Plain(id)
    ensures forall k :: 0 <= k < |SentenceFields(svs, j, id)| ==> Plain(SentenceFields(svs, j, id)[k])
  {
    SvFieldsArePlain(Quarter(svs, j));
    HeaderIsPlain(svs, j, id);
  }

  lemma LineIsRead(svs: seq<Sv>, j: nat, id: string, c0: char, c1: char)
    requires Printable(svs) && j < SentenceCount(svs) && IsGsvName(id)
    ensures SentenceOf(Framed(JoinFields(SentenceFields(svs, j, id)), c0, c1)) == GsvSentence(GsvOf(SentenceFields(svs, j, id)))
  {
    assert Plain(id);
    FieldsArePlain(svs, j, id);
    GsvIsRead(SentenceFields(svs, j, id), c0, c1);
  }

  lemma {:induction false} LinesAreAdded(v: View, es: seq<Event>, gs: seq<Gsv>)
    requires |es| == |gs| && WellFormed(gs)
    requires forall k :: 0 <= k < |es| ==> es[k].Line? && SentenceOf(es[k].line) == GsvSentence(gs[k])
    ensures RunOf(v, es) == AddAll(v, gs)
  {
    if es != [] {
      LinesAreAdded(v, es[..|es| - 1], gs[..|gs| - 1]);
    }
  }

  lemma GroupIsGroup(svs: seq<Sv>, id: string)
    requires Printable(svs) && svs != [] && IsGsvName(id)
    ensures IsGroup(GroupOf(svs, id), svs)
  {
    assert Plain(id);
    forall j | 0 <= j < SentenceCount(svs)
      ensures IsPart(GroupOf(svs, id)[j], svs, j, SentenceCount(svs))
    {
      FieldsArePart(svs, j, id);
    }
  }

  lemma GroupLinesAreRead(svs: seq<Sv>, id: string, c0: char, c1: char)
    requires Printable(svs) && IsGsvName(id)
    ensures forall j :: 0 <= j < SentenceCount(svs) ==>
              SentenceOf(GroupLines(svs, id, c0, c1)[j].line) == GsvSentence(GroupOf(svs, id)[j])
  {
    forall j | 0 <= j < SentenceCount(svs)
      ensures SentenceOf(GroupLines(svs, id, c0, c1)[j].line) == GsvSentence(GroupOf(svs, id)[j])
    {
      LineIsRead(svs, j, id, c0, c1);
    }
  }

  lemma GroupLinesAreAdded(v: View, svs: seq<Sv>, id: string, c0: char, c1: char)
    requires Printable(svs) && IsGsvName(id)
    ensures RunOf(v, GroupLines(svs, id, c0, c1)) == AddAll(v, GroupOf(svs, id))
  {
    GroupLinesAreRead(svs, id, c0, c1);
    LinesAreAdded(v, GroupLines(svs, id, c0, c1), GroupOf(svs, id));
  }

  /** Satellites printed as a group of GSV lines are read back, each once and in order. */
  lemma PrintedGroupIsRead(v: View, svs: seq<Sv>, id: string, c0: char, c1: char)
    requires Printable(svs) && svs != [] && IsGsvName(id)
    ensures RunOf(v, GroupLines(svs, id, c0, c1)) == View(Base(v) + svs, |Base(v)| + |svs|, true, true)
  {
    GroupLinesAreAdded(v, svs, id, c0, c1);
    GroupIsGroup(svs, id);
    GroupIsAdded(v, GroupOf(svs, id), svs);
  }

  // ----- writes behind the list -----

  /** Some line of the run was written behind the list. */
  predicate OverranIn(v: View, es: seq<Event>, capacity: nat) {
    es != []
    && var before, e := es[..|es| - 1], es[|es| - 1];
       OverranIn(v, before, capacity) || (e.Line? && Overruns(RunOf(v, before), SentenceOf(e.line), capacity))
  }

  predicate OverranBy(v: View, gs: seq<Gsv>, capacity: nat)
    requires WellFormed(gs)
  {
    gs != []
    && var before, g := gs[..|gs| - 1], gs[|gs| - 1];
       OverranBy(v, before, capacity) || Overruns(AddAll(v, before), GsvSentence(g), capacity)
  }

  lemma OverranByLast(v: View, gs: seq<Gsv>, g: Gsv, capacity: nat)
    requires WellFormed(gs) && |g.slots| == 4
    ensures WellFormed(gs + [g])
    ensures OverranBy(v, gs + [g], capacity) <==> OverranBy(v, gs, capacity) || Overruns(AddAll(v, gs), GsvSentence(g), capacity)
  {
    assert (gs + [g])[..|gs|] == gs;
  }

  lemma GsvsInLast(es: seq<Event>)
    requires es != []
    ensures GsvsIn(es) == GsvsIn(es[..|es| - 1]) + Announcing(es[|es| - 1])
  {
  }

  lemma OverrunsAlike(v: View, w: View, s: Sentence, capacity: nat)
    requires Alike(v, w)
    ensures Overruns(v, s, capacity) <==> Overruns(w, s, capacity)
  {
  }

  lemma WritesAlike(v: View, w: View, e: Event, capacity: nat)
    requires Alike(v, w)
    ensures e.Line? && Overruns(v, SentenceOf(e.line), capacity) <==>
            Announcing(e) != [] && Overruns(w, GsvSentence(Announcing(e)[0]), capacity)
  {
    if e.Line? {
      var s := SentenceOf(e.line);
      OverrunsAlike(v, w, s, capacity);
      if s.GsvSentence? && s.g.satellites > 0 {
        assert Announcing(e) == [s.g] && GsvSentence(s.g) == s;
      } else {
        assert Announcing(e) == [];
      }
    }
  }

  lemma OverranByMore(v: View, gs: seq<Gsv>, more: seq<Gsv>, capacity: nat)
    requires WellFormed(gs) && WellFormed(more) && |more| <= 1
    ensures WellFormed(gs + more)
    ensures OverranBy(v, gs + more, capacity) <==>
            OverranBy(v, gs, capacity) || (more != [] && Overruns(AddAll(v, gs), GsvSentence(more[0]), capacity))
  {
    if more == [] {
      assert gs + more == gs;
    } else {
      assert more == [more[0]];
      OverranByLast(v, gs, more[0], capacity);
    }
  }

  /** Only the announcing GSV sentences write. */
  lemma {:induction false} OnlyGsvsWrite(v: View, es: seq<Event>, capacity: nat)
    requires OneEpoch(es)
    ensures OverranIn(v, es, capacity) <==> OverranBy(v, GsvsIn(es), capacity)
  {
    if es != [] {
      var before, e := es[..|es| - 1], es[|es| - 1];
      OnlyGsvsWrite(v, before, capacity);
      OnlyGsvsCount(v, before);
      GsvsInLast(es);
      OverranByMore(v, GsvsIn(before), Announcing(e), capacity);
      WritesAlike(RunOf(v, before), AddAll(v, GsvsIn(before)), e, capacity);
    }
  }

  /** While the list is being kept it only grows, so whoever has written behind it leaves it too long. */
  lemma {:induction false} OverrunStays(v: View, gs: seq<Gsv>, capacity: nat)
    requires WellFormed(gs) && gs != [] && gs[0].sentence == 1
    requires forall k :: 0 <= k < |gs| ==> gs[k].satellites > 0
    ensures AddAll(v, gs).keep
    ensures OverranBy(v, gs, capacity) ==> |AddAll(v, gs).svs| > capacity
  {
    var before := gs[..|gs| - 1];
    if before != [] {
      OverrunStays(v, before, capacity);
    } else {
      assert AddAll(v, before) == v && !OverranBy(v, before, capacity);
    }
  }

  /** The last sentence of a group always adds satellites. */
  lemma LastOfGroupWrites(v: View, gs: seq<Gsv>, svs: seq<Sv>, capacity: nat)
    requires IsGroup(gs, svs)
    ensures WellFormed(gs) && (|Base(v)| + |svs| > capacity ==> OverranBy(v, gs, capacity))
  {
    var n := |gs| - 1;
    var before, g := gs[..n], gs[n];
    assert IsPart(g, svs, n, |gs|);
    if n > 0 {
      PartOfGroup(v, gs, svs, n);
    } else {
      assert AddAll(v, before) == v;
    }
    var o := Opened(AddAll(v, before), g);
    assert |o.svs| == |Base(v)| + 4 * n && o.total == |Base(v)| + |svs|;
  }

  lemma {:induction false} OverranByJoins(v: View, a: seq<Gsv>, b: seq<Gsv>, capacity: nat)
    requires WellFormed(a) && WellFormed(b)
    ensures WellFormed(a + b) && (OverranBy(v, a + b, capacity) <==> OverranBy(v, a, capacity) || OverranBy(AddAll(v, a), b, capacity))
  {
    if b == [] {
      assert a + b == a;
    } else {
      OverranByJoins(v, a, b[..|b| - 1], capacity);
      AddAllJoins(v, a, b[..|b| - 1]);
      assert (a + b)[..|a + b| - 1] == a + b[..|b| - 1];
    }
  }

  lemma {:induction false} GroupsAnnounce(groups: seq<seq<Gsv>>, lists: seq<seq<Sv>>)
    requires AreGroups(groups, lists) && groups != []
    ensures WellFormed(Concat(groups)) && Concat(groups) != [] && Concat(groups)[0].sentence == 1
    ensures forall k :: 0 <= k < |Concat(groups)| ==> Concat(groups)[k].satellites > 0
  {
    var n := |groups| - 1;
    GroupsSplit(groups, lists);
    forall j | 0 <= j < |groups[n]|
      ensures |groups[n][j].slots| == 4 && groups[n][j].satellites > 0 && (j == 0 ==> groups[n][j].sentence == 1)
    {
      assert IsPart(groups[n][j], lists[n], j, |groups[n]|);
    }
    if n > 0 {
      GroupsAnnounce(groups[..n], lists[..n]);
    } else {
      assert Concat(groups[..0]) == [];
    }
    ConcatLast(groups, n);
  }

  lemma GroupsOverrun(v: View, groups: seq<seq<Gsv>>, lists: seq<seq<Sv>>, capacity: nat)
    requires !v.keep && AreGroups(groups, lists) && groups != []
    ensures WellFormed(Concat(groups)) && (OverranBy(v, Concat(groups), capacity) <==> |Concat(lists)| > capacity)
  {
    var n := |groups| - 1;
    GroupsAnnounce(groups, lists);
    GroupsAreJoined(v, groups, lists);
    OverrunStays(v, Concat(groups), capacity);
    ConcatLast(groups, n);
    ConcatLast(lists, n);
    GroupsSplit(groups, lists);
    if n == 0 {
      assert Concat(groups[..0]) == [] && Concat(lists[..0]) == [];
      assert AddAll(v, Concat(groups[..0])) == v;
    } else {
      GroupsAreJoined(v, groups[..n], lists[..n]);
    }
    LastOfGroupWrites(AddAll(v, Concat(groups[..n])), groups[n], lists[n], capacity);
    OverranByJoins(v, Concat(groups[..n]), groups[n], capacity);
  }

  /** From a clear keep flag, complete groups are written within the list exactly if all their satellites
      together fit in it. */
  lemma EpochFitsExactly(v: View, es: seq<Event>, groups: seq<seq<Gsv>>, lists: seq<seq<Sv>>, capacity: nat)
    requires !v.keep && OneEpoch(es) && AreGroups(groups, lists) && GsvsIn(es) == Concat(groups)
    ensures !OverranIn(v, es, capacity) <==> |Concat(lists)| <= capacity
  {
    OnlyGsvsWrite(v, es, capacity);
    if groups != [] {
      GroupsOverrun(v, groups, lists, capacity);
    }
  }
}
