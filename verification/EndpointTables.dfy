/** Which directory entries end up in the endpoint tables, told by the listing alone. */
module EndpointTables {
  import opened UsbState
  import opened EndpointPairing

  /** A read endpoint is a bulk endpoint with bit 7 set, numbered without that bit; a write endpoint is a bulk
      endpoint without it; endpoints from 32 on and ttys from 1024 on are ignored. */
  predicate Lists(w: Wanted, e: Entry, n: nat) {
    match w
    case ReadEndpoints => n < 32 && e == Endpoint(true, 0x80 + n)
    case WriteEndpoints => n < 32 && e == Endpoint(true, n)
    case Ttys => n < 1024 && e == Tty(n)
    case InterfaceNumbers => e == InterfaceNumber(n)
  }

  /** How many entries list `n`. */
  function Listed(w: Wanted, entries: seq<Entry>, n: nat): (count: nat) {
    if entries == [] then 0 else Listed(w, entries[..|entries| - 1], n) + if Lists(w, entries[|entries| - 1], n) then 1 else 0
  }

  lemma InputBit(devno: nat)
    requires IsInput(devno) && devno < 0xa0
    ensures 0x80 <= devno
  {
  }

  lemma ReadPick(e: Entry, n: nat)
    ensures Pick(ReadEndpoints, e) == [n] <==> Lists(ReadEndpoints, e, n)
  {
    if e.Endpoint? && e.bulk && e.devno == 0x80 + n && n < 32 {
      assert e.devno / 0x80 == 1;
    }
    if e.Endpoint? && IsInput(e.devno) && e.devno < 0xa0 {
      InputBit(e.devno);
    }
  }

  lemma WritePick(e: Entry, n: nat)
    ensures Pick(WriteEndpoints, e) == [n] <==> Lists(WriteEndpoints, e, n)
  {
    if e.Endpoint? && e.devno < 32 {
      assert e.devno / 0x80 == 0;
    }
  }

  lemma OnceOrNot(s: seq<nat>, n: nat)
    requires |s| <= 1
    ensures multiset(s)[n] == if s == [n] then 1 else 0
  {
  }

  lemma PickIsListed(w: Wanted, e: Entry, n: nat)
    ensures multiset(Pick(w, e))[n] == if Lists(w, e, n) then 1 else 0
  {
    OnceOrNot(Pick(w, e), n);
    match w
    case ReadEndpoints => ReadPick(e, n);
    case WriteEndpoints => WritePick(e, n);
    case _ =>
  }

  /** What is picked out of a listing is exactly what is listed. */
  lemma {:induction false} PickedIsListed(w: Wanted, entries: seq<Entry>, n: nat)
    ensures multiset(Picked(w, entries))[n] == Listed(w, entries, n)
  {
    if entries != [] {
      PickedIsListed(w, entries[..|entries| - 1], n);
      PickIsListed(w, entries[|entries| - 1], n);
    }
  }

  predicate IsEndpointTable(w: Wanted) { w == ReadEndpoints || w == WriteEndpoints }

  /** No endpoint is listed twice and nothing has to be dropped. */
  ghost predicate Orderly(w: Wanted, entries: seq<Entry>) {
    && |Picked(w, entries)| <= 32 && |Picked(w, entries)| <= |Picked(Ttys, entries)| <= 32
    && forall n: nat :: Listed(w, entries, n) <= 1
  }

  lemma NoneTwice(w: Wanted, entries: seq<Entry>)
    requires Orderly(w, entries)
    ensures forall n: nat :: multiset(Picked(w, entries))[n] <= 1
  {
    forall n: nat
      ensures multiset(Picked(w, entries))[n] <= 1
    {
      PickedIsListed(w, entries, n);
    }
  }

  /** Where a listed endpoint is among the sorted ones, if anywhere. */
  lemma SortedHasListed(w: Wanted, entries: seq<Entry>, n: nat)
    ensures n in Ascending(Picked(w, entries)) <==> Listed(w, entries, n) > 0
    ensures |Ascending(Picked(w, entries))| == |Picked(w, entries)|
  {
    var s := Ascending(Picked(w, entries));
    AscendingSorts(Picked(w, entries));
    PickedIsListed(w, entries, n);
    assert n in s <==> n in multiset(s);
    assert |multiset(s)| == |s|;
  }

  lemma SortedLength(w: Wanted, entries: seq<Entry>)
    ensures |Ascending(Picked(w, entries))| == |Picked(w, entries)|
  {
    SortedHasListed(w, entries, 0);
  }

  /** The rank of a listed endpoint, which is that of its tty. */
  lemma RankOf(table: seq<EndpointTty>, w: Wanted, entries: seq<Entry>, n: nat) returns (k: nat)
    requires |table| == 32 && IsEndpointTable(w) && Orderly(w, entries) && n < 32 && Listed(w, entries, n) == 1
    ensures k < |Ascending(Picked(w, entries))| && k < |Ascending(Picked(Ttys, entries))| && Ascending(Picked(w, entries))[k] == n
    ensures TableAfter(table, w, entries)[n] ==
            EndpointTty(Ascending(Picked(Ttys, entries))[k], LastOr(Picked(InterfaceNumbers, entries), 0xFFFF_FFFF))
  {
    NoneTwice(w, entries);
    SortedHasListed(w, entries, n);
    SortedLength(Ttys, entries);
    k :| 0 <= k < |Ascending(Picked(w, entries))| && Ascending(Picked(w, entries))[k] == n;
    ListingPairsByRank(table, w, entries, k);
  }

  /** An endpoint that is listed gets a listed tty, with the number of the interface. */
  lemma ListedGetsTty(table: seq<EndpointTty>, w: Wanted, entries: seq<Entry>, n: nat) returns (t: nat)
    requires |table| == 32 && IsEndpointTable(w) && Orderly(w, entries) && n < 32 && Listed(w, entries, n) == 1
    ensures Listed(Ttys, entries, t) > 0
    ensures TableAfter(table, w, entries)[n] == EndpointTty(t, LastOr(Picked(InterfaceNumbers, entries), 0xFFFF_FFFF))
  {
    var k := RankOf(table, w, entries, n);
    t := Ascending(Picked(Ttys, entries))[k];
    SortedHasListed(Ttys, entries, t);
  }

  /** An endpoint that is not listed keeps its entry. */
  lemma UnlistedStays(table: seq<EndpointTty>, w: Wanted, entries: seq<Entry>, n: nat)
    requires |table| == 32 && IsEndpointTable(w) && Orderly(w, entries) && n < 32 && Listed(w, entries, n) == 0
    ensures TableAfter(table, w, entries)[n] == table[n]
  {
    NoneTwice(w, entries);
    SortedHasListed(w, entries, n);
    StrictlyAscending(Picked(w, entries));
    EndpointsAreSmall(w, entries);
    assert Capped(Picked(w, entries)) == Picked(w, entries);
    RanksArePaired(table, Ascending(Picked(w, entries)), Ascending(Capped(Picked(Ttys, entries))), LastOr(Picked(InterfaceNumbers, entries), NONE));
  }

  lemma Ranked(s: seq<nat>, j: nat, k: nat)
    requires IsSorted(s) && j < |s| && k < |s| && s[j] < s[k]
    ensures j < k
  {
  }

  /** Of two listed endpoints the one with the smaller number gets the tty that is not larger. */
  lemma OrderIsKept(table: seq<EndpointTty>, w: Wanted, entries: seq<Entry>, m: nat, n: nat)
    requires |table| == 32 && IsEndpointTable(w) && Orderly(w, entries) && m < n < 32
    requires Listed(w, entries, m) == 1 && Listed(w, entries, n) == 1
    ensures TableAfter(table, w, entries)[m].ttynum <= TableAfter(table, w, entries)[n].ttynum
  {
    var j := RankOf(table, w, entries, m);
    var k := RankOf(table, w, entries, n);
    AscendingSorts(Picked(w, entries));
    AscendingSorts(Picked(Ttys, entries));
    Ranked(Ascending(Picked(w, entries)), j, k);
  }

  /** The entry of each endpoint after a scan: exactly the listed ones have got a listed tty, in the order of
      their numbers. */
  lemma TableIs(table: seq<EndpointTty>, w: Wanted, entries: seq<Entry>, n: nat)
    requires |table| == 32 && IsEndpointTable(w) && Orderly(w, entries) && n < 32
    ensures if Listed(w, entries, n) == 0 then TableAfter(table, w, entries)[n] == table[n]
            else
              && Listed(Ttys, entries, TableAfter(table, w, entries)[n].ttynum) > 0
              && TableAfter(table, w, entries)[n].ifnum == LastOr(Picked(InterfaceNumbers, entries), 0xFFFF_FFFF)
              && forall m: nat :: m < n && Listed(w, entries, m) == 1 ==>
                   TableAfter(table, w, entries)[m].ttynum <= TableAfter(table, w, entries)[n].ttynum
  {
    if Listed(w, entries, n) == 0 {
      UnlistedStays(table, w, entries, n);
    } else {
      var t := ListedGetsTty(table, w, entries, n);
      forall m: nat | m < n && Listed(w, entries, m) == 1
        ensures TableAfter(table, w, entries)[m].ttynum <= TableAfter(table, w, entries)[n].ttynum
      {
        OrderIsKept(table, w, entries, m, n);
      }
    }
  }

  /** Once 32 numbers of a sort are listed, what else is listed is ignored. */
  lemma LaterAreIgnored(w: Wanted, first: seq<Entry>, later: seq<Entry>)
    requires |Picked(w, first)| == 32
    ensures Capped(Picked(w, first + later)) == Picked(w, first)
  {
    PickedConcat(w, first, later);
  }

  /** If several interface numbers are listed, the last one counts. */
  lemma LastInterfaceCounts(before: seq<Entry>, n: nat, after: seq<Entry>)
    requires forall k :: 0 <= k < |after| ==> !after[k].InterfaceNumber?
    ensures LastOr(Picked(InterfaceNumbers, before + [InterfaceNumber(n)] + after), 0xFFFF_FFFF) == n
  {
    PickedConcat(InterfaceNumbers, before + [InterfaceNumber(n)], after);
    PickedLast(InterfaceNumbers, before, InterfaceNumber(n));
    NoInterface(after);
  }

  lemma {:induction false} NoInterface(entries: seq<Entry>)
    requires forall k :: 0 <= k < |entries| ==> !entries[k].InterfaceNumber?
    ensures Picked(InterfaceNumbers, entries) == []
  {
    if entries != [] {
      NoInterface(entries[..|entries| - 1]);
    }
  }

  /** And without any there is none. */
  lemma NoInterfaceIsNone(entries: seq<Entry>)
    requires forall k :: 0 <= k < |entries| ==> !entries[k].InterfaceNumber?
    ensures LastOr(Picked(InterfaceNumbers, entries), NONE) == 0xFFFF_FFFF
  {
    NoInterface(entries);
  }
}
