/** When the listing order of a subdevice directory matters: exactly when more ttys are listed than the
    table of the scan can hold. */
module DroppedTtys {
  import opened UsbState
  import opened EndpointPairing

  predicate Distinct(s: seq<nat>) { forall j, k :: 0 <= j < k < |s| ==> s[j] != s[k] }

  lemma {:induction false} DistinctOnce(s: seq<nat>)
    requires Distinct(s)
    ensures forall x: nat :: multiset(s)[x] <= 1
  {
    if s != [] {
      var init, last := s[..|s| - 1], s[|s| - 1];
      DistinctOnce(init);
      assert s == init + [last] && last !in init;
    }
  }

  lemma {:induction false} RanksAreBelow(s: seq<nat>, k: nat)
    requires k < |s| && forall i, j :: 0 <= i < j < |s| ==> s[i] < s[j]
    ensures k <= s[k]
  {
    if k > 0 {
      RanksAreBelow(s, k - 1);
    }
  }

  /** There is room for all endpoints: their numbers are distinct and below the size of the table. */
  lemma EndpointsFit(w: Wanted, entries: seq<Entry>)
    requires (w == ReadEndpoints || w == WriteEndpoints) && Distinct(Picked(w, entries))
    ensures |Picked(w, entries)| <= SWI_OS_MAXENDPOINTS
  {
    var s := Picked(w, entries);
    PickedAreSmall(w, entries);
    DistinctOnce(s);
    StrictlyAscending(s);
    AscendingSorts(s);
    assert |Ascending(s)| == |multiset(Ascending(s))| == |multiset(s)| == |s|;
    if s != [] {
      var last := |s| - 1;
      RanksAreBelow(Ascending(s), last);
      assert Ascending(s)[last] in multiset(s);
    }
  }

  /** Sorted, a list starts with a lower bound exactly if it contains it. */
  lemma SmallestFirst(s: seq<nat>, m: nat)
    requires s != [] && forall k :: 0 <= k < |s| ==> m <= s[k]
    ensures |Ascending(s)| == |s|
    ensures Ascending(s)[0] == m <==> m in s
  {
    var a := Ascending(s);
    AscendingSorts(s);
    assert |a| == |multiset(a)| == |multiset(s)| == |s|;
    assert a[0] in multiset(s);
    if m in s {
      assert m in multiset(a);
      var i :| 0 <= i < |a| && a[i] == m;
      assert a[0] <= a[i];
    }
  }

  lemma {:induction false} SmallestTty(entries: seq<Entry>) returns (p: nat)
    requires Picked(Ttys, entries) != []
    ensures p < |entries| && |Pick(Ttys, entries[p])| == 1
    ensures forall k :: 0 <= k < |Picked(Ttys, entries)| ==> Pick(Ttys, entries[p])[0] <= Picked(Ttys, entries)[k]
  {
    var init, last := entries[..|entries| - 1], Pick(Ttys, entries[|entries| - 1]);
    if Picked(Ttys, init) == [] {
      p := |entries| - 1;
    } else {
      p := SmallestTty(init);
      if last != [] && last[0] < Pick(Ttys, init[p])[0] {
        p := |entries| - 1;
      }
    }
  }

  function Front(entries: seq<Entry>, p: nat): seq<Entry>
    requires p < |entries|
  {
    [entries[p]] + (entries[..p] + entries[p + 1..])
  }

  function Back(entries: seq<Entry>, p: nat): seq<Entry>
    requires p < |entries|
  {
    (entries[..p] + entries[p + 1..]) + [entries[p]]
  }

  ghost predicate Rearranged(a: seq<Entry>, b: seq<Entry>) { multiset(a) == multiset(b) }

  lemma MovedIsRearranged(entries: seq<Entry>, p: nat)
    requires p < |entries|
    ensures Rearranged(entries, Front(entries, p)) && Rearranged(entries, Back(entries, p))
  {
    assert entries == entries[..p] + ([entries[p]] + entries[p + 1..]);
  }

  /** The ttys of the listing with one entry moved; `others` are the remaining ones. */
  lemma MovedTtys(entries: seq<Entry>, p: nat) returns (others: seq<nat>)
    requires p < |entries|
    ensures Picked(Ttys, Front(entries, p)) == Pick(Ttys, entries[p]) + others
    ensures Picked(Ttys, Back(entries, p)) == others + Pick(Ttys, entries[p])
    ensures multiset(Picked(Ttys, entries)) == multiset(others) + multiset(Pick(Ttys, entries[p]))
  {
    var rest := entries[..p] + entries[p + 1..];
    others := Picked(Ttys, rest);
    PickedOne(Ttys, entries[p]);
    PickedConcat(Ttys, [entries[p]], rest);
    PickedConcat(Ttys, rest, [entries[p]]);
    PickedMiddle(Ttys, entries[..p], entries[p], entries[p + 1..]);
    EntryApart(entries, p);
  }

  lemma EntryApart(entries: seq<Entry>, p: nat)
    requires p < |entries|
    ensures entries[..p] + ([entries[p]] + entries[p + 1..]) == entries
  {
  }

  /** Among too many distinct numbers, the smallest is kept if it comes first and dropped if it comes last. */
  lemma KeptByPlace(others: seq<nat>, m: nat)
    requires |others| >= SWI_OS_MAXENDPOINTS && forall k :: 0 <= k < |others| ==> m < others[k]
    ensures Capped([m] + others) != [] && Capped(others + [m]) != []
    ensures |Ascending(Capped([m] + others))| > 0 && |Ascending(Capped(others + [m]))| > 0
    ensures Ascending(Capped([m] + others))[0] == m && Ascending(Capped(others + [m]))[0] != m
  {
    var first, last := Capped([m] + others), Capped(others + [m]);
    assert first[0] == m;
    assert last == others[..SWI_OS_MAXENDPOINTS];
    SmallestFirst(first, m);
    SmallestFirst(last, m);
  }

  lemma OthersAreLarger(all: seq<nat>, others: seq<nat>, m: nat)
    requires Distinct(all) && multiset(all) == multiset(others) + multiset([m]) && forall k :: 0 <= k < |all| ==> m <= all[k]
    ensures |all| == |others| + 1 && forall k :: 0 <= k < |others| ==> m < others[k]
  {
    DistinctOnce(all);
    assert |all| == |multiset(all)| == |others| + 1;
    forall k | 0 <= k < |others|
      ensures m < others[k]
    {
      assert others[k] in multiset(others);
      assert others[k] in multiset(all);
      assert multiset(all)[m] == multiset(others)[m] + 1;
    }
  }

  /** With too many ttys, some rearrangement starts with the smallest of them and some other does not. */
  lemma PlacesDiffer(a: seq<Entry>) returns (p: nat)
    requires Distinct(Picked(Ttys, a)) && |Picked(Ttys, a)| > SWI_OS_MAXENDPOINTS
    ensures p < |a|
    ensures var f, b := Ascending(Capped(Picked(Ttys, Front(a, p)))), Ascending(Capped(Picked(Ttys, Back(a, p))));
            f != [] && b != [] && f[0] != b[0]
  {
    p := SmallestTty(a);
    var others := MovedTtys(a, p);
    var m := Pick(Ttys, a[p])[0];
    var all := Picked(Ttys, a);
    assert Pick(Ttys, a[p]) == [m];
    OthersAreLarger(all, others, m);
    KeptByPlace(others, m);
  }

  /** The kept ttys depend on the listing order exactly if there are more than fit. */
  lemma {:induction false} KeptTtysDependOnOrder(a: seq<Entry>)
    requires Distinct(Picked(Ttys, a))
    ensures (exists b :: Rearranged(a, b) && Ascending(Capped(Picked(Ttys, b))) != Ascending(Capped(Picked(Ttys, a))))
            <==> |Picked(Ttys, a)| > SWI_OS_MAXENDPOINTS
  {
    if |Picked(Ttys, a)| > SWI_OS_MAXENDPOINTS {
      var p := PlacesDiffer(a);
      MovedIsRearranged(a, p);
    } else {
      forall b | Rearranged(a, b)
        ensures Ascending(Capped(Picked(Ttys, b))) == Ascending(Capped(Picked(Ttys, a)))
      {
        SameSorted(Ttys, a, b);
      }
    }
  }

  /** The smallest endpoint gets the smallest tty that was kept. */
  lemma FirstEndpoint(table: seq<EndpointTty>, w: Wanted, entries: seq<Entry>)
    requires |table| == SWI_OS_MAXENDPOINTS && (w == ReadEndpoints || w == WriteEndpoints)
    requires Distinct(Picked(w, entries)) && Picked(w, entries) != [] && Picked(Ttys, entries) != []
    ensures Ascending(Picked(w, entries)) != [] && Ascending(Picked(w, entries))[0] < |table|
    ensures Ascending(Capped(Picked(Ttys, entries))) != []
    ensures TableAfter(table, w, entries)[Ascending(Picked(w, entries))[0]].ttynum == Ascending(Capped(Picked(Ttys, entries)))[0]
  {
    var eps, ttys := Picked(w, entries), Capped(Picked(Ttys, entries));
    EndpointsFit(w, entries);
    assert Capped(eps) == eps;
    DistinctOnce(eps);
    StrictlyAscending(eps);
    EndpointsAreSmall(w, entries);
    AscendingSorts(eps);
    AscendingSorts(ttys);
    assert |Ascending(eps)| == |multiset(Ascending(eps))| == |multiset(eps)| == |eps|;
    assert |Ascending(ttys)| == |multiset(Ascending(ttys))| == |multiset(ttys)| == |ttys|;
    RanksArePaired(table, Ascending(eps), Ascending(ttys), LastOr(Picked(InterfaceNumbers, entries), NONE));
  }

  lemma SamePicks(w: Wanted, a: seq<Entry>, b: seq<Entry>)
    requires Rearranged(a, b) && Distinct(Picked(w, a))
    ensures multiset(Picked(w, a)) == multiset(Picked(w, b)) && |Picked(w, a)| == |Picked(w, b)|
    ensures Ascending(Picked(w, a)) == Ascending(Picked(w, b)) && Distinct(Picked(w, b))
  {
    PickedPermutes(w, a, b);
    var p, q := Picked(w, a), Picked(w, b);
    assert |p| == |multiset(p)| == |multiset(q)| == |q|;
    AscendingForgetsOrder(p, q);
    DistinctOnce(p);
    OnceDistinct(q);
  }

  lemma OnceDistinct(q: seq<nat>)
    requires forall x: nat :: multiset(q)[x] <= 1
    ensures Distinct(q)
  {
    forall j, k | 0 <= j < k < |q|
      ensures q[j] != q[k]
    {
      OccursTwice(q, j, k);
    }
  }

  lemma OccursTwice(q: seq<nat>, j: nat, k: nat)
    requires j < k < |q| && multiset(q)[q[k]] <= 1
    ensures q[j] != q[k]
  {
    assert q == q[..k] + [q[k]] + q[k + 1..];
    assert multiset(q)[q[k]] == multiset(q[..k])[q[k]] + 1 + multiset(q[k + 1..])[q[k]];
    assert q[j] in multiset(q[..k]);
  }

  lemma TablesDiffer(table: seq<EndpointTty>, w: Wanted, a: seq<Entry>, p: nat)
    requires |table| == SWI_OS_MAXENDPOINTS && (w == ReadEndpoints || w == WriteEndpoints) && p < |a|
    requires Distinct(Picked(w, a)) && Picked(w, a) != [] && Distinct(Picked(Ttys, a)) && Picked(Ttys, a) != []
    requires var f, b := Ascending(Capped(Picked(Ttys, Front(a, p)))), Ascending(Capped(Picked(Ttys, Back(a, p))));
             f != [] && b != [] && f[0] != b[0]
    ensures TableAfter(table, w, Front(a, p)) != TableAfter(table, w, Back(a, p))
  {
    MovedIsRearranged(a, p);
    SamePicks(w, a, Front(a, p));
    SamePicks(w, a, Back(a, p));
    SamePicks(Ttys, a, Front(a, p));
    SamePicks(Ttys, a, Back(a, p));
    FirstEndpoint(table, w, Front(a, p));
    FirstEndpoint(table, w, Back(a, p));
  }

  /** The endpoint-to-tty table of a subdevice depends on the order in which its directory is listed exactly
      if more ttys are listed than fit and there is an endpoint to give one to. Files have distinct names,
      so endpoints and ttys are distinct, and there is one interface number file. */
  lemma {:induction false} OrderMattersExactly(table: seq<EndpointTty>, w: Wanted, a: seq<Entry>)
    requires |table| == SWI_OS_MAXENDPOINTS && (w == ReadEndpoints || w == WriteEndpoints)
    requires Distinct(Picked(w, a)) && Distinct(Picked(Ttys, a)) && |Picked(InterfaceNumbers, a)| <= 1
    ensures (exists b :: Rearranged(a, b) && TableAfter(table, w, b) != TableAfter(table, w, a))
            <==> |Picked(Ttys, a)| > SWI_OS_MAXENDPOINTS && Picked(w, a) != []
  {
    if |Picked(Ttys, a)| > SWI_OS_MAXENDPOINTS && Picked(w, a) != [] {
      var p := PlacesDiffer(a);
      MovedIsRearranged(a, p);
      TablesDiffer(table, w, a, p);
    } else {
      forall b | Rearranged(a, b)
        ensures TableAfter(table, w, b) == TableAfter(table, w, a)
      {
        SameTable(table, w, a, b);
      }
    }
  }

  lemma SameTable(table: seq<EndpointTty>, w: Wanted, a: seq<Entry>, b: seq<Entry>)
    requires |table| == SWI_OS_MAXENDPOINTS && (w == ReadEndpoints || w == WriteEndpoints) && Rearranged(a, b)
    requires Distinct(Picked(w, a)) && |Picked(InterfaceNumbers, a)| <= 1
    requires |Picked(Ttys, a)| <= SWI_OS_MAXENDPOINTS || Picked(w, a) == []
    ensures TableAfter(table, w, b) == TableAfter(table, w, a)
  {
    if Picked(w, a) == [] {
      SamePicks(w, a, b);
      assert Picked(w, b) == [];
    } else {
      EndpointsFit(w, a);
      EnumerationOrderIsIrrelevant(table, w, a, b);
    }
  }

  // ----- a directory where it does -----

  function Numbered(n: nat): (entries: seq<Entry>) { seq(n, k requires 0 <= k < n => Tty(k)) }

  /** One write endpoint and 33 ttys. */
  function Crowded(): (entries: seq<Entry>) { [Endpoint(true, 1)] + Numbered(33) }

  lemma NumberedLast(n: nat)
    requires n > 0
    ensures Numbered(n) == Numbered(n - 1) + [Tty(n - 1)]
  {
  }

  lemma {:induction false} NumberedTtys(n: nat)
    requires n <= SWI_OS_MAXUSBTTYS
    ensures |Picked(Ttys, Numbered(n))| == n && forall k :: 0 <= k < n ==> Picked(Ttys, Numbered(n))[k] == k
  {
    if n > 0 {
      NumberedTtys(n - 1);
      NumberedLast(n);
      PickedLast(Ttys, Numbered(n - 1), Tty(n - 1));
    }
  }

  lemma {:induction false} NumberedElse(w: Wanted, n: nat)
    requires w != Ttys
    ensures Picked(w, Numbered(n)) == []
  {
    if n > 0 {
      NumberedElse(w, n - 1);
      NumberedLast(n);
      PickedLast(w, Numbered(n - 1), Tty(n - 1));
    }
  }

  lemma CrowdedPicks(w: Wanted)
    ensures Picked(w, Crowded()) == Pick(w, Endpoint(true, 1)) + Picked(w, Numbered(33))
  {
    PickedConcat(w, [Endpoint(true, 1)], Numbered(33));
    PickedOne(w, Endpoint(true, 1));
  }

  lemma CrowdedEndpoints()
    ensures Picked(WriteEndpoints, Crowded()) == [1]
  {
    CrowdedPicks(WriteEndpoints);
    NumberedElse(WriteEndpoints, SWI_OS_MAXENDPOINTS + 1);
  }

  lemma CrowdedInterfaces()
    ensures Picked(InterfaceNumbers, Crowded()) == []
  {
    CrowdedPicks(InterfaceNumbers);
    NumberedElse(InterfaceNumbers, SWI_OS_MAXENDPOINTS + 1);
  }

  lemma CrowdedTtys()
    ensures |Picked(Ttys, Crowded())| == SWI_OS_MAXENDPOINTS + 1 && Distinct(Picked(Ttys, Crowded()))
  {
    CrowdedPicks(Ttys);
    NumberedTtys(SWI_OS_MAXENDPOINTS + 1);
  }

  /** Listed in some other order, this directory gives another table. */
  lemma DroppingDependsOnOrder(table: seq<EndpointTty>) returns (b: seq<Entry>)
    requires |table| == SWI_OS_MAXENDPOINTS
    ensures Rearranged(Crowded(), b) && TableAfter(table, WriteEndpoints, b) != TableAfter(table, WriteEndpoints, Crowded())
  {
    CrowdedEndpoints();
    CrowdedInterfaces();
    CrowdedTtys();
    OrderMattersExactly(table, WriteEndpoints, Crowded());
    b :| Rearranged(Crowded(), b) && TableAfter(table, WriteEndpoints, b) != TableAfter(table, WriteEndpoints, Crowded());
  }
}
