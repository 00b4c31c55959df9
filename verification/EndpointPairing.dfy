/** Pairing the endpoints of a modem subdevice with its ttys by rank, out of a directory listing that
    comes in any order. */
module EndpointPairing {
  import opened UsbState

  // ----- sorting -----

  function InsertNum(s: seq<nat>, x: nat): (r: seq<nat>) {
    if s == [] || s[|s| - 1] <= x then s + [x] else InsertNum(s[..|s| - 1], x) + [s[|s| - 1]]
  }

  function Ascending(s: seq<nat>): (r: seq<nat>) {
    if s == [] then [] else InsertNum(Ascending(s[..|s| - 1]), s[|s| - 1])
  }

  predicate IsSorted(s: seq<nat>) { forall j, k :: 0 <= j < k < |s| ==> s[j] <= s[k] }

  lemma {:induction false} InsertNumAdds(s: seq<nat>, x: nat)
    ensures multiset(InsertNum(s, x)) == multiset(s) + multiset{x}
  {
    if s != [] && s[|s| - 1] > x {
      InsertNumAdds(s[..|s| - 1], x);
      assert s == s[..|s| - 1] + [s[|s| - 1]];
    }
  }

  lemma {:induction false} InsertNumBound(s: seq<nat>, x: nat, bound: nat)
    requires x <= bound && forall k :: 0 <= k < |s| ==> s[k] <= bound
    ensures forall k :: 0 <= k < |InsertNum(s, x)| ==> InsertNum(s, x)[k] <= bound
  {
    if s != [] && s[|s| - 1] > x {
      InsertNumBound(s[..|s| - 1], x, bound);
    }
  }

  lemma {:induction false} InsertNumSorts(s: seq<nat>, x: nat)
    requires IsSorted(s)
    ensures IsSorted(InsertNum(s, x))
  {
    if s != [] && s[|s| - 1] > x {
      InsertNumSorts(s[..|s| - 1], x);
      InsertNumBound(s[..|s| - 1], x, s[|s| - 1]);
    }
  }

  lemma {:induction false} AscendingSorts(s: seq<nat>)
    ensures IsSorted(Ascending(s)) && multiset(Ascending(s)) == multiset(s)
  {
    if s != [] {
      AscendingSorts(s[..|s| - 1]);
      InsertNumSorts(Ascending(s[..|s| - 1]), s[|s| - 1]);
      InsertNumAdds(Ascending(s[..|s| - 1]), s[|s| - 1]);
      assert s == s[..|s| - 1] + [s[|s| - 1]];
    }
  }

  lemma TailCounts(a: seq<nat>)
    requires a != []
    ensures multiset(a[1..]) == multiset(a) - multiset{a[0]}
  {
    assert a == [a[0]] + a[1..];
  }

  lemma FirstIsLeast(a: seq<nat>, b: seq<nat>)
    requires IsSorted(a) && multiset(a) == multiset(b) && a != [] && b != []
    ensures a[0] <= b[0]
  {
    assert b[0] in multiset(b);
    assert b[0] in multiset(a);
  }

  lemma {:induction false} SortedArrangementIsUnique(a: seq<nat>, b: seq<nat>)
    requires IsSorted(a) && IsSorted(b) && multiset(a) == multiset(b)
    ensures a == b
  {
    assert |multiset(a)| == |a| && |multiset(b)| == |b|;
    if a != [] {
      FirstIsLeast(a, b);
      FirstIsLeast(b, a);
      TailCounts(a);
      TailCounts(b);
      SortedArrangementIsUnique(a[1..], b[1..]);
      assert a == [a[0]] + a[1..] && b == [b[0]] + b[1..];
    }
  }

  /** Sorting forgets the order of its input. */
  lemma AscendingForgetsOrder(a: seq<nat>, b: seq<nat>)
    requires multiset(a) == multiset(b)
    ensures Ascending(a) == Ascending(b)
  {
    AscendingSorts(a);
    AscendingSorts(b);
    SortedArrangementIsUnique(Ascending(a), Ascending(b));
  }

  /** Where the inner loop stops is where the element belongs. */
  lemma {:induction false} InsertNumAt(s: seq<nat>, x: nat, j: nat)
    requires j <= |s| && (j > 0 ==> s[j - 1] <= x) && forall k :: j <= k < |s| ==> s[k] > x
    ensures InsertNum(s, x) == s[..j] + [x] + s[j..]
  {
    if j < |s| {
      InsertNumAt(s[..|s| - 1], x, j);
      assert s[j..] == s[..|s| - 1][j..] + [s[|s| - 1]];
    }
  }

  /** One turn of the outer loop: shift the larger ones up and drop the element in. */
  method SinkIn(a: array<nat>, i: nat)
    requires i < a.Length
    modifies a
    ensures a[..i + 1] == InsertNum(old(a[..i]), old(a[i]))
    ensures forall k :: i < k < a.Length ==> a[k] == old(a[k])
  {
    var temp := a[i];
    ghost var before := a[..i];
    var j := i;
    while j > 0 && a[j - 1] > temp
      invariant 0 <= j <= i
      invariant forall k :: 0 <= k < j ==> a[k] == before[k]
      invariant forall k :: j <= k < i ==> a[k + 1] == before[k] && before[k] > temp
      invariant forall k :: i < k < a.Length ==> a[k] == old(a[k])
    {
      a[j] := a[j - 1];
      j := j - 1;
    }
    a[j] := temp;
    InsertNumAt(before, temp, j);
    assert a[..i + 1] == before[..j] + [temp] + before[j..];
  }

  /** swi_osdirsortuint: insertion sort in place. */
  method SortUint(a: array<nat>, size: nat)
    requires size <= a.Length
    modifies a
    ensures a[..size] == Ascending(old(a[..size]))
    ensures forall k :: size <= k < a.Length ==> a[k] == old(a[k])
  {
    if size == 0 {
      return;
    }
    ghost var s := a[..];
    var i := 1;
    assert a[..1] == Ascending(s[..1]) by {
      assert s[..1][..0] == [];
    }
    while i < size
      invariant 1 <= i <= size
      invariant a[..i] == Ascending(s[..i])
      invariant forall k :: i <= k < a.Length ==> a[k] == s[k]
    {
      assert s[..i + 1][..i] == s[..i];
      SinkIn(a, i);
      i := i + 1;
    }
    assert s[..size] == old(a[..size]);
  }

  // ----- collecting -----

  /** A directory entry that matters: an endpoint with its type and number (the high bit marks input
      devices), a tty, or the interface number file. */
  datatype Entry = Endpoint(bulk: bool, devno: nat) | Tty(devno: nat) | InterfaceNumber(n: nat) | OtherEntry

  datatype Wanted = ReadEndpoints | WriteEndpoints | Ttys | InterfaceNumbers

  predicate IsInput(devno: nat) { devno / 0x80 % 2 == 1 }

  /** What an entry contributes to a list. */
  function Pick(w: Wanted, e: Entry): (r: seq<nat>) {
    match w
    case ReadEndpoints =>
      if e.Endpoint? && e.bulk && IsInput(e.devno) && e.devno - 0x80 < SWI_OS_MAXENDPOINTS then [e.devno - 0x80] else []
    case WriteEndpoints =>
      if e.Endpoint? && e.bulk && !IsInput(e.devno) && e.devno < SWI_OS_MAXENDPOINTS then [e.devno] else []
    case Ttys => if e.Tty? && e.devno < SWI_OS_MAXUSBTTYS then [e.devno] else []
    case InterfaceNumbers => if e.InterfaceNumber? then [e.n] else []
  }

  function Picked(w: Wanted, entries: seq<Entry>): (r: seq<nat>) {
    if entries == [] then [] else Picked(w, entries[..|entries| - 1]) + Pick(w, entries[|entries| - 1])
  }

  /** The lists hold no more than SWI_OS_MAXENDPOINTS numbers; later ones are dropped. */
  function Capped(s: seq<nat>): (r: seq<nat>) { if |s| <= SWI_OS_MAXENDPOINTS then s else s[..SWI_OS_MAXENDPOINTS] }

  /** A list that is given `more`, of which there is at most one, if there is room. */
  function Pushed(list: seq<nat>, more: seq<nat>): (r: seq<nat>) { if |list| < SWI_OS_MAXENDPOINTS then list + more else list }

  function LastOr(s: seq<nat>, default: nat): nat { if s == [] then default else s[|s| - 1] }

  lemma PickedLast(w: Wanted, entries: seq<Entry>, e: Entry)
    ensures Picked(w, entries + [e]) == Picked(w, entries) + Pick(w, e)
  {
    assert (entries + [e])[..|entries|] == entries;
  }

  lemma CappedPush(s: seq<nat>, more: seq<nat>)
    requires |more| <= 1
    ensures Capped(s + more) == Pushed(Capped(s), more)
  {
  }

  lemma OnePushed(w: Wanted, before: seq<Entry>, e: Entry)
    ensures Capped(Picked(w, before + [e])) == Pushed(Capped(Picked(w, before)), Pick(w, e))
  {
    PickedLast(w, before, e);
    CappedPush(Picked(w, before), Pick(w, e));
  }

  lemma LastInterface(before: seq<Entry>, e: Entry)
    ensures LastOr(Picked(InterfaceNumbers, before + [e]), NONE) == if e.InterfaceNumber? then e.n else LastOr(Picked(InterfaceNumbers, before), NONE)
  {
    PickedLast(InterfaceNumbers, before, e);
  }

  /** How one more entry changes what is kept of a listing. */
  lemma PushedIsPicked(before: seq<Entry>, e: Entry)
    ensures forall w: Wanted :: Capped(Picked(w, before + [e])) == Pushed(Capped(Picked(w, before)), Pick(w, e))
    ensures LastOr(Picked(InterfaceNumbers, before + [e]), NONE) == if e.InterfaceNumber? then e.n else LastOr(Picked(InterfaceNumbers, before), NONE)
  {
    forall w: Wanted
      ensures Capped(Picked(w, before + [e])) == Pushed(Capped(Picked(w, before)), Pick(w, e))
    {
      OnePushed(w, before, e);
    }
    LastInterface(before, e);
  }

  lemma PickedConcatLast(w: Wanted, a: seq<Entry>, init: seq<Entry>, e: Entry)
    requires Picked(w, a + init) == Picked(w, a) + Picked(w, init)
    ensures Picked(w, a + init + [e]) == Picked(w, a) + Picked(w, init + [e])
  {
    PickedLast(w, a + init, e);
    PickedLast(w, init, e);
    Associate(Picked(w, a), Picked(w, init), Pick(w, e));
  }

  lemma Associate(a: seq<nat>, b: seq<nat>, c: seq<nat>)
    ensures a + b + c == a + (b + c)
  {
  }

  lemma LastApart<T>(a: seq<T>, b: seq<T>)
    requires b != []
    ensures b == b[..|b| - 1] + [b[|b| - 1]] && a + b == a + b[..|b| - 1] + [b[|b| - 1]]
  {
  }

  lemma {:induction false} PickedConcat(w: Wanted, a: seq<Entry>, b: seq<Entry>)
    ensures Picked(w, a + b) == Picked(w, a) + Picked(w, b)
  {
    if b == [] {
      assert a + b == a;
    } else {
      var init, e := b[..|b| - 1], b[|b| - 1];
      PickedConcat(w, a, init);
      PickedConcatLast(w, a, init, e);
      LastApart(a, b);
    }
  }

  lemma PickedOne(w: Wanted, e: Entry)
    ensures Picked(w, [e]) == Pick(w, e)
  {
    PickedLast(w, [], e);
    assert [] + [e] == [e];
  }

  lemma PickedMiddle(w: Wanted, front: seq<Entry>, e: Entry, back: seq<Entry>)
    ensures multiset(Picked(w, front + ([e] + back))) == multiset(Picked(w, front + back)) + multiset(Pick(w, e))
  {
    PickedOne(w, e);
    PickedConcat(w, front, [e] + back);
    PickedConcat(w, [e], back);
    PickedConcat(w, front, back);
  }

  /** The listing order does not change what is picked, only the order in which it is. */
  lemma {:induction false} PickedPermutes(w: Wanted, a: seq<Entry>, b: seq<Entry>)
    requires multiset(a) == multiset(b)
    ensures multiset(Picked(w, a)) == multiset(Picked(w, b))
  {
    if a == [] {
      assert |multiset(b)| == |b|;
    } else {
      var init, e := a[..|a| - 1], a[|a| - 1];
      var front, back := TakeOut(a, b);
      PickedPermutes(w, init, front + back);
      PickedMiddle(w, front, e, back);
    }
  }

  lemma WithoutLast(a: seq<Entry>)
    requires a != []
    ensures multiset(a) == multiset(a[..|a| - 1]) + multiset{a[|a| - 1]}
  {
    assert a == a[..|a| - 1] + [a[|a| - 1]];
  }

  lemma WithoutMiddle(front: seq<Entry>, e: Entry, back: seq<Entry>)
    ensures multiset(front + ([e] + back)) == multiset(front + back) + multiset{e}
  {
    assert multiset(front + back) == multiset(front) + multiset(back);
    assert multiset([e] + back) == multiset{e} + multiset(back);
  }

  lemma Cancelled(x: multiset<Entry>, y: multiset<Entry>, e: Entry)
    requires x + multiset{e} == y + multiset{e}
    ensures x == y
  {
    assert x == (x + multiset{e}) - multiset{e};
    assert y == (y + multiset{e}) - multiset{e};
  }

  lemma Found(b: seq<Entry>, e: Entry) returns (front: seq<Entry>, back: seq<Entry>)
    requires e in multiset(b)
    ensures b == front + ([e] + back)
  {
    var k :| 0 <= k < |b| && b[k] == e;
    front, back := b[..k], b[k + 1..];
  }

  /** The last entry of one listing, found in the other. */
  lemma TakeOut(a: seq<Entry>, b: seq<Entry>) returns (front: seq<Entry>, back: seq<Entry>)
    requires multiset(a) == multiset(b) && a != []
    ensures b == front + ([a[|a| - 1]] + back)
    ensures multiset(a[..|a| - 1]) == multiset(front + back)
  {
    var e := a[|a| - 1];
    WithoutLast(a);
    front, back := Found(b, e);
    WithoutMiddle(front, e, back);
    Cancelled(multiset(a[..|a| - 1]), multiset(front + back), e);
  }

  /** One pairing pass: the k-th endpoint of the list gets the k-th tty. */
  function Paired(table: seq<EndpointTty>, eps: seq<nat>, ttys: seq<nat>, ifnum: nat): (r: seq<EndpointTty>)
    ensures |r| == |table|
  {
    if eps == [] then table
    else
      var k := |eps| - 1;
      var before := Paired(table, eps[..k], ttys, ifnum);
      if k < |ttys| && eps[k] < |table| then before[eps[k] := EndpointTty(ttys[k], ifnum)] else before
  }

  /** What scanning one subdevice directory does to an endpoint table. */
  function TableAfter(table: seq<EndpointTty>, w: Wanted, entries: seq<Entry>): (r: seq<EndpointTty>)
    ensures |r| == |table|
  {
    Paired(table, Ascending(Capped(Picked(w, entries))), Ascending(Capped(Picked(Ttys, entries))),
           LastOr(Picked(InterfaceNumbers, entries), NONE))
  }

  /** The endpoint-to-tty table does not depend on the order in which the directory is listed, as
      long as nothing is dropped and there is one interface number file. */
  lemma {:induction false} EnumerationOrderIsIrrelevant(table: seq<EndpointTty>, w: Wanted, a: seq<Entry>, b: seq<Entry>)
    requires multiset(a) == multiset(b)
    requires |Picked(w, a)| <= SWI_OS_MAXENDPOINTS && |Picked(Ttys, a)| <= SWI_OS_MAXENDPOINTS && |Picked(InterfaceNumbers, a)| <= 1
    ensures TableAfter(table, w, a) == TableAfter(table, w, b)
  {
    SameSorted(w, a, b);
    SameSorted(Ttys, a, b);
    SameLast(a, b);
  }

  lemma SameSorted(w: Wanted, a: seq<Entry>, b: seq<Entry>)
    requires multiset(a) == multiset(b) && |Picked(w, a)| <= SWI_OS_MAXENDPOINTS
    ensures Ascending(Capped(Picked(w, a))) == Ascending(Capped(Picked(w, b)))
  {
    PickedPermutes(w, a, b);
    var p, q := Picked(w, a), Picked(w, b);
    assert |p| == |multiset(p)| == |multiset(q)| == |q|;
    AscendingForgetsOrder(p, q);
  }

  lemma SameSingle(p: seq<nat>, q: seq<nat>)
    requires |p| == |q| == 1 && multiset(p) == multiset(q)
    ensures p == q
  {
    assert p[0] in multiset(p);
    assert p[0] in q;
  }

  lemma SameLast(a: seq<Entry>, b: seq<Entry>)
    requires multiset(a) == multiset(b) && |Picked(InterfaceNumbers, a)| <= 1
    ensures LastOr(Picked(InterfaceNumbers, a), NONE) == LastOr(Picked(InterfaceNumbers, b), NONE)
  {
    PickedPermutes(InterfaceNumbers, a, b);
    var p, q := Picked(InterfaceNumbers, a), Picked(InterfaceNumbers, b);
    assert |p| == |multiset(p)| == |multiset(q)| == |q|;
    if |p| == 1 {
      SameSingle(p, q);
    }
  }

  /** With distinct endpoints the k-th smallest endpoint gets the k-th smallest tty, and entries of
      other endpoints stay as they were. */
  lemma {:induction false} RanksArePaired(table: seq<EndpointTty>, eps: seq<nat>, ttys: seq<nat>, ifnum: nat)
    requires forall j, k :: 0 <= j < k < |eps| ==> eps[j] < eps[k]
    requires forall k :: 0 <= k < |eps| ==> eps[k] < |table|
    ensures forall k :: 0 <= k < |eps| && k < |ttys| ==> Paired(table, eps, ttys, ifnum)[eps[k]] == EndpointTty(ttys[k], ifnum)
    ensures forall e :: 0 <= e < |table| && (forall k :: 0 <= k < |eps| && k < |ttys| ==> eps[k] != e) ==>
              Paired(table, eps, ttys, ifnum)[e] == table[e]
  {
    if eps != [] {
      RanksArePaired(table, eps[..|eps| - 1], ttys, ifnum);
    }
  }

  lemma NoTiesInSorted(s: seq<nat>, j: nat, k: nat)
    requires IsSorted(s) && j < k < |s| && forall x: nat :: multiset(s)[x] <= 1
    ensures s[j] < s[k]
  {
    assert s == s[..k] + [s[k]] + s[k + 1..];
    assert s[j] in s[..k];
    assert multiset(s)[s[k]] == multiset(s[..k])[s[k]] + 1 + multiset(s[k + 1..])[s[k]];
  }

  lemma StrictlyAscending(s: seq<nat>)
    requires forall x: nat :: multiset(s)[x] <= 1
    ensures forall i, j :: 0 <= i < j < |Ascending(s)| ==> Ascending(s)[i] < Ascending(s)[j]
  {
    AscendingSorts(s);
    forall i, j | 0 <= i < j < |Ascending(s)|
      ensures Ascending(s)[i] < Ascending(s)[j]
    {
      NoTiesInSorted(Ascending(s), i, j);
    }
  }

  /** The whole promise: out of a listing in any order, when no endpoint is listed twice and nothing
      is dropped, the k-th smallest endpoint is given the k-th smallest tty. */
  lemma {:induction false} ListingPairsByRank(table: seq<EndpointTty>, w: Wanted, entries: seq<Entry>, k: nat)
    requires |table| == SWI_OS_MAXENDPOINTS && (w == ReadEndpoints || w == WriteEndpoints)
    requires |Picked(w, entries)| <= SWI_OS_MAXENDPOINTS && |Picked(Ttys, entries)| <= SWI_OS_MAXENDPOINTS
    requires forall x: nat :: multiset(Picked(w, entries))[x] <= 1
    requires k < |Ascending(Picked(w, entries))| && k < |Ascending(Picked(Ttys, entries))|
    ensures Ascending(Picked(w, entries))[k] < |table|
    ensures TableAfter(table, w, entries)[Ascending(Picked(w, entries))[k]]
            == EndpointTty(Ascending(Picked(Ttys, entries))[k], LastOr(Picked(InterfaceNumbers, entries), NONE))
  {
    assert Capped(Picked(w, entries)) == Picked(w, entries) && Capped(Picked(Ttys, entries)) == Picked(Ttys, entries);
    StrictlyAscending(Picked(w, entries));
    EndpointsAreSmall(w, entries);
    RanksArePaired(table, Ascending(Picked(w, entries)), Ascending(Picked(Ttys, entries)),
                   LastOr(Picked(InterfaceNumbers, entries), NONE));
  }

  // ----- the parse structure -----

  class DirParse {
    const readEps: array<nat>
    var numReadEps: nat
    const writeEps: array<nat>
    var numWriteEps: nat
    const ttys: array<nat>
    var numTtys: nat
    var ifnum: nat
    const readTable: array<EndpointTty>
    const writeTable: array<EndpointTty>

    ghost predicate Valid()
      reads this
    {
      && readEps.Length == writeEps.Length == ttys.Length == readTable.Length == writeTable.Length == SWI_OS_MAXENDPOINTS
      && readEps != writeEps && readEps != ttys && writeEps != ttys && readTable != writeTable
      && numReadEps <= readEps.Length && numWriteEps <= writeEps.Length && numTtys <= ttys.Length
    }

    /** The lists hold what `entries` contribute. */
    ghost predicate Holds(entries: seq<Entry>)
      requires Valid()
      reads this, readEps, writeEps, ttys
    {
      && readEps[..numReadEps] == Capped(Picked(ReadEndpoints, entries))
      && writeEps[..numWriteEps] == Capped(Picked(WriteEndpoints, entries))
      && ttys[..numTtys] == Capped(Picked(Ttys, entries))
      && ifnum == LastOr(Picked(InterfaceNumbers, entries), NONE)
    }

    /** An endpoint of a bulk pipe. */
    method EpScanEndpoint(devno: nat)
      requires Valid()
      modifies this`numReadEps, this`numWriteEps, readEps, writeEps
      ensures Valid()
      ensures readEps[..numReadEps] == Pushed(old(readEps[..numReadEps]), Pick(ReadEndpoints, Endpoint(true, devno)))
      ensures writeEps[..numWriteEps] == Pushed(old(writeEps[..numWriteEps]), Pick(WriteEndpoints, Endpoint(true, devno)))
    {
      if IsInput(devno) {
        if devno - 0x80 >= SWI_OS_MAXENDPOINTS || numReadEps >= SWI_OS_MAXENDPOINTS {
          return;
        }
        readEps[numReadEps] := devno - 0x80;
        numReadEps := numReadEps + 1;
      } else {
        if devno >= SWI_OS_MAXENDPOINTS || numWriteEps >= SWI_OS_MAXENDPOINTS {
          return;
        }
        writeEps[numWriteEps] := devno;
        numWriteEps := numWriteEps + 1;
      }
    }

    method EpScanTty(devno: nat)
      requires Valid()
      modifies this`numTtys, ttys
      ensures Valid() && ttys[..numTtys] == Pushed(old(ttys[..numTtys]), Pick(Ttys, Tty(devno)))
    {
      if devno >= SWI_OS_MAXUSBTTYS || numTtys >= SWI_OS_MAXENDPOINTS {
        return;
      }
      ttys[numTtys] := devno;
      numTtys := numTtys + 1;
    }

    /** swi_osdirepscan for one entry. */
    method EpScan(e: Entry, ghost before: seq<Entry>)
      requires Valid() && Holds(before)
      modifies this`numReadEps, this`numWriteEps, this`numTtys, this`ifnum, readEps, writeEps, ttys
      ensures Valid() && Holds(before + [e])
    {
      PushedIsPicked(before, e);
      match e {
        case Endpoint(bulk, devno) =>
          if !bulk {
            return;
          }
          EpScanEndpoint(devno);
        case Tty(devno) => EpScanTty(devno);
        case InterfaceNumber(n) => ifnum := n;
        case OtherEntry =>
      }
    }

    /** The pairing loop of swi_osdirsubscan for one table. */
    method AssignTtys(table: array<EndpointTty>, eps: array<nat>, count: nat)
      requires Valid() && count <= eps.Length && table.Length == SWI_OS_MAXENDPOINTS
      requires forall k :: 0 <= k < count ==> eps[k] < SWI_OS_MAXENDPOINTS
      modifies table
      ensures table[..] == Paired(old(table[..]), eps[..count], ttys[..numTtys], ifnum)
    {
      var ttyidx, epidx := 0, 0;
      ghost var t := table[..];
      assert eps[..0] == [];
      while epidx < count
        invariant 0 <= epidx <= count && ttyidx == if epidx <= numTtys then epidx else numTtys
        invariant table[..] == Paired(t, eps[..epidx], ttys[..numTtys], ifnum)
      {
        assert eps[..epidx + 1][..epidx] == eps[..epidx];
        if ttyidx < numTtys {
          table[eps[epidx]] := EndpointTty(ttys[ttyidx], ifnum);
          ttyidx := ttyidx + 1;
        }
        epidx := epidx + 1;
      }
    }

    /** swi_osdirsubscan on the listing of a matching subdevice directory. */
    method SubScan(entries: seq<Entry>)
      requires Valid()
      modifies this`numReadEps, this`numWriteEps, this`numTtys, this`ifnum, readEps, writeEps, ttys, readTable, writeTable
      ensures Valid()
      ensures readTable[..] == TableAfter(old(readTable[..]), ReadEndpoints, entries)
      ensures writeTable[..] == TableAfter(old(writeTable[..]), WriteEndpoints, entries)
    {
      Parse(entries);
      SortLists(entries);
      AllSmall(readEps, numReadEps, ReadEndpoints, entries);
      AllSmall(writeEps, numWriteEps, WriteEndpoints, entries);
      AssignTtys(readTable, readEps, numReadEps);
      AssignTtys(writeTable, writeEps, numWriteEps);
    }

    method SortLists(ghost entries: seq<Entry>)
      requires Valid() && Holds(entries)
      modifies readEps, writeEps, ttys
      ensures readEps[..numReadEps] == Ascending(Capped(Picked(ReadEndpoints, entries)))
      ensures writeEps[..numWriteEps] == Ascending(Capped(Picked(WriteEndpoints, entries)))
      ensures ttys[..numTtys] == Ascending(Capped(Picked(Ttys, entries)))
    {
      SortUint(readEps, numReadEps);
      SortUint(writeEps, numWriteEps);
      SortUint(ttys, numTtys);
    }

    lemma AllSmall(a: array<nat>, count: nat, w: Wanted, entries: seq<Entry>)
      requires w == ReadEndpoints || w == WriteEndpoints
      requires count <= a.Length && a[..count] == Ascending(Capped(Picked(w, entries)))
      ensures forall k :: 0 <= k < count ==> a[k] < SWI_OS_MAXENDPOINTS
    {
      EndpointsAreSmall(w, entries);
      assert forall k :: 0 <= k < count ==> a[k] == a[..count][k];
    }

    /** The scan of the directory itself. */
    method Parse(entries: seq<Entry>)
      requires Valid()
      modifies this`numReadEps, this`numWriteEps, this`numTtys, this`ifnum, readEps, writeEps, ttys
      ensures Valid() && Holds(entries)
    {
      numReadEps, numWriteEps, numTtys, ifnum := 0, 0, 0, NONE;
      for k := 0 to |entries|
        invariant Valid() && Holds(entries[..k])
      {
        EpScan(entries[k], entries[..k]);
        assert entries[..k] + [entries[k]] == entries[..k + 1];
      }
      assert entries[..|entries|] == entries;
    }
  }

  lemma EndpointsAreSmall(w: Wanted, entries: seq<Entry>)
    requires w == ReadEndpoints || w == WriteEndpoints
    ensures forall k :: 0 <= k < |Ascending(Capped(Picked(w, entries)))| ==> Ascending(Capped(Picked(w, entries)))[k] < SWI_OS_MAXENDPOINTS
  {
    PickedAreSmall(w, entries);
    var s := Capped(Picked(w, entries));
    AscendingSorts(s);
    forall k | 0 <= k < |Ascending(s)|
      ensures Ascending(s)[k] < SWI_OS_MAXENDPOINTS
    {
      assert Ascending(s)[k] in multiset(s);
    }
  }

  lemma {:induction false} PickedAreSmall(w: Wanted, entries: seq<Entry>)
    requires w == ReadEndpoints || w == WriteEndpoints
    ensures forall k :: 0 <= k < |Picked(w, entries)| ==> Picked(w, entries)[k] < SWI_OS_MAXENDPOINTS
  {
    if entries != [] {
      PickedAreSmall(w, entries[..|entries| - 1]);
    }
  }
}
