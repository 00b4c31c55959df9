/** The shared USB structure of the SDK process: its debounced state, the endpoint tables and the
    cached file descriptors, each critical section proved against a function on values. */
module UsbState {
  import opened Wrappers

  const SWI_OS_MAXENDPOINTS: nat := 32
  const SWI_OS_MAXUSBTTYS: nat := 1024
  const NONE: nat := 0xFFFF_FFFF

  datatype ModemState = Bad | Check | Okay

  datatype EndpointTty = EndpointTty(ttynum: nat, ifnum: nat)

  /** What one pass over the device directory found; a zero id means no modem. */
  datatype ScanResult = ScanResult(vendorid: nat, productid: nat, read: seq<EndpointTty>, write: seq<EndpointTty>)

  predicate ValidScan(r: ScanResult) { |r.read| == |r.write| == SWI_OS_MAXENDPOINTS }

  predicate Good(r: ScanResult) { r.vendorid != 0 && r.productid != 0 }

  /** The structure on values: `device` is ids and tables, `fds` the read descriptors and then the
      write descriptors. */
  datatype View = View(state: ModemState, device: ScanResult, fds: seq<Option<nat>>)

  function Unused(): EndpointTty { EndpointTty(NONE, NONE) }

  function NoDevice(): ScanResult {
    ScanResult(0, 0, seq(SWI_OS_MAXENDPOINTS, _ => Unused()), seq(SWI_OS_MAXENDPOINTS, _ => Unused()))
  }

  function NoFds(): seq<Option<nat>> { seq(2 * SWI_OS_MAXENDPOINTS, _ => None) }

  /** Error recovery: everything is forgotten but the device description. */
  function Dropped(v: View): View { v.(state := Bad, fds := NoFds()) }

  /** A scan: a missing modem is an error; a present one has to look the same twice in a row. */
  function Scanned(v: View, r: ScanResult): View {
    if !Good(r) then Dropped(v)
    else v.(device := r,
            state := match v.state
              case Bad => Check
              case Check => if r == v.device then Okay else Check
              case Okay => Okay)
  }

  function Held(fd: Option<nat>): seq<nat> { if fd.Some? then [fd.value] else [] }

  /** The descriptors in two tables, in the order in which error recovery closes them. */
  function Cached(read: seq<Option<nat>>, write: seq<Option<nat>>): (fds: seq<nat>)
    requires |read| == |write|
  {
    if read == [] then []
    else Cached(read[..|read| - 1], write[..|write| - 1]) + Held(read[|read| - 1]) + Held(write[|write| - 1])
  }

  /** How often `x` occurs in `s`. */
  function Count<T(==)>(s: seq<T>, x: T): nat {
    if s == [] then 0 else Count(s[..|s| - 1], x) + if s[|s| - 1] == x then 1 else 0
  }

  lemma CountPush<T>(s: seq<T>, y: T, x: T)
    ensures Count(s + [y], x) == Count(s, x) + if y == x then 1 else 0
  {
    assert (s + [y])[..|s|] == s;
  }

  lemma {:induction false} CountConcat<T>(a: seq<T>, b: seq<T>, x: T)
    ensures Count(a + b, x) == Count(a, x) + Count(b, x)
  {
    if b == [] {
      assert a + b == a;
    } else {
      var init, y := b[..|b| - 1], b[|b| - 1];
      CountConcat(a, init, x);
      CountPush(a + init, y, x);
      assert a + b == a + init + [y];
    }
  }

  lemma HeldCounts(a: Option<nat>, fd: nat)
    ensures Count(Held(a), fd) == if a == Some(fd) then 1 else 0
  {
    if a.Some? {
      assert Held(a) == [] + [a.value];
      CountPush([], a.value, fd);
    }
  }

  lemma HeldAdds(s: seq<nat>, a: Option<nat>, b: Option<nat>, fd: nat)
    ensures Count(s + Held(a) + Held(b), fd) ==
            Count(s, fd) + (if a == Some(fd) then 1 else 0) + (if b == Some(fd) then 1 else 0)
  {
    CountConcat(s + Held(a), Held(b), fd);
    CountConcat(s, Held(a), fd);
    HeldCounts(a, fd);
    HeldCounts(b, fd);
  }

  lemma {:induction false} CachedCounts(read: seq<Option<nat>>, write: seq<Option<nat>>, fd: nat)
    requires |read| == |write|
    ensures Count(Cached(read, write), fd) == Count(read, Some(fd)) + Count(write, Some(fd))
  {
    if read != [] {
      var r, w, a, b := read[..|read| - 1], write[..|write| - 1], read[|read| - 1], write[|write| - 1];
      CachedCounts(r, w, fd);
      HeldAdds(Cached(r, w), a, b, fd);
    }
  }

  /** Error recovery closes each descriptor exactly as often as it is cached. */
  lemma {:induction false} ClosesWhatIsCached(read: seq<Option<nat>>, write: seq<Option<nat>>, fd: nat)
    requires |read| == |write|
    ensures Count(Cached(read, write), fd) == Count(read + write, Some(fd))
  {
    CountConcat(read, write, Some(fd));
    CachedCounts(read, write, fd);
  }

  lemma CachedStep(read: seq<Option<nat>>, write: seq<Option<nat>>, i: nat)
    requires i < |read| == |write|
    ensures Cached(read[..i + 1], write[..i + 1]) == Cached(read[..i], write[..i]) + Held(read[i]) + Held(write[i])
  {
    assert read[..i + 1][..i] == read[..i] && write[..i + 1][..i] == write[..i];
  }

  class OsUsb {
    var state: ModemState
    var vendorid: nat
    var productid: nat
    const readTty: array<EndpointTty>
    const writeTty: array<EndpointTty>
    const readFd: array<Option<nat>>
    const writeFd: array<Option<nat>>

    ghost predicate Valid()
      reads this
    {
      && readTty.Length == writeTty.Length == readFd.Length == writeFd.Length == SWI_OS_MAXENDPOINTS
      && readTty != writeTty && readFd != writeFd
    }

    ghost function Value(): View
      reads this, readTty, writeTty, readFd, writeFd
    {
      View(state, ScanResult(vendorid, productid, readTty[..], writeTty[..]), readFd[..] + writeFd[..])
    }

    constructor ()
      ensures Valid() && fresh(readTty) && fresh(writeTty) && fresh(readFd) && fresh(writeFd)
      ensures Value() == View(Bad, NoDevice(), NoFds())
    {
      state, vendorid, productid := Bad, 0, 0;
      readTty := new EndpointTty[SWI_OS_MAXENDPOINTS](_ => Unused());
      writeTty := new EndpointTty[SWI_OS_MAXENDPOINTS](_ => Unused());
      readFd := new Option<nat>[SWI_OS_MAXENDPOINTS](_ => None);
      writeFd := new Option<nat>[SWI_OS_MAXENDPOINTS](_ => None);
      new;
      assert readTty[..] == NoDevice().read && writeTty[..] == NoDevice().write;
      assert readFd[..] + writeFd[..] == NoFds();
    }

    static method DropFd(fds: array<Option<nat>>, i: nat) returns (ghost closed: seq<nat>)
      requires i < fds.Length
      modifies fds
      ensures closed == Held(old(fds[i])) && fds[i] == None
      ensures forall k :: 0 <= k < fds.Length && k != i ==> fds[k] == old(fds[k])
    {
      var fd := fds[i];
      closed := [];
      if fd.Some? {
        fds[i] := None;
        closed := [fd.value];
      }
    }

    /** swi_sdkusbioerrorlocked: `closed` is the sequence of close() calls. */
    method IoErrorLocked() returns (ghost closed: seq<nat>)
      requires Valid()
      modifies this`state, readFd, writeFd
      ensures Value() == Dropped(old(Value()))
      ensures closed == Cached(old(readFd[..]), old(writeFd[..]))
    {
      state := Bad;
      closed := [];
      ghost var r, w := readFd[..], writeFd[..];
      var i := 0;
      while i < SWI_OS_MAXENDPOINTS
        invariant 0 <= i <= SWI_OS_MAXENDPOINTS && state == Bad
        invariant forall k :: 0 <= k < i ==> readFd[k] == None && writeFd[k] == None
        invariant forall k :: i <= k < SWI_OS_MAXENDPOINTS ==> readFd[k] == r[k] && writeFd[k] == w[k]
        invariant closed == Cached(r[..i], w[..i])
      {
        CachedStep(r, w, i);
        ghost var c := DropFd(readFd, i);
        closed := closed + c;
        c := DropFd(writeFd, i);
        closed := closed + c;
        i := i + 1;
      }
      assert r[..i] == r && w[..i] == w;
      assert readFd[..] + writeFd[..] == NoFds();
    }

    /** swi_endpointupdate on entry `i` of a table. */
    static method EndpointUpdate(table: array<EndpointTty>, i: nat, found: EndpointTty) returns (updated: bool)
      requires i < table.Length
      modifies table
      ensures table[i] == found && (forall k :: 0 <= k < table.Length && k != i ==> table[k] == old(table[k]))
      ensures updated <==> old(table[i]) != found
    {
      updated := table[i] != found;
      if updated {
        table[i] := found;
      }
    }

    /** The tables take over the findings; `updated` tells whether any entry changed. */
    method UpdateTables(r: ScanResult) returns (updated: bool)
      requires Valid() && ValidScan(r)
      modifies readTty, writeTty
      ensures readTty[..] == r.read && writeTty[..] == r.write
      ensures updated <==> old(readTty[..]) != r.read || old(writeTty[..]) != r.write
    {
      updated := false;
      var i := 0;
      ghost var was_read, was_write := readTty[..], writeTty[..];
      while i < SWI_OS_MAXENDPOINTS
        invariant 0 <= i <= SWI_OS_MAXENDPOINTS
        invariant forall k :: 0 <= k < SWI_OS_MAXENDPOINTS ==>
                    readTty[k] == (if k < i then r.read[k] else was_read[k]) && writeTty[k] == (if k < i then r.write[k] else was_write[k])
        invariant updated <==> exists k :: 0 <= k < i && (was_read[k] != r.read[k] || was_write[k] != r.write[k])
      {
        var changed := EndpointUpdate(readTty, i, r.read[i]);
        updated := updated || changed;
        changed := EndpointUpdate(writeTty, i, r.write[i]);
        updated := updated || changed;
        i := i + 1;
      }
    }

    /** swi_ossdkusbscan, once the directory has been read. */
    method Scan(r: ScanResult) returns (ghost closed: seq<nat>)
      requires Valid() && ValidScan(r)
      modifies this, readTty, writeTty, readFd, writeFd
      ensures Value() == Scanned(old(Value()), r)
      ensures closed == if Good(r) then [] else Cached(old(readFd[..]), old(writeFd[..]))
    {
      closed := [];
      if r.vendorid == 0 || r.productid == 0 {
        closed := IoErrorLocked();
        return;
      }
      var updated := false;
      if vendorid != r.vendorid {
        updated, vendorid := true, r.vendorid;
      }
      if productid != r.productid {
        updated, productid := true, r.productid;
      }
      var changed := UpdateTables(r);
      updated := updated || changed;
      if state == Bad {
        state := Check;
      } else if state == Check && !updated {
        state := Okay;
      }
    }

    /** The locked part of opening: keep the new descriptor if the modem is still there. */
    method Store(read: bool, endpoint: nat, fd: nat) returns (kept: bool)
      requires Valid() && endpoint < SWI_OS_MAXENDPOINTS
      modifies readFd, writeFd
      ensures kept <==> old(Value()).state == Okay
      ensures readFd[..] == if kept && read then old(readFd[..])[endpoint := Some(fd)] else old(readFd[..])
      ensures writeFd[..] == if kept && !read then old(writeFd[..])[endpoint := Some(fd)] else old(writeFd[..])
      ensures Value() == if kept then old(Value()).(fds := old(Value()).fds[Slot(read, endpoint) := Some(fd)]) else old(Value())
    {
      kept := state == Okay;
      if kept {
        if read {
          readFd[endpoint] := Some(fd);
        } else {
          writeFd[endpoint] := Some(fd);
        }
      }
      assert readFd[..] == if kept && read then old(readFd[..])[endpoint := Some(fd)] else old(readFd[..]);
      assert writeFd[..] == if kept && !read then old(writeFd[..])[endpoint := Some(fd)] else old(writeFd[..]);
      assert kept ==> readFd[..] + writeFd[..] == (old(readFd[..]) + old(writeFd[..]))[Slot(read, endpoint) := Some(fd)];
    }
  }

  /** swi_ossdkusbinit: an empty structure, and then a first scan, which can at most lead to Check. */
  method UsbInit(r: ScanResult) returns (up: OsUsb, ghost closed: seq<nat>)
    requires ValidScan(r)
    ensures fresh(up) && up.Valid() && closed == []
    ensures up.Value() == if Good(r) then View(Check, r, NoFds()) else View(Bad, NoDevice(), NoFds())
  {
    up := new OsUsb();
    assert up.readFd[..] == NoFds()[..SWI_OS_MAXENDPOINTS] && up.writeFd[..] == NoFds()[SWI_OS_MAXENDPOINTS..];
    NothingCached(up.readFd[..], up.writeFd[..]);
    closed := up.Scan(r);
  }

  lemma {:induction false} NothingCached(read: seq<Option<nat>>, write: seq<Option<nat>>)
    requires |read| == |write| && forall k :: 0 <= k < |read| ==> read[k] == write[k] == None
    ensures Cached(read, write) == []
  {
    if read != [] {
      NothingCached(read[..|read| - 1], write[..|write| - 1]);
    }
  }

  function Slot(read: bool, endpoint: nat): nat { if read then endpoint else SWI_OS_MAXENDPOINTS + endpoint }
}
