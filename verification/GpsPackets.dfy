/** The packets exchanged between the GPS library and the RIL: their byte order, their headers, the receive
    loop on the stream socket, and the requests that set the session defaults or inject the time. */
module GpsPackets {
  import opened Arithmetic
  import opened Wrappers

  type byte = x: int | 0 <= x < 256

  const HEADER := 6
  const MAXGPS := 512
  const MAX_READ_ITERATIONS := 10
  const MAXVAL := 16
  const MAXURL := 128
  const REQ_GETDEF := 2
  const RESP_GETDEF := 3
  const REQ_SETDEF := 4
  const REQ_INJTIME := 10

  // ----- network byte order -----

  function Power(n: nat): (p: int)
    ensures p > 0
  {
    if n == 0 then 1 else 256 * Power(n - 1)
  }

  /** The low `n` bytes of an integer, most significant first; a negative one is taken in two's complement. */
  function Be(x: int, n: nat): (b: seq<byte>)
    ensures |b| == n
    decreases n
  {
    if n == 0 then [] else Be(x / 256, n - 1) + [x % 256]
  }

  function FromBe(b: seq<byte>): (x: nat) {
    if b == [] then 0 else FromBe(b[..|b| - 1]) * 256 + b[|b| - 1]
  }

  lemma {:induction false} ZeroIsZero(b: seq<byte>)
    requires forall k :: 0 <= k < |b| ==> b[k] == 0
    ensures FromBe(b) == 0
  {
    if b != [] {
      ZeroIsZero(b[..|b| - 1]);
    }
  }

  lemma DivideTwice(x: int, p: int)
    requires p > 0
    ensures x % (256 * p) == (x / 256) % p * 256 + x % 256
  {
    var q, r := x / 256, x % 256;
    assert x == q * 256 + r;
    var a, b := q / p, q % p;
    assert q == a * p + b;
    assert x == (256 * p) * a + (b * 256 + r) by {
      assert (a * p + b) * 256 == (256 * p) * a + b * 256;
    }
    assert 0 <= b * 256 + r < 256 * p;
    DivisionIs(x, 256 * p, a, b * 256 + r);
  }

  /** What is put is what is got, modulo the width of the field. */
  lemma {:induction false} PutThenGet(x: int, n: nat)
    ensures FromBe(Be(x, n)) == x % Power(n)
    decreases n
  {
    if n > 0 {
      var b := Be(x, n);
      assert b[..n - 1] == Be(x / 256, n - 1);
      PutThenGet(x / 256, n - 1);
      DivideTwice(x, Power(n - 1));
    }
  }

  lemma {:induction false} GetIsBounded(b: seq<byte>)
    ensures FromBe(b) < Power(|b|)
  {
    if b != [] {
      GetIsBounded(b[..|b| - 1]);
    }
  }

  /** And what is got, put back, is the same bytes. */
  lemma {:induction false} GetThenPut(b: seq<byte>)
    ensures Be(FromBe(b), |b|) == b
  {
    if b != [] {
      GetThenPut(b[..|b| - 1]);
      DivisionIs(FromBe(b), 256, FromBe(b[..|b| - 1]), b[|b| - 1]);
      assert b == b[..|b| - 1] + [b[|b| - 1]];
    }
  }

  function LowByte(x: int): byte { x % 256 }

  /** Storing consecutive bytes at `p`. */
  ghost predicate Wrote(before: seq<byte>, after: seq<byte>, p: nat, b: seq<byte>) {
    p + |b| <= |before| && after == before[..p] + b + before[p + |b|..]
  }

  lemma DivideInSteps(x: int, p: int)
    requires p > 0
    ensures x / (256 * p) == x / 256 / p
  {
    var q, r := x / 256, x % 256;
    var a, b := q / p, q % p;
    assert x == (256 * p) * a + (b * 256 + r) by {
      assert (a * p + b) * 256 == (256 * p) * a + b * 256;
    }
    DivisionIs(x, 256 * p, a, b * 256 + r);
  }

  lemma LastByte(x: int, n: nat)
    requires n > 0
    ensures Be(x, n) == Be(x / 256, n - 1) + [LowByte(x)]
  {
  }

  lemma WroteBoth(before: seq<byte>, mid: seq<byte>, after: seq<byte>, p: nat, a: seq<byte>, b: seq<byte>)
    requires Wrote(before, mid, p, a) && Wrote(mid, after, p + |a|, b)
    ensures Wrote(before, after, p, a + b)
  {
    var q := p + |a|;
    assert mid[..q] == before[..p] + a;
    assert mid[q + |b|..] == before[q + |b|..] by {
      assert mid[q..] == before[q..];
    }
  }

  lemma Shift16(x: int)
    ensures Be(x, 2) == [LowByte(x / 0x100), LowByte(x)]
  {
    LastByte(x, 2);
    LastByte(x / 256, 1);
    assert Be(x / 256 / 256, 0) == [];
  }

  lemma Shift32(x: int)
    ensures Be(x, 4) == [LowByte(x / 0x100_0000), LowByte(x / 0x1_0000), LowByte(x / 0x100), LowByte(x)]
  {
    LastByte(x, 4);
    LastByte(x / 256, 3);
    Shift16(x / 256 / 256);
    DivideInSteps(x, 256);
    DivideInSteps(x, 0x1_0000);
    DivideInSteps(x / 256, 256);
  }

  method Put16(field: int, buf: array<byte>, p: nat) returns (next: nat)
    requires p + 2 <= buf.Length
    modifies buf
    ensures next == p + 2 && Wrote(old(buf[..]), buf[..], p, Be(field, 2))
  {
    buf[p], buf[p + 1] := LowByte(field / 0x100), LowByte(field);
    Shift16(field);
    return p + 2;
  }

  method Put32(field: int, buf: array<byte>, p: nat) returns (next: nat)
    requires p + 4 <= buf.Length
    modifies buf
    ensures next == p + 4 && Wrote(old(buf[..]), buf[..], p, Be(field, 4))
  {
    buf[p], buf[p + 1] := LowByte(field / 0x100_0000), LowByte(field / 0x1_0000);
    buf[p + 2], buf[p + 3] := LowByte(field / 0x100), LowByte(field);
    Shift32(field);
    return p + 4;
  }

  lemma Shift64(x: int)
    ensures Be(x, 8) == Be(x / 0x1_0000_0000, 4) + Be(x, 4)
  {
    SplitAt(x, 4, 4);
    assert Shift(x, 4) == Shift(x / 256, 3) == Shift(x / 256 / 256, 2) == Shift(x / 256 / 256 / 256, 1);
    DivideInSteps(x, 0x100_0000);
    DivideInSteps(x / 256, 0x1_0000);
    DivideInSteps(x / 256 / 256, 256);
  }

  /** Shifting right by `n` bytes. */
  function Shift(x: int, n: nat): int
    decreases n
  {
    if n == 0 then x else Shift(x / 256, n - 1)
  }

  lemma {:induction false} SplitAt(x: int, m: nat, n: nat)
    ensures Be(x, m + n) == Be(Shift(x, n), m) + Be(x, n)
    decreases n
  {
    if n > 0 {
      LastByte(x, m + n);
      LastByte(x, n);
      SplitAt(x / 256, m, n - 1);
    } else {
      assert Be(x, 0) == [];
    }
  }

  method Put64(field: int, buf: array<byte>, p: nat) returns (next: nat)
    requires p + 8 <= buf.Length
    modifies buf
    ensures next == p + 8 && Wrote(old(buf[..]), buf[..], p, Be(field, 8))
  {
    var high := field / 0x1_0000_0000;
    buf[p], buf[p + 1] := LowByte(high / 0x100_0000), LowByte(high / 0x1_0000);
    buf[p + 2], buf[p + 3] := LowByte(high / 0x100), LowByte(high);
    buf[p + 4], buf[p + 5] := LowByte(field / 0x100_0000), LowByte(field / 0x1_0000);
    buf[p + 6], buf[p + 7] := LowByte(field / 0x100), LowByte(field);
    Shift32(high);
    Shift32(field);
    Shift64(field);
    return p + 8;
  }

  lemma {:induction false} OneMoreByte(b: seq<byte>, p: nat, n: nat)
    requires p + n < |b|
    ensures FromBe(b[p..p + n + 1]) == FromBe(b[p..p + n]) * 256 + b[p + n]
  {
    assert b[p..p + n + 1][..n] == b[p..p + n];
  }

  /** The get functions: shift in `n` bytes, keeping the low bits of the field. */
  method Get(buf: seq<byte>, p: nat, n: nat) returns (field: nat, next: nat)
    requires p + n <= |buf|
    ensures field == FromBe(buf[p..p + n]) && field < Power(n) && next == p + n
  {
    field := 0;
    for k := 0 to n
      invariant field == FromBe(buf[p..p + k])
    {
      OneMoreByte(buf, p, k);
      GetIsBounded(buf[p..p + k + 1]);
      field := field * 256 + buf[p + k];
    }
    GetIsBounded(buf[p..p + n]);
    return field, p + n;
  }

  // ----- headers -----

  /** The permitted body lengths of each message type. */
  function Lengths(kind: nat): (r: (nat, nat))
    requires kind < MAXVAL
  {
    [(2, 2), (9, 22), (0, 0), (10, 10), (11, 11), (0, 0), (0, 0), (9, 9 + MAXURL),
     (9, 9 + MAXURL), (0, 0), (12, 12), (0, 0), (0, 0), (0, 0), (10, 10), (0, 0)][kind]
  }

  predicate LengthIsRight(kind: nat, length: int)
    requires kind < MAXVAL
  {
    Lengths(kind).0 <= length <= Lengths(kind).1
  }

  function Header(kind: int, result: int, length: int): (b: seq<byte>)
    ensures |b| == HEADER
  {
    Be(kind, 2) + Be(result, 2) + Be(length, 2)
  }

  /** What has been written so far, with one more field behind it. */
  lemma WroteNext(before: seq<byte>, after: seq<byte>, p: nat, b: seq<byte>, front: seq<byte>)
    requires p + |b| <= |before| && Wrote(before, after, p, b) && before[..p] == front
    ensures |after| == |before| && after[..p + |b|] == front + b && after[p + |b|..] == before[p + |b|..]
  {
    assert after[..p + |b|] == before[..p] + b;
  }

  lemma HeaderInFront(b0: seq<byte>, b1: seq<byte>, b2: seq<byte>, b3: seq<byte>, header: seq<byte>)
    requires |b0| == |b1| == |b2| == |b3| >= HEADER
    requires b1[2..] == b0[2..] && b2[4..] == b1[4..] && b3[HEADER..] == b2[HEADER..] && b3[..HEADER] == header
    ensures b3 == header + b0[HEADER..]
  {
    assert b0[2..][4..] == b0[HEADER..] && b1[2..][4..] == b1[HEADER..];
    assert b1[4..][2..] == b1[HEADER..] && b2[4..][2..] == b2[HEADER..];
    assert b3 == b3[..HEADER] + b3[HEADER..];
  }

  method MakHdr(kind: nat, length: int, result: int, buf: array<byte>, bufLength: int) returns (ok: bool, written: nat)
    requires bufLength <= buf.Length
    modifies buf
    ensures ok <==> bufLength >= HEADER && kind < MAXVAL && LengthIsRight(kind, length)
    ensures ok ==> written == HEADER && buf[..] == Header(kind, result, length) + old(buf[HEADER..])
    ensures !ok ==> written == 0 && buf[..] == old(buf[..])
  {
    if bufLength < HEADER || kind >= MAXVAL || !LengthIsRight(kind, length) {
      return false, 0;
    }
    ghost var b0 := buf[..];
    var p := Put16(kind, buf, 0);
    ghost var b1 := buf[..];
    WroteNext(b0, b1, 0, Be(kind, 2), []);
    p := Put16(result, buf, p);
    ghost var b2 := buf[..];
    WroteNext(b1, b2, 2, Be(result, 2), Be(kind, 2));
    p := Put16(length, buf, p);
    WroteNext(b2, buf[..], 4, Be(length, 2), Be(kind, 2) + Be(result, 2));
    HeaderInFront(b0, b1, b2, buf[..], Header(kind, result, length));
    return true, p;
  }

  method ReadHeader(buf: seq<byte>) returns (kind: nat, result: nat, length: nat)
    requires |buf| >= HEADER
    ensures kind == FromBe(buf[..2]) && result == FromBe(buf[2..4]) && length == FromBe(buf[4..6])
  {
    var p;
    kind, p := Get(buf, 0, 2);
    result, p := Get(buf, p, 2);
    length, p := Get(buf, p, 2);
  }

  /** What is read of a packet in the buffer is read of the stream it came from. */
  lemma SameHeader(buf: seq<byte>, unread: seq<byte>, size: nat)
    requires HEADER <= size <= |buf| && size <= |unread| && buf[..size] == unread[..size]
    ensures buf[..2] == unread[..2] && buf[2..4] == unread[2..4] && buf[4..6] == unread[4..6]
    ensures buf[HEADER..size] == unread[HEADER..size]
  {
    assert buf[..2] == buf[..size][..2] && buf[2..4] == buf[..size][2..4] && buf[4..6] == buf[..size][4..6];
    assert unread[..2] == unread[..size][..2] && unread[2..4] == unread[..size][2..4] && unread[4..6] == unread[..size][4..6];
    assert buf[HEADER..size] == buf[..size][HEADER..] && unread[HEADER..size] == unread[..size][HEADER..];
  }

  // ----- receiving -----

  /** What the next recv call on the socket meets: data, a timeout or an error. A socket with no more of
      these has been closed by its peer. */
  datatype Event = Chunk(n: nat) | Again | Fail

  class Socket {
    var unread: seq<byte>
    var script: seq<Event>
    /** errno is EAGAIN, after a call that returned -1. */
    var timedOut: bool

    /** recv of up to `want` bytes into the buffer at `p`. */
    method Recv(buf: array<byte>, p: nat, want: nat) returns (n: int)
      requires p + want <= buf.Length
      modifies this, buf
      ensures n == if old(script) == [] then 0 else if old(script)[0].Chunk? then Received(old(script)[0].n, want, |old(unread)|) else -1
      ensures script == if old(script) == [] then [] else old(script)[1..]
      ensures n == -1 ==> (timedOut <==> old(script)[0].Again?)
      ensures n <= 0 ==> unread == old(unread) && buf[..] == old(buf[..])
      ensures n > 0 ==> unread == old(unread)[n..] && Wrote(old(buf[..]), buf[..], p, old(unread)[..n])
    {
      if script == [] {
        return 0;
      }
      var e := script[0];
      script := script[1..];
      if !e.Chunk? {
        timedOut := e.Again?;
        return -1;
      }
      n := Received(e.n, want, |unread|);
      for k := 0 to n
        invariant unread == old(unread) && script == old(script)[1..]
        invariant buf[..] == old(buf[..p]) + unread[..k] + old(buf[p + k..])
      {
        buf[p + k] := unread[k];
      }
      unread := unread[n..];
    }
  }

  function Received(n: nat, want: nat, available: nat): (r: nat)
    ensures r <= want && r <= available
  {
    if n <= want && n <= available then n else if want <= available then want else available
  }

  /** How many reads it takes to gather `need` bytes, if these events do bring that many. */
  function Reads(script: seq<Event>, need: nat): (r: Option<nat>)
    ensures r.Some? ==> r.value <= |script|
  {
    if need == 0 then Some(0)
    else if script == [] || !script[0].Chunk? then None
    else
      Plus(1, Reads(script[1..], if script[0].n >= need then 0 else need - script[0].n))
  }

  function Plus(n: nat, m: Option<nat>): (r: Option<nat>)
    ensures r.Some? <==> m.Some?
    ensures r.Some? ==> r.value == n + m.value
  {
    if m == None then None else Some(n + m.value)
  }

  lemma ReadsOnce(script: seq<Event>, need: nat, available: nat)
    requires 0 < need <= available
    ensures script == [] || !script[0].Chunk? ==> Reads(script, need) == None
    ensures script != [] && script[0].Chunk? ==>
              Reads(script, need) == Plus(1, Reads(script[1..], need - Received(script[0].n, need, available)))
  {
  }

  /** The buffer after more of the stream has been put behind what is there. */
  lemma MoreOfStream(before: seq<byte>, after: seq<byte>, front: seq<byte>, stream: seq<byte>, total: nat, n: nat)
    requires |front| == HEADER && total + n <= |stream| && HEADER + total + n <= |before|
    requires before[..HEADER + total] == front + stream[..total]
    requires Wrote(before, after, HEADER + total, stream[total..][..n])
    ensures after[..HEADER + total + n] == front + stream[..total + n]
    ensures stream[total..][n..] == stream[total + n..]
  {
    assert after[..HEADER + total + n] == before[..HEADER + total] + stream[total..][..n];
    assert stream[..total] + stream[total..][..n] == stream[..total + n];
  }

  predicate AllChunks(script: seq<Event>) { forall k :: 0 <= k < |script| ==> script[k].Chunk? }

  function Sum(script: seq<Event>): (n: nat)
    requires AllChunks(script)
  {
    if script == [] then 0 else script[0].n + Sum(script[1..])
  }

  /** The first `m` events, and no fewer, bring that many bytes without a timeout or an error. */
  predicate BroughtBy(script: seq<Event>, need: nat, m: nat) {
    && m <= |script| && AllChunks(script[..m]) && Sum(script[..m]) >= need
    && (m > 0 ==> Sum(script[..m - 1]) < need)
  }

  lemma {:induction false} ReadsIsBroughtBy(script: seq<Event>, need: nat, m: nat)
    ensures Reads(script, need) == Some(m) <==> BroughtBy(script, need, m)
    decreases script
  {
    if m > 0 && m <= |script| {
      var e := script[0];
      assert script[..m][1..] == script[1..][..m - 1];
      assert AllChunks(script[..m]) <==> e.Chunk? && AllChunks(script[1..][..m - 1]) by {
        assert script[..m] == [e] + script[1..][..m - 1];
      }
      if e.Chunk? && need > 0 {
        ReadsIsBroughtBy(script[1..], if e.n >= need then 0 else need - e.n, m - 1);
        if m > 1 {
          assert script[..m - 1][1..] == script[1..][..m - 2];
        }
      }
    }
  }

  datatype Arrival = Packet(size: nat, rest: seq<Event>) | Later | Closed | Broken

  /** What the next packet on the stream is. It depends on how the stream is cut only through the header
      having to come at once and the body within MAX_READ_ITERATIONS + 1 reads. */
  function NextPacket(unread: seq<byte>, script: seq<Event>): (a: Arrival)
    ensures a.Packet? ==> HEADER <= a.size <= MAXGPS && a.size <= |unread| && |a.rest| < |script|
  {
    if script == [] then Closed
    else
      match script[0]
      case Again => Later
      case Fail => Broken
      case Chunk(n) =>
        if n == 0 || unread == [] then Closed
        else if n < HEADER || |unread| < HEADER then Broken
        else
          var length := FromBe(unread[4..6]);
          var m := Reads(script[1..], length);
          if length > MAXGPS - HEADER || HEADER + length > |unread| || m == None || m.value > MAX_READ_ITERATIONS + 1 then Broken
          else Packet(HEADER + length, script[1 + m.value..])
  }

  function OneByOne(n: nat): (script: seq<Event>) { seq(n, _ => Chunk(1)) }

  lemma {:induction false} OneByteReads(n: nat)
    ensures Reads(OneByOne(n), n) == Some(n)
  {
    if n > 0 {
      assert OneByOne(n)[1..] == OneByOne(n - 1);
      OneByteReads(n - 1);
    }
  }

  /** A body of twelve bytes that comes byte by byte is refused, although the twelfth read completes it; one of
      eleven bytes is not. */
  lemma LastReadIsTooLate(unread: seq<byte>, length: nat)
    requires |unread| >= 6 + length && FromBe(unread[4..6]) == length && (length == 11 || length == 12)
    ensures var script := [Chunk(6)] + OneByOne(length);
            && Reads(script[1..], length) == Some(length)
            && NextPacket(unread, script) == if length == 12 then Broken else Packet(17, script[12..])
  {
    var script := [Chunk(6)] + OneByOne(length);
    assert script[1..] == OneByOne(length);
    OneByteReads(length);
  }

  /** What has been received of a body of `length` bytes after `count` reads: `total` bytes behind the header. */
  ghost predicate Receiving(stream: seq<byte>, script: seq<Event>, front: seq<byte>, length: nat, count: nat, total: nat,
                            unread: seq<byte>, left: seq<Event>, data: seq<byte>)
  {
    && total <= length && total <= |stream| && |front| == HEADER && HEADER + length <= |data|
    && unread == stream[total..] && data[..HEADER + total] == front + stream[..total]
    && left == (if count <= |script| then script[count..] else [])
    && (length <= |stream| ==> Reads(script, length) == Plus(count, Reads(left, length - total)))
  }

  /** What is left of the script after `count` reads, the ones at its end included. */
  lemma ReadsAreCounted(script: seq<Event>, left: seq<Event>, count: nat)
    requires left == (if count <= |script| then script[count..] else [])
    ensures |left| <= |script| <= |left| + count
  {
  }

  /** A body of `length` bytes is received exactly if the stream has it and it comes within the permitted
      reads; then it is behind the header in the buffer, and just its bytes and its reads are gone. */
  ghost predicate BodyRead(stream: seq<byte>, script: seq<Event>, front: seq<byte>, length: nat, ok: bool,
                           unread: seq<byte>, left: seq<Event>, data: seq<byte>)
  {
    var m := Reads(script, length);
    && (ok <==> length <= |stream| && m.Some? && m.value <= MAX_READ_ITERATIONS + 1)
    && (ok ==> left == script[m.value..] && unread == stream[length..])
    && (ok ==> HEADER + length <= |data| && data[..HEADER + length] == front + stream[..length])
    && |left| <= |script| <= |left| + MAX_READ_ITERATIONS + 2
  }

  lemma ReceivingStarts(stream: seq<byte>, script: seq<Event>, front: seq<byte>, length: nat, data: seq<byte>)
    requires |front| == HEADER && HEADER + length <= |data| && data[..HEADER] == front
    ensures Receiving(stream, script, front, length, 0, 0, stream, script, data)
  {
    assert data[..HEADER + 0] == front + stream[..0];
    assert stream[0..] == stream && script[0..] == script;
  }

  lemma ReceivedAll(stream: seq<byte>, script: seq<Event>, front: seq<byte>, length: nat, count: nat,
                    unread: seq<byte>, left: seq<Event>, data: seq<byte>)
    requires Receiving(stream, script, front, length, count, length, unread, left, data) && count <= MAX_READ_ITERATIONS + 1
    ensures BodyRead(stream, script, front, length, true, unread, left, data)
  {
    assert Reads(script, length) == Some(count);
    ReadsAreCounted(script, left, count);
  }

  lemma ReceivedTooLittle(stream: seq<byte>, script: seq<Event>, front: seq<byte>, length: nat, count: nat, total: nat,
                          unread: seq<byte>, left: seq<Event>, data: seq<byte>)
    requires Receiving(stream, script, front, length, count, total, unread, left, data) && count == MAX_READ_ITERATIONS + 2
    ensures BodyRead(stream, script, front, length, false, unread, left, data)
  {
    ReadsAreCounted(script, left, count);
  }

  lemma ReceivedNoMore(stream: seq<byte>, script: seq<Event>, front: seq<byte>, length: nat, count: nat,
                       unread: seq<byte>, left: seq<Event>, data: seq<byte>)
    requires left == (if count <= |script| then script[count..] else []) && count <= MAX_READ_ITERATIONS + 2
    requires length <= |stream| ==> Reads(script, length) == None
    ensures BodyRead(stream, script, front, length, false, unread, left, data)
  {
    ReadsAreCounted(script, left, count);
  }

  /** One turn of the body loop. */
  method ReceiveMore(s: Socket, buf: array<byte>, length: nat, total: nat,
                     ghost stream: seq<byte>, ghost script: seq<Event>, ghost front: seq<byte>, ghost count: nat) returns (n: int)
    requires total < length && Receiving(stream, script, front, length, count, total, s.unread, s.script, buf[..])
    modifies s, buf
    ensures n >= -1 && s.script == if count + 1 <= |script| then script[count + 1..] else []
    ensures n == -1 && length <= |stream| ==> Reads(script, length) == None
    ensures n >= 0 ==> Receiving(stream, script, front, length, count + 1, total + n, s.unread, s.script, buf[..])
  {
    if length <= |stream| {
      ReadsOnce(s.script, length - total, |s.unread|);
    }
    ghost var before := buf[..];
    n := s.Recv(buf, HEADER + total, length - total);
    if n > 0 {
      MoreOfStream(before, buf[..], front, stream, total, n);
    }
  }

  /** The body loop. The check on the number of reads comes after a read, so a last read one too many fails
      even if it completes the body. */
  method ReceiveBody(s: Socket, buf: array<byte>, length: nat) returns (ok: bool)
    requires HEADER + length <= buf.Length
    modifies s, buf
    ensures BodyRead(old(s.unread), old(s.script), old(buf[..HEADER]), length, ok, s.unread, s.script, buf[..])
  {
    ghost var stream, script, front := s.unread, s.script, buf[..HEADER];
    var count, total := 0, 0;
    ReceivingStarts(stream, script, front, length, buf[..]);
    while total < length
      invariant count <= MAX_READ_ITERATIONS + 1
      invariant Receiving(stream, script, front, length, count, total, s.unread, s.script, buf[..])
      decreases MAX_READ_ITERATIONS + 1 - count
    {
      var n := ReceiveMore(s, buf, length, total, stream, script, front, count);
      if n == -1 {
        ReceivedNoMore(stream, script, front, length, count + 1, s.unread, s.script, buf[..]);
        return false;
      }
      total := total + n;
      count := count + 1;
      if count > MAX_READ_ITERATIONS + 1 {
        ReceivedTooLittle(stream, script, front, length, count, total, s.unread, s.script, buf[..]);
        return false;
      }
    }
    ReceivedAll(stream, script, front, length, count, s.unread, s.script, buf[..]);
    return true;
  }

  lemma SlicesMeet(s: seq<byte>, a: nat, b: nat)
    requires a + b <= |s|
    ensures s[..a] + s[a..][..b] == s[..a + b] && s[a..][b..] == s[a + b..]
  {
  }

  /** The first read of a packet, which has to bring the whole header. */
  method ReceiveHeader(s: Socket, buf: array<byte>) returns (n: int)
    requires buf.Length == MAXGPS
    modifies s, buf
    ensures n == -1 ==> NextPacket(old(s.unread), old(s.script)) == if s.timedOut then Later else Broken
    ensures n == 0 ==> NextPacket(old(s.unread), old(s.script)) == Closed
    ensures n != -1 && n != 0 && n != HEADER ==> NextPacket(old(s.unread), old(s.script)) == Broken
    ensures n <= 0 ==> s.unread == old(s.unread) && buf[..] == old(buf[..])
    ensures n == HEADER ==> HeaderIn(old(s.unread), old(s.script)) && s.unread == old(s.unread)[HEADER..]
                            && buf[..HEADER] == old(s.unread)[..HEADER]
    ensures s.script == if old(s.script) == [] then [] else old(s.script)[1..]
  {
    n := s.Recv(buf, 0, HEADER);
  }

  predicate HeaderIn(unread: seq<byte>, script: seq<Event>) {
    script != [] && script[0].Chunk? && script[0].n >= HEADER && |unread| >= HEADER
  }

  lemma BehindHeader(unread: seq<byte>, script: seq<Event>, length: nat)
    requires HeaderIn(unread, script) && length == FromBe(unread[4..6])
    ensures NextPacket(unread, script) ==
            var m := Reads(script[1..], length);
            if length > MAXGPS - HEADER || HEADER + length > |unread| || m == None || m.value > MAX_READ_ITERATIONS + 1 then Broken
            else Packet(HEADER + length, script[1 + m.value..])
  {
  }

  /** What a body read behind the header makes of the packet. */
  lemma PacketRead(stream: seq<byte>, script: seq<Event>, length: nat, ok: bool, unread: seq<byte>, left: seq<Event>, data: seq<byte>)
    requires HeaderIn(stream, script) && length == FromBe(stream[4..6]) && length <= MAXGPS - HEADER
    requires BodyRead(stream[HEADER..], script[1..], stream[..HEADER], length, ok, unread, left, data)
    ensures !ok ==> NextPacket(stream, script) == Broken
    ensures ok ==> NextPacket(stream, script) == Packet(HEADER + length, left) && HEADER + length <= |stream|
    ensures ok ==> HEADER + length <= |data| && data[..HEADER + length] == stream[..HEADER + length] && unread == stream[HEADER + length..]
    ensures |left| <= |script| <= |left| + MAX_READ_ITERATIONS + 3
  {
    BehindHeader(stream, script, length);
    if ok {
      SlicesMeet(stream, HEADER, length);
    }
  }

  /** receivepacket; `numBytes` is in and out. At most MAX_READ_ITERATIONS + 3 recv calls are made. */
  method ReceivePacket(s: Socket, buf: array<byte>, numBytes: int) returns (ret: int, stored: int)
    requires buf.Length == MAXGPS
    modifies s, buf
    ensures match NextPacket(old(s.unread), old(s.script))
            case Packet(size, rest) =>
              && ret == 0 && stored == size && buf[..size] == old(s.unread)[..size]
              && s.unread == old(s.unread)[size..] && s.script == rest
            case Later =>
              && ret == 0 && stored == -1 && buf[..] == old(buf[..])
              && s.unread == old(s.unread) && s.script == old(s.script)[1..]
            case Closed => ret == 0 && stored == 0
            case Broken => ret == -1 && stored == numBytes
    ensures |s.script| <= |old(s.script)| <= |s.script| + MAX_READ_ITERATIONS + 3
  {
    ghost var stream, script := s.unread, s.script;
    var n := ReceiveHeader(s, buf);
    if n == -1 {
      return if s.timedOut then 0 else -1, if s.timedOut then -1 else numBytes;
    } else if n == 0 {
      return 0, 0;
    } else if n != HEADER {
      return -1, numBytes;
    }
    var kind, result, length := ReadHeader(buf[..]);
    SameHeader(buf[..], stream, HEADER);
    if length > MAXGPS - HEADER {
      BehindHeader(stream, script, length);
      return -1, numBytes;
    }
    var ok := ReceiveBody(s, buf, length);
    PacketRead(stream, script, length, ok, s.unread, s.script, buf[..]);
    if !ok {
      return -1, numBytes;
    }
    return 0, HEADER + length;
  }

  // ----- dispatch in the RIL -----

  /** A handler called with the body of a packet. */
  datatype Call = Call(kind: nat, body: seq<byte>)

  predicate IsRequest(kind: nat) { kind < MAXVAL && kind % 2 == 0 }

  predicate IsResponse(kind: nat) { kind < MAXVAL && kind % 2 == 1 }

  /** The calls made for what arrives on the socket until it is closed or breaks. */
  function Served(unread: seq<byte>, script: seq<Event>): (calls: seq<Call>)
    decreases |script|
  {
    match NextPacket(unread, script)
    case Later => Served(unread, script[1..])
    case Packet(size, rest) =>
      var kind := FromBe(unread[..2]);
      if kind >= MAXVAL then []
      else (if IsRequest(kind) then [Call(kind, unread[HEADER..size])] else []) + Served(unread[size..], rest)
    case _ => []
  }

  method HandleSwigps(s: Socket) returns (calls: seq<Call>)
    modifies s
    ensures calls == Served(old(s.unread), old(s.script))
  {
    var buf := new byte[MAXGPS];
    calls := [];
    while true
      invariant fresh(buf) && calls + Served(s.unread, s.script) == Served(old(s.unread), old(s.script))
      decreases |s.script|
    {
      ghost var unread, script, done := s.unread, s.script, calls;
      var ret, size := ReceivePacket(s, buf, buf.Length);
      if size == -1 {
        continue;
      }
      if ret == 0 && size == 0 {
        return;
      }
      if ret != 0 {
        return;
      }
      var kind, result, length := ReadHeader(buf[..]);
      SameHeader(buf[..], unread, size);
      if kind >= MAXVAL {
        return;
      }
      if IsRequest(kind) {
        calls := calls + [Call(kind, buf[..][HEADER..HEADER + length])];
        assert Served(unread, script) == [Call(kind, unread[HEADER..size])] + Served(s.unread, s.script);
        assert calls + Served(s.unread, s.script) == done + Served(unread, script);
      } else {
        assert Served(unread, script) == Served(s.unread, s.script);
      }
    }
  }

  // ----- what is sent is what is served -----

  datatype Message = Message(kind: nat, result: int, body: seq<byte>)

  predicate Sendable(m: Message) { m.kind < MAXVAL && |m.body| <= MAXGPS - HEADER }

  function Wire(m: Message): (b: seq<byte>) { Header(m.kind, m.result, |m.body|) + m.body }

  function WireAll(ms: seq<Message>): (b: seq<byte>) { if ms == [] then [] else Wire(ms[0]) + WireAll(ms[1..]) }

  function Requests(ms: seq<Message>): (calls: seq<Call>) {
    if ms == [] then []
    else (if IsRequest(ms[0].kind) then [Call(ms[0].kind, ms[0].body)] else []) + Requests(ms[1..])
  }

  /** The stream of these messages is cut such that each header comes at once, after any number of
      timeouts, and each body in at most MAX_READ_ITERATIONS + 1 reads. */
  predicate Delivers(script: seq<Event>, ms: seq<Message>)
    decreases |script|
  {
    if ms == [] then true
    else if script == [] then false
    else
      match script[0]
      case Again => Delivers(script[1..], ms)
      case Fail => false
      case Chunk(n) =>
        var m := Reads(script[1..], |ms[0].body|);
        n >= HEADER && m.Some? && m.value <= MAX_READ_ITERATIONS + 1 && Delivers(script[1 + m.value..], ms[1..])
  }

  lemma WireIsParsed(m: Message, more: seq<byte>)
    requires Sendable(m)
    ensures var u := Wire(m) + more;
            && |u| >= HEADER && FromBe(u[..2]) == m.kind && FromBe(u[4..6]) == |m.body|
            && u[HEADER..HEADER + |m.body|] == m.body && u[HEADER + |m.body|..] == more
  {
    var u := Wire(m) + more;
    assert u[..2] == Be(m.kind, 2);
    assert u[4..6] == Be(|m.body|, 2);
    PutThenGet(m.kind, 2);
    PutThenGet(|m.body|, 2);
    assert Power(2) == 256 * Power(1) == 0x1_0000;
  }

  lemma {:induction false} NothingIsServed(script: seq<Event>)
    ensures Served([], script) == []
    decreases |script|
  {
    if NextPacket([], script).Later? {
      NothingIsServed(script[1..]);
    }
  }

  /** The first of several messages is the next packet, and the others are what is unread behind it. */
  lemma FirstIsPacket(ms: seq<Message>, script: seq<Event>) returns (rest: seq<Event>)
    requires ms != [] && Sendable(ms[0]) && Delivers(script, ms) && !script[0].Again?
    ensures |rest| < |script| && Delivers(rest, ms[1..])
    ensures NextPacket(WireAll(ms), script) == Packet(HEADER + |ms[0].body|, rest)
  {
    WireIsParsed(ms[0], WireAll(ms[1..]));
    rest := script[1 + Reads(script[1..], |ms[0].body|).value..];
  }

  lemma FirstIsServed(ms: seq<Message>, script: seq<Event>, rest: seq<Event>)
    requires ms != [] && Sendable(ms[0]) && NextPacket(WireAll(ms), script) == Packet(HEADER + |ms[0].body|, rest)
    ensures Served(WireAll(ms), script)
            == (if IsRequest(ms[0].kind) then [Call(ms[0].kind, ms[0].body)] else []) + Served(WireAll(ms[1..]), rest)
  {
    WireIsParsed(ms[0], WireAll(ms[1..]));
  }

  /** Messages sent back to back are recovered in order, however the stream is cut within those limits. */
  lemma {:induction false} BackToBack(ms: seq<Message>, script: seq<Event>)
    requires (forall k :: 0 <= k < |ms| ==> Sendable(ms[k])) && Delivers(script, ms)
    ensures Served(WireAll(ms), script) == Requests(ms)
    decreases |script|
  {
    if ms == [] {
      NothingIsServed(script);
    } else if script[0].Again? {
      BackToBack(ms, script[1..]);
    } else {
      var rest := FirstIsPacket(ms, script);
      FirstIsServed(ms, script, rest);
      BackToBack(ms[1..], rest);
    }
  }

  // ----- requests to the RIL: session defaults and time -----

  function Bit(b: bool): byte { if b then 1 else 0 }

  lemma PowersOf256()
    ensures Power(2) == 0x1_0000 && Power(4) == 0x1_0000_0000 && Power(8) == 0x1_0000_0000_0000_0000
  {
    assert Power(2) == 256 * Power(1) && Power(3) == 256 * Power(2) && Power(4) == 256 * Power(3);
    assert Power(5) == 256 * Power(4) && Power(6) == 256 * Power(5) && Power(7) == 256 * Power(6);
  }

  lemma Got32(x: int)
    ensures FromBe(Be(x, 4)) == x % 0x1_0000_0000
  {
    PutThenGet(x, 4);
    PowersOf256();
  }

  lemma Got64(x: int)
    ensures FromBe(Be(x, 8)) == x % 0x1_0000_0000_0000_0000
  {
    PutThenGet(x, 8);
    PowersOf256();
  }

  /** Mode, timeout, interval and accuracy. */
  function DefaultsBody(operation: int, timeout: int, interval: int, accuracy: int): (b: seq<byte>)
    ensures |b| == 10
  {
    [LowByte(operation), LowByte(timeout)] + Be(interval, 4) + Be(accuracy, 4)
  }

  lemma DefaultsFields(operation: int, timeout: int, interval: int, accuracy: int)
    ensures
      var b := DefaultsBody(operation, timeout, interval, accuracy);
      && b[0] == operation % 256 && b[1] == timeout % 256
      && FromBe(b[2..6]) == interval % 0x1_0000_0000 && FromBe(b[6..10]) == accuracy % 0x1_0000_0000
  {
    var b := DefaultsBody(operation, timeout, interval, accuracy);
    assert b[2..6] == Be(interval, 4);
    assert b[6..10] == Be(accuracy, 4);
    Got32(interval);
    Got32(accuracy);
  }

  method PutDefaults(operation: int, timeout: int, interval: int, accuracy: int, buf: array<byte>, p: nat) returns (next: nat)
    requires p + 10 <= buf.Length
    modifies buf
    ensures next == p + 10 && Wrote(old(buf[..]), buf[..], p, DefaultsBody(operation, timeout, interval, accuracy))
  {
    ghost var first := buf[..];
    buf[p], buf[p + 1] := LowByte(operation), LowByte(timeout);
    ghost var second := buf[..];
    assert Wrote(first, second, p, [LowByte(operation), LowByte(timeout)]);
    next := Put32(interval, buf, p + 2);
    ghost var third := buf[..];
    WroteBoth(first, second, third, p, [LowByte(operation), LowByte(timeout)], Be(interval, 4));
    next := Put32(accuracy, buf, next);
    WroteBoth(first, third, buf[..], p, [LowByte(operation), LowByte(timeout)] + Be(interval, 4), Be(accuracy, 4));
  }

  function SetDefBody(operation: int, timeout: int, interval: int, accuracy: int, tracking: bool): (b: seq<byte>)
    ensures |b| == 11
  {
    DefaultsBody(operation, timeout, interval, accuracy) + [Bit(tracking)]
  }

  function InjTimeBody(time: int, uncertainty: int): (b: seq<byte>)
    ensures |b| == 12
  {
    Be(time, 8) + Be(uncertainty, 4)
  }

  method SetDef(operation: int, timeout: int, interval: int, accuracy: int, tracking: bool) returns (sent: seq<byte>)
    ensures sent == Wire(Message(REQ_SETDEF, 0, SetDefBody(operation, timeout, interval, accuracy, tracking)))
  {
    var pkt := new byte[HEADER + 11];
    var ok, p := MakHdr(REQ_SETDEF, 11, 0, pkt, pkt.Length);
    p := PutDefaults(operation, timeout, interval, accuracy, pkt, p);
    assert pkt[..p] == Header(REQ_SETDEF, 0, 11) + DefaultsBody(operation, timeout, interval, accuracy);
    pkt[p] := Bit(tracking);
    return pkt[..p + 1];
  }

  method InjTime(time: int, uncertainty: int) returns (sent: seq<byte>)
    ensures sent == Wire(Message(REQ_INJTIME, 0, InjTimeBody(time, uncertainty)))
  {
    var pkt := new byte[HEADER + 12];
    var ok, p := MakHdr(REQ_INJTIME, 12, 0, pkt, pkt.Length);
    p := Put64(time, pkt, p);
    assert pkt[..14] == Header(REQ_INJTIME, 0, 12) + Be(time, 8);
    p := Put32(uncertainty, pkt, p);
    return pkt[..p];
  }

  /** packnSend: the argument block of the event that is enqueued, or none if the length is wrong. */
  method PackNSend(call: Call, fd: int) returns (arg: array?<byte>)
    requires call.kind < MAXVAL
    ensures arg != null <==> LengthIsRight(call.kind, |call.body|)
    ensures arg != null ==> fresh(arg) && 4 + |call.body| <= arg.Length && arg[..4 + |call.body|] == Be(fd, 4) + call.body
  {
    if !LengthIsRight(call.kind, |call.body|) {
      return null;
    }
    arg := new byte[8 + |call.body|];
    var p := Put32(fd, arg, 0);
    for k := 0 to |call.body|
      invariant arg[..4 + k] == Be(fd, 4) + call.body[..k]
    {
      arg[p + k] := call.body[k];
    }
  }

  datatype Defaults = Defaults(mode: nat, timeout: nat, interval: nat, accuracy: nat)

  function ToInt(x: int): int { (x + 0x8000_0000) % 0x1_0000_0000 - 0x8000_0000 }

  /** The unpacking in rilgpsSetDef. The tracking byte is not looked at. */
  method UnpackSetDef(arg: seq<byte>) returns (fd: int, d: Defaults)
    requires |arg| >= 14
    ensures fd == ToInt(FromBe(arg[0..4]))
    ensures d == Defaults(arg[4], arg[5], FromBe(arg[6..10]), FromBe(arg[10..14]))
  {
    var n, p := Get(arg, 0, 4);
    var interval, accuracy;
    interval, p := Get(arg, p + 2, 4);
    accuracy, p := Get(arg, p, 4);
    return ToInt(n), Defaults(arg[4], arg[5], interval, accuracy);
  }

  method UnpackInjTime(arg: seq<byte>) returns (fd: int, time: nat, uncertainty: nat)
    requires |arg| >= 16
    ensures fd == ToInt(FromBe(arg[0..4]))
    ensures time == FromBe(arg[4..12]) && uncertainty == FromBe(arg[12..16])
  {
    var n, p := Get(arg, 0, 4);
    time, p := Get(arg, p, 8);
    uncertainty, p := Get(arg, p, 4);
    fd := ToInt(n);
  }

  lemma DescriptorIsKept(fd: int)
    requires -0x8000_0000 <= fd < 0x8000_0000
    ensures ToInt(FromBe(Be(fd, 4))) == fd
  {
    Got32(fd);
  }

  /** What unpacking any argument block that starts as packnSend makes it gives for a set-defaults request:
      the fields, modulo their widths. */
  lemma SetDefArrives(operation: int, timeout: int, interval: int, accuracy: int, tracking: bool, fd: int, arg: seq<byte>)
    requires -0x8000_0000 <= fd < 0x8000_0000
    requires Be(fd, 4) + SetDefBody(operation, timeout, interval, accuracy, tracking) <= arg
    ensures |arg| >= 14 && ToInt(FromBe(arg[0..4])) == fd
    ensures arg[4] == operation % 256 && arg[5] == timeout % 256
    ensures FromBe(arg[6..10]) == interval % 0x1_0000_0000 && FromBe(arg[10..14]) == accuracy % 0x1_0000_0000
    ensures LengthIsRight(REQ_SETDEF, |SetDefBody(operation, timeout, interval, accuracy, tracking)|)
  {
    var b := DefaultsBody(operation, timeout, interval, accuracy);
    ThreeParts(Be(fd, 4), b, [Bit(tracking)], arg);
    FieldsOfPart(arg, b);
    DescriptorIsKept(fd);
    DefaultsFields(operation, timeout, interval, accuracy);
  }

  lemma FieldsOfPart(arg: seq<byte>, b: seq<byte>)
    requires |arg| >= 14 && |b| == 10 && arg[4..14] == b
    ensures arg[4] == b[0] && arg[5] == b[1] && arg[6..10] == b[2..6] && arg[10..14] == b[6..10]
  {
    assert arg[4] == arg[4..14][0] && arg[5] == arg[4..14][1];
    PartOfPart(arg, 4, 14, 2, 6);
    PartOfPart(arg, 4, 14, 6, 10);
  }

  lemma ThreeParts(a: seq<byte>, b: seq<byte>, c: seq<byte>, s: seq<byte>)
    requires a + (b + c) <= s
    ensures s[0..|a|] == a && s[|a|..|a| + |b|] == b && s[|a| + |b|..|a| + |b| + |c|] == c
  {
    var t := a + (b + c);
    assert forall k :: 0 <= k < |t| ==> s[k] == t[k];
  }

  lemma PartOfPart(s: seq<byte>, from: nat, to: nat, a: nat, b: nat)
    requires from <= to <= |s| && a <= b <= to - from
    ensures s[from..to][a..b] == s[from + a..from + b]
  {
    var x, y := s[from..to][a..b], s[from + a..from + b];
    forall k | 0 <= k < |x|
      ensures x[k] == y[k]
    {
      assert x[k] == s[from..to][a + k] == s[from + a + k];
    }
  }

  lemma InjTimeArrives(time: int, uncertainty: int, fd: int, arg: seq<byte>)
    requires -0x8000_0000 <= fd < 0x8000_0000
    requires Be(fd, 4) + InjTimeBody(time, uncertainty) <= arg
    ensures |arg| >= 16 && ToInt(FromBe(arg[0..4])) == fd
    ensures FromBe(arg[4..12]) == time % 0x1_0000_0000_0000_0000 && FromBe(arg[12..16]) == uncertainty % 0x1_0000_0000
    ensures LengthIsRight(REQ_INJTIME, |InjTimeBody(time, uncertainty)|)
  {
    assert |arg| >= 16 && arg[0..4] == Be(fd, 4) && arg[4..12] == Be(time, 8) && arg[12..16] == Be(uncertainty, 4) by {
      ThreeParts(Be(fd, 4), Be(time, 8), Be(uncertainty, 4), arg);
    }
    DescriptorIsKept(fd);
    Got64(time);
    Got32(uncertainty);
  }

  /** A set-defaults request from the call in the GPS library to the call in the RIL, over any cut of the stream. */
  method SetDefEndToEnd(operation: int, timeout: int, interval: int, accuracy: int, tracking: bool,
                        s: Socket, fd: int)
    returns (seen: int, d: Defaults)
    requires -0x8000_0000 <= fd < 0x8000_0000 && s.unread == []
    requires Delivers(s.script, [Message(REQ_SETDEF, 0, SetDefBody(operation, timeout, interval, accuracy, tracking))])
    modifies s
    ensures seen == fd
    ensures d == Defaults(operation % 256, timeout % 256, interval % 0x1_0000_0000, accuracy % 0x1_0000_0000)
  {
    ghost var body := SetDefBody(operation, timeout, interval, accuracy, tracking);
    ghost var m := Message(REQ_SETDEF, 0, body);
    var sent := SetDef(operation, timeout, interval, accuracy, tracking);
    s.unread := sent;
    assert WireAll([m]) == Wire(m);
    BackToBack([m], s.script);
    var calls := HandleSwigps(s);
    assert calls == [Call(REQ_SETDEF, body)];
    var arg := PackNSend(calls[0], fd);
    SetDefArrives(operation, timeout, interval, accuracy, tracking, fd, arg[..]);
    seen, d := UnpackSetDef(arg[..]);
  }

  // ----- the response with the session defaults -----

  /** A body written behind a header that stands in front of `behind`. */
  lemma WroteBody(header: seq<byte>, behind: seq<byte>, after: seq<byte>, body: seq<byte>)
    requires |behind| == |body| && Wrote(header + behind, after, |header|, body)
    ensures after == header + body
  {
    WroteNext(header + behind, after, |header|, body, header);
    assert after[..|after|] == after;
  }

  /** The packing in rilgpsGetDef. */
  method RilGetDef(result: int, operation: int, timeout: int, interval: int, accuracy: int) returns (sent: seq<byte>)
    ensures sent == Wire(Message(RESP_GETDEF, result, DefaultsBody(operation, timeout, interval, accuracy)))
  {
    var resp := new byte[HEADER + 10];
    ghost var behind := resp[HEADER..];
    var ok, p := MakHdr(RESP_GETDEF, 10, result, resp, resp.Length);
    p := PutDefaults(operation, timeout, interval, accuracy, resp, p);
    WroteBody(Header(RESP_GETDEF, result, 10), behind, resp[..], DefaultsBody(operation, timeout, interval, accuracy));
    assert resp[..p] == resp[..];
    return resp[..p];
  }

  class GpsState {
    var defs: Defaults

    /** respGetDef. */
    method RespGetDef(body: seq<byte>, length: nat)
      requires length == |body|
      modifies this
      ensures defs == if LengthIsRight(RESP_GETDEF, length) then Defaults(body[0], body[1], FromBe(body[2..6]), FromBe(body[6..10]))
                      else old(defs)
    {
      if LengthIsRight(RESP_GETDEF, length) {
        var interval, p := Get(body, 2, 4);
        var accuracy;
        accuracy, p := Get(body, p, 4);
        defs := Defaults(body[0], body[1], interval, accuracy);
      }
    }

    /** handle_rilgps: a response that carries an error is not passed on. */
    method HandleRilGps(s: Socket) returns (called: Option<Call>)
      modifies this, s
      ensures var a := NextPacket(old(s.unread), old(s.script));
              && called == (if a.Packet? then Response(old(s.unread), a.size) else None)
              && (called.Some? && called.value.kind == RESP_GETDEF && |called.value.body| == 10 ==>
                    var body := called.value.body;
                    defs == Defaults(body[0], body[1], FromBe(body[2..6]), FromBe(body[6..10])))
              && (called == None || called.value.kind != RESP_GETDEF ==> defs == old(defs))
    {
      var buf := new byte[MAXGPS](k => 0);
      ghost var unread := s.unread;
      var ret, size := ReceivePacket(s, buf, buf.Length);
      if ret == 0 && size == 0 {
        return None;
      }
      if ret != 0 {
        return None;
      }
      var kind, result, length := ReadHeader(buf[..]);
      if size > 0 {
        SameHeader(buf[..], unread, size);
      } else {
        ZeroIsZero(buf[..2]);
      }
      if kind >= MAXVAL || result != 0 || !IsResponse(kind) {
        return None;
      }
      var body := buf[..][HEADER..HEADER + length];
      called := Some(Call(kind, body));
      if kind == RESP_GETDEF {
        RespGetDef(body, length);
      }
    }
  }

  /** The handler call for a packet at the head of the stream, if its type and result allow one. */
  function Response(unread: seq<byte>, size: nat): (c: Option<Call>)
    requires HEADER <= size <= |unread|
  {
    var kind := FromBe(unread[..2]);
    if IsResponse(kind) && FromBe(unread[2..4]) == 0 then Some(Call(kind, unread[HEADER..size])) else None
  }

  /** The defaults that the modem reported are the ones stored, modulo their widths, exactly if the low
      16 bits of the result are zero. */
  lemma GetDefArrives(result: int, operation: int, timeout: int, interval: int, accuracy: int, script: seq<Event>)
    requires script != [] && Delivers(script, [Message(RESP_GETDEF, result, DefaultsBody(operation, timeout, interval, accuracy))])
    requires script[0].Chunk?
    ensures var body := DefaultsBody(operation, timeout, interval, accuracy);
            var u := Wire(Message(RESP_GETDEF, result, body));
            && NextPacket(u, script).Packet? && NextPacket(u, script).size == |u|
            && Response(u, |u|) == (if result % 0x1_0000 == 0 then Some(Call(RESP_GETDEF, body)) else None)
    ensures var body := DefaultsBody(operation, timeout, interval, accuracy);
            Defaults(body[0], body[1], FromBe(body[2..6]), FromBe(body[6..10])) ==
            Defaults(operation % 256, timeout % 256, interval % 0x1_0000_0000, accuracy % 0x1_0000_0000)
  {
    var body := DefaultsBody(operation, timeout, interval, accuracy);
    DefaultsFields(operation, timeout, interval, accuracy);
    ResponseArrives(Message(RESP_GETDEF, result, body), script);
  }

  lemma ResultIsRead(m: Message)
    ensures |Wire(m)| == HEADER + |m.body| && FromBe(Wire(m)[2..4]) == m.result % 0x1_0000
  {
    assert Wire(m)[2..4] == Be(m.result, 2);
    PutThenGet(m.result, 2);
    PowersOf256();
  }

  lemma WireAlone(m: Message)
    requires Sendable(m)
    ensures |Wire(m)| == HEADER + |m.body| && FromBe(Wire(m)[..2]) == m.kind && FromBe(Wire(m)[4..6]) == |m.body|
    ensures Wire(m)[HEADER..|Wire(m)|] == m.body
  {
    WireIsParsed(m, []);
    assert Wire(m) + [] == Wire(m);
  }

  /** A response that is delivered is passed on exactly if its result field is zero. */
  lemma ResponseArrives(m: Message, script: seq<Event>)
    requires Sendable(m) && IsResponse(m.kind) && script != [] && script[0].Chunk? && Delivers(script, [m])
    ensures NextPacket(Wire(m), script).Packet? && NextPacket(Wire(m), script).size == |Wire(m)|
    ensures Response(Wire(m), |Wire(m)|) == if m.result % 0x1_0000 == 0 then Some(Call(m.kind, m.body)) else None
  {
    WireAlone(m);
    ResultIsRead(m);
    BehindHeader(Wire(m), script, |m.body|);
  }
}
