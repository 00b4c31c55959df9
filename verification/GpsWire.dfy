/** The GPS packets byte by byte, and which of them are received and served. */
module GpsWire {
  import opened GpsPackets
  import opened Wrappers

  // ----- bytes -----

  /** Network byte order: the last byte is the lowest. */
  lemma {:induction false} ByteIs(x: int, n: nat, j: nat)
    requires j < n
    ensures Be(x, n)[n - 1 - j] == x / Power(j) % 256
    decreases n
  {
    if j > 0 {
      ByteIs(x / 256, n - 1, j - 1);
      DivideInSteps(x, Power(j - 1));
    }
  }

  lemma TwoBytes(x: int)
    ensures Be(x, 2) == [x / 0x100 % 256, x % 256]
  {
    ByteIs(x, 2, 0);
    ByteIs(x, 2, 1);
    assert Power(1) == 256 * Power(0);
  }

  /** The low four bytes of a number, the highest first. */
  function Four(x: int): (b: seq<byte>) { [x / 0x100_0000 % 256, x / 0x1_0000 % 256, x / 0x100 % 256, x % 256] }

  lemma FourBytes(x: int)
    ensures Be(x, 4) == Four(x)
  {
    var q := x / 0x1_0000;
    TwoBytes(x);
    TwoBytes(q);
    assert x / 256 / 256 == q;
    assert q / 256 == x / 0x100_0000;
    assert Be(x, 4) == Be(x / 256, 3) + [x % 256];
    assert Be(x / 256, 3) == Be(q, 2) + [x / 256 % 256];
  }

  lemma {:induction false} LongSplits(x: int, n: nat, m: nat)
    ensures Be(x, n + m) == Be(x / Power(m), n) + Be(x, m)
    decreases m
  {
    if m == 0 {
      assert Be(x, n) + [] == Be(x, n);
    } else {
      LongSplits(x / 256, n, m - 1);
      DivideInSteps(x, Power(m - 1));
      assert Be(x, n + m) == Be(x / 256, n + m - 1) + [x % 256];
      assert Be(x, m) == Be(x / 256, m - 1) + [x % 256];
    }
  }

  lemma EightBytes(x: int)
    ensures Be(x, 8) == Four(x / 0x1_0000_0000) + Four(x)
  {
    LongSplits(x, 4, 4);
    PowersOf256();
    FourBytes(x / 0x1_0000_0000);
    FourBytes(x);
  }

  /** The bytes of a set-defaults request. */
  lemma SetDefBytes(operation: int, timeout: int, interval: int, accuracy: int, tracking: bool)
    ensures Wire(Message(REQ_SETDEF, 0, SetDefBody(operation, timeout, interval, accuracy, tracking))) ==
            [0, 4, 0, 0, 0, 11, operation % 256, timeout % 256] + Four(interval) + Four(accuracy) + [if tracking then 1 else 0]
  {
    TwoBytes(4);
    TwoBytes(0);
    TwoBytes(11);
    FourBytes(interval);
    FourBytes(accuracy);
  }

  /** Those of a request to inject the time. */
  lemma InjTimeBytes(time: int, uncertainty: int)
    ensures Wire(Message(REQ_INJTIME, 0, InjTimeBody(time, uncertainty))) ==
            [0, 10, 0, 0, 0, 12] + Four(time / 0x1_0000_0000) + Four(time) + Four(uncertainty)
  {
    TwoBytes(10);
    TwoBytes(0);
    TwoBytes(12);
    EightBytes(time);
    FourBytes(uncertainty);
  }

  /** And those of the response with the session defaults. */
  lemma GetDefBytes(result: int, operation: int, timeout: int, interval: int, accuracy: int)
    ensures Wire(Message(RESP_GETDEF, result, DefaultsBody(operation, timeout, interval, accuracy))) ==
            [0, 3, result / 256 % 256, result % 256, 0, 10, operation % 256, timeout % 256] + Four(interval) + Four(accuracy)
  {
    TwoBytes(3);
    TwoBytes(result);
    TwoBytes(10);
    FourBytes(interval);
    FourBytes(accuracy);
  }

  // ----- what is received -----

  lemma TwoBytesRead(b: seq<byte>)
    requires |b| == 2
    ensures FromBe(b) == b[0] as int * 256 + b[1] as int
  {
    assert b[..1][..0] == [];
    assert FromBe(b[..1]) == b[0];
  }

  /** A packet is received exactly if its six bytes of header come at once, its body is not longer than 506 bytes
      and is all there, and comes within eleven reads; it is as long as its header says. */
  lemma PacketExactly(unread: seq<byte>, n: nat, script: seq<Event>)
    ensures var a := NextPacket(unread, [Chunk(n)] + script);
            && (a.Packet? <==>
                  && n >= 6 && |unread| >= 6
                  && var length := unread[4] as int * 256 + unread[5] as int;
                     && length <= 506 && 6 + length <= |unread|
                     && exists m: nat :: m <= 11 && BroughtBy(script, length, m))
            && (a.Packet? ==> |unread| >= 6 && a.size == 6 + unread[4] as int * 256 + unread[5] as int)
  {
    var all := [Chunk(n)] + script;
    assert all[1..] == script;
    if n >= 6 && |unread| >= 6 {
      TwoBytesRead(unread[4..6]);
      var length := unread[4] as int * 256 + unread[5] as int;
      assert FromBe(unread[4..6]) == length;
      ReadsExactly(script, length);
    }
  }

  lemma ReadsExactly(script: seq<Event>, need: nat)
    ensures (Reads(script, need).Some? && Reads(script, need).value <= 11) <==> exists m: nat :: m <= 11 && BroughtBy(script, need, m)
  {
    if Reads(script, need).Some? {
      ReadsIsBroughtBy(script, need, Reads(script, need).value);
    }
    forall m: nat | BroughtBy(script, need, m)
      ensures Reads(script, need) == Some(m)
    {
      ReadsIsBroughtBy(script, need, m);
    }
  }

  /** The library passes on a packet exactly if its type is that of a response and both bytes of its result are
      zero; what it passes on is its body. */
  lemma ResponseExactly(unread: seq<byte>, size: nat)
    requires 6 <= size <= |unread|
    ensures Response(unread, size).Some? <==>
            unread[0] == 0 && unread[1] in {1, 3, 5, 7, 9, 11, 13, 15} && unread[2] == 0 && unread[3] == 0
    ensures Response(unread, size).Some? ==> Response(unread, size).value == Call(unread[1], unread[6..size])
  {
    TwoBytesRead(unread[..2]);
    TwoBytesRead(unread[2..4]);
  }

  /** Requests have even types, responses odd ones, and there are sixteen types. */
  lemma KindsAre(kind: nat)
    ensures IsRequest(kind) <==> kind in {0, 2, 4, 6, 8, 10, 12, 14}
    ensures IsResponse(kind) <==> kind in {1, 3, 5, 7, 9, 11, 13, 15}
  {
  }

  /** How long the bodies are: only the name of the NMEA port and the AGPS settings vary. */
  lemma LengthsAre(kind: nat, n: int)
    requires kind < 16
    ensures LengthIsRight(kind, n) <==>
            match kind
            case 0 => n == 2
            case 1 => 9 <= n <= 22
            case 3 => n == 10
            case 4 => n == 11
            case 7 => 9 <= n <= 137
            case 8 => 9 <= n <= 137
            case 10 => n == 12
            case 14 => n == 10
            case _ => n == 0
  {
  }

  /** A packet of an unknown type ends the service, and so does anything that is not a packet, unless it is a
      timeout. */
  lemma ServiceEnds(unread: seq<byte>, script: seq<Event>)
    requires match NextPacket(unread, script)
             case Packet(_, _) => unread[0] as int * 256 + unread[1] as int >= 16
             case Later => false
             case _ => true
    ensures Served(unread, script) == []
  {
    if NextPacket(unread, script).Packet? {
      TwoBytesRead(unread[..2]);
    }
  }

  /** Only a timeout puts off the next packet. */
  lemma LaterIsTimeout(unread: seq<byte>, script: seq<Event>)
    ensures NextPacket(unread, script).Later? <==> script != [] && script[0].Again?
    ensures NextPacket(unread, script).Closed? <==> script == [] || (script[0].Chunk? && (script[0].n == 0 || unread == []))
  {
  }

  // ----- from end to end -----

  /** A request to inject the time, from the call in the GPS library to the call in the RIL, over any cut of the
      stream within the limits. */
  method InjTimeEndToEnd(time: int, uncertainty: int, s: Socket, fd: int) returns (seen: int, t: nat, u: nat)
    requires -0x8000_0000 <= fd < 0x8000_0000 && s.unread == []
    requires Delivers(s.script, [Message(10, 0, InjTimeBody(time, uncertainty))])
    modifies s
    ensures seen == fd
    ensures t == time % 0x1_0000_0000_0000_0000 && u == uncertainty % 0x1_0000_0000
  {
    ghost var body := InjTimeBody(time, uncertainty);
    ghost var m := Message(10, 0, body);
    var sent := InjTime(time, uncertainty);
    s.unread := sent;
    assert WireAll([m]) == Wire(m);
    BackToBack([m], s.script);
    var calls := HandleSwigps(s);
    assert calls == [Call(10, body)];
    var arg := PackNSend(calls[0], fd);
    InjTimeArrives(time, uncertainty, fd, arg[..]);
    seen, t, u := UnpackInjTime(arg[..]);
  }
}
