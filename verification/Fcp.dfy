/** File control parameters of a 3G SIM (sections 11.1.1.3 and 11.1.1.4 of ETSI TS 102 221), hex encoded
    as tag-length-value items, and their conversion to the 2G response of section 9.2.1 of 3GPP TS 51.011. */
module Fcp {
  import opened ByteBits
  import opened Wrappers

  type byte = x: int | 0 <= x < 256

  datatype Errno = NoError | Einval | Enotsup

  const TEMPLATE: byte := 0x62
  const FILE_SIZE: byte := 0x80
  const DESCRIPTOR: byte := 0x82
  const FILE_ID: byte := 0x83

  // ----- hex digits -----

  function Char2Nib(c: char): (n: int)
    ensures 0 <= n < 16
  {
    if '0' <= c <= '9' then c as int - 0x30
    else if 'A' <= c <= 'F' then c as int - 0x41 + 0xA
    else if 'a' <= c <= 'f' then c as int - 0x61 + 0xA
    else 0
  }

  function Nib2Char(n: int): (c: char)
    requires 0 <= n < 16
  {
    (if n <= 9 then n + 0x30 else n + 0x41 - 0xA) as char
  }

  function ByteAt(s: string, k: nat): (b: byte)
    requires 2 * k + 1 < |s|
  {
    Char2Nib(s[2 * k]) * 16 + Char2Nib(s[2 * k + 1])
  }

  /** The bytes a hex string stands for; an odd last digit stands for nothing. */
  function FromHex(s: string): (b: seq<byte>) { seq(|s| / 2, k requires 0 <= k < |s| / 2 => ByteAt(s, k)) }

  function ToHex(b: seq<byte>): (s: string) {
    seq(2 * |b|, k requires 0 <= k < 2 * |b| => Nib2Char(if k % 2 == 0 then b[k / 2] / 16 else b[k / 2] % 16))
  }

  predicate IsHexDigit(c: char) { '0' <= c <= '9' || 'A' <= c <= 'F' || 'a' <= c <= 'f' }

  function ToUpper(c: char): char { if 'a' <= c <= 'f' then (c as int - 0x20) as char else c }

  lemma NibRoundTrip(n: int)
    requires 0 <= n < 16
    ensures Char2Nib(Nib2Char(n)) == n
  {
  }

  /** Printing bytes and reading them back gives the bytes. */
  lemma HexRoundTrip(b: seq<byte>)
    ensures FromHex(ToHex(b)) == b
  {
    forall k | 0 <= k < |b|
      ensures FromHex(ToHex(b))[k] == b[k]
    {
      var s := ToHex(b);
      assert (2 * k) % 2 == 0 && (2 * k) / 2 == k && (2 * k + 1) / 2 == k;
      assert s[2 * k] == Nib2Char(b[k] / 16);
      assert s[2 * k + 1] == Nib2Char(b[k] % 16);
      NibRoundTrip(b[k] / 16);
      NibRoundTrip(b[k] % 16);
      assert FromHex(s)[k] == ByteAt(s, k);
    }
  }

  /** Each byte is printed as its high and its low half. */
  lemma HexDigitsAre(b: seq<byte>, k: nat)
    requires k < |b|
    ensures |ToHex(b)| == 2 * |b|
    ensures ToHex(b)[2 * k] == "0123456789ABCDEF"[b[k] / 16] && ToHex(b)[2 * k + 1] == "0123456789ABCDEF"[b[k] % 16]
  {
    assert (2 * k) % 2 == 0 && (2 * k) / 2 == k && (2 * k + 1) / 2 == k;
    NibbleIs(b[k] / 16);
    NibbleIs(b[k] % 16);
  }

  lemma NibbleIs(n: int)
    requires 0 <= n < 16
    ensures Nib2Char(n) == "0123456789ABCDEF"[n]
  {
  }

  /** Reading hex digits and printing them back gives the digits in upper case. */
  lemma HexReprints(s: string)
    requires |s| % 2 == 0 && forall k :: 0 <= k < |s| ==> IsHexDigit(s[k])
    ensures |ToHex(FromHex(s))| == |s| && forall k :: 0 <= k < |s| ==> ToHex(FromHex(s))[k] == ToUpper(s[k])
  {
    forall k | 0 <= k < |s|
      ensures ToHex(FromHex(s))[k] == ToUpper(s[k])
    {
      assert Nib2Char(Char2Nib(s[k])) == ToUpper(s[k]);
      if k % 2 == 0 {
        assert FromHex(s)[k / 2] == Char2Nib(s[k]) * 16 + Char2Nib(s[k + 1]);
      } else {
        assert FromHex(s)[k / 2] == Char2Nib(s[k - 1]) * 16 + Char2Nib(s[k]);
      }
    }
  }

  method StringToBinary(s: string, binary: array<byte>) returns (err: Errno)
    requires |s| / 2 <= binary.Length
    modifies binary
    ensures err == if |s| % 2 == 1 then Einval else NoError
    ensures err == NoError ==> binary[..|s| / 2] == FromHex(s) && binary[|s| / 2..] == old(binary[|s| / 2..])
    ensures err != NoError ==> binary[..] == old(binary[..])
  {
    if |s| % 2 == 1 {
      return Einval;
    }
    var pos := 0;
    while 2 * pos != |s|
      invariant 0 <= pos <= |s| / 2
      invariant forall k :: 0 <= k < pos ==> binary[k] == ByteAt(s, k)
      invariant forall k :: pos <= k < binary.Length ==> binary[k] == old(binary[k])
      decreases |s| / 2 - pos
    {
      binary[pos] := Char2Nib(s[2 * pos]) * 16 + Char2Nib(s[2 * pos + 1]);
      pos := pos + 1;
    }
    return NoError;
  }

  method BinaryToString(binary: seq<byte>, s: array<char>)
    requires 2 * |binary| < s.Length
    modifies s
    ensures s[..2 * |binary|] == ToHex(binary) && s[2 * |binary|] == '\0'
    ensures s[2 * |binary| + 1..] == old(s[2 * |binary| + 1..])
  {
    var k := 0;
    while k != |binary|
      invariant 0 <= k <= |binary|
      invariant forall j :: 0 <= j < 2 * k ==> s[j] == ToHex(binary)[j]
      invariant forall j :: 2 * k <= j < s.Length ==> s[j] == old(s[j])
      decreases |binary| - k
    {
      s[2 * k], s[2 * k + 1] := Nib2Char(binary[k] / 16), Nib2Char(binary[k] % 16);
      k := k + 1;
    }
    s[2 * k] := '\0';
  }

  // ----- the items of a template, on bytes -----

  datatype Tlv = Tlv(tag: byte, data: seq<byte>)

  /** The item at `p` and where the next one starts; None if it does not fit in the stream. */
  function ReadTlv(b: seq<byte>, p: nat): (r: Option<(Tlv, nat)>)
    ensures r.Some? ==> p + 2 <= r.value.1 <= |b| && r.value.1 == p + 2 + |r.value.0.data|
  {
    if p + 2 > |b| || p + 2 + b[p + 1] > |b| then None
    else
      var stop := p + 2 + b[p + 1];
      Some((Tlv(b[p], b[p + 2..stop]), stop))
  }

  /** What is known of the file. */
  datatype Header = Header(size: (byte, byte), id: (byte, byte), fileType: byte, status: byte, dataSize: byte,
                           structure: byte, recordSize: byte)

  const ZERO := Header((0, 0), (0, 0), 0, 0, 0, 0, 0)

  /** The packed response of section 9.2.1 of 3GPP TS 51.011. */
  function Layout(h: Header): (b: seq<byte>)
    ensures |b| == 15
  {
    [0, 0, h.size.0, h.size.1, h.id.0, h.id.1, h.fileType, 0, 0, 0, 0, h.status, h.dataSize, h.structure, h.recordSize]
  }

  datatype Outcome = Outcome(err: Errno, h: Header)

  function Bump(x: byte): byte { (x + 1) % 256 }

  function DescribeElementary(h: Header, data: seq<byte>): (r: Outcome)
    requires |data| >= 2
  {
    var ef := h.(fileType := 4, status := 1, dataSize := Bump(h.dataSize));
    if Bits(data[0], 0x07) == 1 then Outcome(NoError, ef.(structure := 0))
    else if |data| < 5 then Outcome(Einval, ef)
    else
      var rec := ef.(dataSize := Bump(ef.dataSize), recordSize := data[3]);
      if Bits(data[0], 0x07) == 6 then Outcome(NoError, rec.(structure := 3))
      else if Bits(data[0], 0x07) == 2 then Outcome(NoError, rec.(structure := 1))
      else Outcome(Einval, rec)
  }

  function Describe(h: Header, data: seq<byte>): (r: Outcome) {
    if |data| < 2 then Outcome(Einval, h)
    else if Bits(data[0], 0xBF) == 0x38 then Outcome(NoError, h.(fileType := 2))
    else if Bits(data[0], 0xB0) == 0 then DescribeElementary(h, data)
    else Outcome(NoError, h.(fileType := 0))
  }

  function Apply(h: Header, t: Tlv): (r: Outcome) {
    if t.tag == FILE_SIZE then
      if |t.data| != 2 then Outcome(Enotsup, h) else Outcome(NoError, h.(size := (t.data[0], t.data[1])))
    else if t.tag == FILE_ID then
      if |t.data| != 2 then Outcome(Einval, h) else Outcome(NoError, h.(id := (t.data[0], t.data[1])))
    else if t.tag == DESCRIPTOR then Describe(h, t.data)
    else Outcome(NoError, h)
  }

  /** The items from `p` on. Each has to fit in the stream, though not in the template. */
  function ReadItems(b: seq<byte>, p: nat, stop: nat, h: Header): (r: Outcome)
    requires stop <= |b|
    decreases |b| - p
  {
    if p >= stop then Outcome(NoError, h)
    else
      match ReadTlv(b, p)
      case None => Outcome(Einval, h)
      case Some((t, next)) =>
        var r := Apply(h, t);
        if r.err != NoError then r else ReadItems(b, next, stop, r.h)
  }

  /** No response is written if the stream is not a template. */
  function Parse(b: seq<byte>): (r: (Errno, Option<Header>)) {
    match ReadTlv(b, 0)
    case None => (Einval, None)
    case Some((t, stop)) =>
      if t.tag != TEMPLATE then (Einval, None)
      else
        var r := ReadItems(b, 2, stop, ZERO);
        (r.err, Some(r.h))
  }

  /** The conversion of a SIM response. */
  function Convert(s: string): (r: (Errno, Option<string>)) {
    if |s| == 0 || |s| % 2 == 1 then (Einval, None)
    else
      var r := Parse(FromHex(s));
      (r.0, if r.0 == NoError && r.1.Some? then Some(ToHex(Layout(r.1.value))) else None)
  }

  // ----- the conversion on the characters -----

  /** parseTlv: `data` and `stop` are positions of characters. */
  method ParseTlv(stream: string, at: nat) returns (err: Errno, tag: byte, data: nat, stop: nat)
    requires at % 2 == 0
    ensures err == NoError <==> ReadTlv(FromHex(stream), at / 2).Some?
    ensures err == NoError || err == Einval
    ensures err == NoError ==>
              && data == at + 4 && data <= stop <= |stream| && stop % 2 == 0
              && ReadTlv(FromHex(stream), at / 2) == Some((Tlv(tag, FromHex(stream)[data / 2..stop / 2]), stop / 2))
  {
    tag, data, stop := 0, 0, 0;
    var p := at;
    if p + 1 >= |stream| {
      return Einval, tag, data, stop;
    }
    tag := Char2Nib(stream[p]) * 16 + Char2Nib(stream[p + 1]);
    assert FromHex(stream)[at / 2] == tag;
    p := p + 2;
    if p + 1 >= |stream| {
      return Einval, tag, data, stop;
    }
    var size: byte := Char2Nib(stream[p]) * 16 + Char2Nib(stream[p + 1]);
    assert FromHex(stream)[at / 2 + 1] == size;
    p := p + 2;
    if p + size * 2 > |stream| {
      return Einval, tag, data, stop;
    }
    return NoError, tag, p, p + size * 2;
  }

  /** TLV_DATA: byte `pos` of an item whose characters start at `data`. */
  function TlvData(stream: string, data: nat, pos: nat): (b: byte)
    requires data % 2 == 0 && data + 2 * pos + 1 < |stream|
    ensures data / 2 + pos < |FromHex(stream)| && b == FromHex(stream)[data / 2 + pos]
  {
    Char2Nib(stream[data + pos * 2]) * 16 + Char2Nib(stream[data + pos * 2 + 1])
  }

  /** The response being filled in. Its memory is the packed layout of its fields. */
  class Response {
    var size: (byte, byte)
    var id: (byte, byte)
    var fileType: byte
    var status: byte
    var dataSize: byte
    var structure: byte
    var recordSize: byte

    function View(): Header
      reads this
    {
      Header(size, id, fileType, status, dataSize, structure, recordSize)
    }

    method Clear()
      modifies this
      ensures View() == ZERO
    {
      size, id, fileType, status, dataSize, structure, recordSize := (0, 0), (0, 0), 0, 0, 0, 0, 0;
    }
  }

  method StoreElementary(stream: string, data: nat, stop: nat, fd: byte, out: Response)
    returns (err: Errno)
    requires data % 2 == 0 && stop % 2 == 0 && data + 4 <= stop <= |stream| && fd == FromHex(stream)[data / 2]
    modifies out
    ensures err == DescribeElementary(old(out.View()), FromHex(stream)[data / 2..stop / 2]).err
    ensures out.View() == DescribeElementary(old(out.View()), FromHex(stream)[data / 2..stop / 2]).h
  {
    ghost var bytes := FromHex(stream)[data / 2..stop / 2];
    assert bytes[0] == fd;
    out.fileType, out.status, out.dataSize := 4, 1, Bump(out.dataSize);
    if Bits(fd, 0x07) == 1 {
      out.structure := 0;
      return NoError;
    }
    if (stop - data) / 2 < 5 {
      return Einval;
    }
    var record := TlvData(stream, data, 3);
    assert record == bytes[3];
    out.dataSize, out.recordSize := Bump(out.dataSize), record;
    if Bits(fd, 0x07) == 6 {
      out.structure := 3;
    } else if Bits(fd, 0x07) == 2 {
      out.structure := 1;
    } else {
      return Einval;
    }
    return NoError;
  }

  method StoreDescriptor(stream: string, data: nat, stop: nat, out: Response) returns (err: Errno)
    requires data % 2 == 0 && stop % 2 == 0 && data <= stop <= |stream|
    modifies out
    ensures err == Describe(old(out.View()), FromHex(stream)[data / 2..stop / 2]).err
    ensures out.View() == Describe(old(out.View()), FromHex(stream)[data / 2..stop / 2]).h
  {
    var size := (stop - data) / 2;
    if size < 2 {
      return Einval;
    }
    var fd := TlvData(stream, data, 0);
    assert fd == FromHex(stream)[data / 2..stop / 2][0];
    if Bits(fd, 0xBF) == 0x38 {
      out.fileType := 2;
    } else if Bits(fd, 0xB0) == 0 {
      err := StoreElementary(stream, data, stop, fd, out);
      return err;
    } else {
      out.fileType := 0;
    }
    return NoError;
  }

  method StoreItem(stream: string, tag: byte, data: nat, stop: nat, out: Response) returns (err: Errno)
    requires data % 2 == 0 && stop % 2 == 0 && data <= stop <= |stream|
    modifies out
    ensures err == Apply(old(out.View()), Tlv(tag, FromHex(stream)[data / 2..stop / 2])).err
    ensures out.View() == Apply(old(out.View()), Tlv(tag, FromHex(stream)[data / 2..stop / 2])).h
  {
    var size := (stop - data) / 2;
    if tag == FILE_SIZE {
      if size != 2 {
        return Enotsup;
      }
      out.size := (TlvData(stream, data, 0), TlvData(stream, data, 1));
    } else if tag == FILE_ID {
      if size != 2 {
        return Einval;
      }
      out.id := (TlvData(stream, data, 0), TlvData(stream, data, 1));
    } else if tag == DESCRIPTOR {
      err := StoreDescriptor(stream, data, stop, out);
      return err;
    }
    return NoError;
  }

  /** fcp_to_ts_51011. Every pass reads an item of at least four characters that ends within the stream. */
  method FcpToTs51011(stream: string, out: Response) returns (err: Errno)
    modifies out
    ensures var r := Parse(FromHex(stream));
            err == r.0 && out.View() == if r.1 == None then old(out.View()) else r.1.value
  {
    var tag, data, end;
    err, tag, data, end := ParseTlv(stream, 0);
    if err != NoError {
      return;
    }
    if tag != TEMPLATE {
      return Einval;
    }
    out.Clear();
    ghost var b := FromHex(stream);
    while data < end
      invariant data % 2 == 0 && end % 2 == 0 && end <= |stream| && data <= |stream| && err == NoError
      invariant ReadItems(b, 2, end / 2, ZERO) == ReadItems(b, data / 2, end / 2, out.View())
      decreases |stream| - data
    {
      var t, d, stop;
      err, t, d, stop := ParseTlv(stream, data);
      if err != NoError {
        return;
      }
      err := StoreItem(stream, t, d, stop, out);
      if err != NoError {
        return;
      }
      data := stop;
    }
  }

  /** convertSimIoFcp; no response stands for NULL. */
  method ConvertSimIoFcp(response: Option<string>) returns (err: Errno, cvt: Option<string>)
    ensures response == None ==> err == Einval && cvt == None
    ensures response.Some? ==> (err, cvt) == Convert(response.value)
  {
    if response == None {
      return Einval, None;
    }
    var s := response.value;
    if |s| == 0 || |s| % 2 == 1 {
      return Einval, None;
    }
    var resp := new Response;
    err := FcpToTs51011(s, resp);
    if err != NoError {
      return err, None;
    }
    var buf := new char[31];
    BinaryToString(Layout(resp.View()), buf);
    return NoError, Some(buf[..30]);
  }

  // ----- what conversion means for a template written down item by item -----

  predicate Encodable(ts: seq<Tlv>) { forall k :: 0 <= k < |ts| ==> |ts[k].data| < 256 }

  function Item(t: Tlv): (b: seq<byte>)
    requires |t.data| < 256
  {
    [t.tag, |t.data|] + t.data
  }

  function Items(ts: seq<Tlv>): (b: seq<byte>)
    requires Encodable(ts)
  {
    if ts == [] then [] else Item(ts[0]) + Items(ts[1..])
  }

  predicate FitsTemplate(ts: seq<Tlv>) { Encodable(ts) && |Items(ts)| < 256 }

  function Template(ts: seq<Tlv>): (b: seq<byte>)
    requires FitsTemplate(ts)
  {
    Item(Tlv(0x62, Items(ts)))
  }

  function ApplyAll(h: Header, ts: seq<Tlv>): (r: Outcome)
    decreases ts
  {
    if ts == [] then Outcome(NoError, h)
    else
      var r := Apply(h, ts[0]);
      if r.err != NoError then r else ApplyAll(r.h, ts[1..])
  }

  lemma ItemIsRead(b: seq<byte>, p: nat, t: Tlv)
    requires |t.data| < 256 && p + 2 + |t.data| <= |b| && b[p..p + 2 + |t.data|] == Item(t)
    ensures ReadTlv(b, p) == Some((t, p + 2 + |t.data|))
  {
    var slice := b[p..p + 2 + |t.data|];
    assert slice[0] == b[p] && slice[1] == b[p + 1];
    assert b[p + 2..p + 2 + |t.data|] == slice[2..] == t.data;
  }

  lemma TwoPieces(b: seq<byte>, p: nat, x: seq<byte>, y: seq<byte>)
    requires p + |x + y| <= |b| && b[p..p + |x + y|] == x + y
    ensures b[p..p + |x|] == x && b[p + |x|..p + |x| + |y|] == y
  {
    assert b[p..p + |x|] == b[p..p + |x + y|][..|x|];
    assert b[p + |x|..p + |x| + |y|] == b[p..p + |x + y|][|x|..];
  }

  lemma ItemsFirst(ts: seq<Tlv>)
    requires Encodable(ts) && ts != []
    ensures Encodable(ts[1..]) && Items(ts) == Item(ts[0]) + Items(ts[1..]) && |Item(ts[0])| == 2 + |ts[0].data|
  {
  }

  /** Where the items `ts` are written, the first one is read. */
  lemma FirstItem(b: seq<byte>, p: nat, ts: seq<Tlv>)
    requires Encodable(ts) && ts != [] && p + |Items(ts)| <= |b| && b[p..p + |Items(ts)|] == Items(ts)
    ensures ReadTlv(b, p) == Some((ts[0], p + 2 + |ts[0].data|))
  {
    ItemsFirst(ts);
    TwoPieces(b, p, Item(ts[0]), Items(ts[1..]));
    ItemIsRead(b, p, ts[0]);
  }

  /** The others follow it. */
  lemma OtherItems(b: seq<byte>, p: nat, ts: seq<Tlv>)
    requires Encodable(ts) && ts != [] && p + |Items(ts)| <= |b| && b[p..p + |Items(ts)|] == Items(ts)
    ensures Encodable(ts[1..]) && p + 2 + |ts[0].data| + |Items(ts[1..])| == p + |Items(ts)|
    ensures b[p + 2 + |ts[0].data|..p + |Items(ts)|] == Items(ts[1..])
  {
    ItemsFirst(ts);
    TwoPieces(b, p, Item(ts[0]), Items(ts[1..]));
  }

  /** How reading goes on behind one item. */
  lemma ReadOn(b: seq<byte>, p: nat, next: nat, stop: nat, h: Header, t: Tlv)
    requires p < stop <= |b| && ReadTlv(b, p) == Some((t, next))
    ensures Apply(h, t).err == NoError ==> ReadItems(b, p, stop, h) == ReadItems(b, next, stop, Apply(h, t).h)
    ensures Apply(h, t).err != NoError ==> ReadItems(b, p, stop, h) == Apply(h, t)
  {
  }

  lemma ApplyOn(h: Header, ts: seq<Tlv>)
    requires ts != []
    ensures Apply(h, ts[0]).err == NoError ==> ApplyAll(h, ts) == ApplyAll(Apply(h, ts[0]).h, ts[1..])
    ensures Apply(h, ts[0]).err != NoError ==> ApplyAll(h, ts) == Apply(h, ts[0])
  {
  }

  lemma ItemsButLast(ts: seq<Tlv>)
    requires Encodable(ts) && |ts| > 1
    ensures |Items(ts[..|ts| - 1])| == 2 + |ts[0].data| + |Items(ts[1..][..|ts| - 2])|
  {
    var init := ts[..|ts| - 1];
    assert init[1..] == ts[1..][..|ts| - 2] && init[0] == ts[0];
  }

  /** Items that stand in the stream are read one by one up to `stop`, although the last one may go beyond it. */
  lemma {:induction false} ItemsAreRead(b: seq<byte>, p: nat, ts: seq<Tlv>, stop: nat, h: Header)
    requires Encodable(ts) && p + |Items(ts)| <= |b| && b[p..p + |Items(ts)|] == Items(ts)
    requires stop <= p + |Items(ts)| && (ts != [] ==> p + |Items(ts[..|ts| - 1])| < stop)
    ensures ReadItems(b, p, stop, h) == ApplyAll(h, ts)
    decreases ts
  {
    if ts != [] {
      var next := p + 2 + |ts[0].data|;
      FirstItem(b, p, ts);
      OtherItems(b, p, ts);
      ReadOn(b, p, next, stop, h, ts[0]);
      ApplyOn(h, ts);
      if |ts| > 1 {
        ItemsButLast(ts);
      }
      if Apply(h, ts[0]).err == NoError {
        ItemsAreRead(b, next, ts[1..], stop, Apply(h, ts[0]).h);
      }
    }
  }

  lemma {:induction false} LastItemCounts(ts: seq<Tlv>)
    requires Encodable(ts) && ts != []
    ensures |Items(ts[..|ts| - 1])| < |Items(ts)|
  {
    if |ts| > 1 {
      ItemsButLast(ts);
      LastItemCounts(ts[1..]);
    } else {
      assert ts[..0] == [];
    }
  }

  /** What is read of a template, whatever follows it in the stream. */
  lemma TemplateIsRead(b: seq<byte>, ts: seq<Tlv>)
    requires FitsTemplate(ts) && Template(ts) <= b
    ensures Parse(b) == (ApplyAll(ZERO, ts).err, Some(ApplyAll(ZERO, ts).h))
  {
    var t := Tlv(TEMPLATE, Items(ts));
    assert b[0..2 + |Items(ts)|] == Template(ts);
    ItemIsRead(b, 0, t);
    assert b[2..2 + |Items(ts)|] == Template(ts)[2..] == Items(ts);
    if ts != [] {
      LastItemCounts(ts);
    }
    ItemsAreRead(b, 2, ts, 2 + |Items(ts)|, ZERO);
  }

  /** Conversely, whatever is accepted is a run of items, of which only the last may leave the template. */
  lemma {:induction false} AcceptedIsItems(b: seq<byte>, p: nat, stop: nat, h: Header) returns (ts: seq<Tlv>, q: nat)
    requires p <= |b| && stop <= |b| && ReadItems(b, p, stop, h).err == NoError
    ensures Encodable(ts) && p <= q <= |b| && stop <= q && b[p..q] == Items(ts)
    ensures ReadItems(b, p, stop, h) == ApplyAll(h, ts)
    ensures ts != [] ==> p + |Items(ts[..|ts| - 1])| < stop
    ensures ts == [] ==> q == p
    decreases |b| - p
  {
    if p >= stop {
      ts, q := [], p;
    } else {
      var (t, next) := ReadTlv(b, p).value;
      var rest;
      rest, q := AcceptedIsItems(b, next, stop, Apply(h, t).h);
      ts := [t] + rest;
      assert ts[1..] == rest;
      assert b[p..next] == Item(t);
      assert b[p..q] == b[p..next] + b[next..q];
      if rest != [] {
        assert ts[..|ts| - 1] == [t] + rest[..|rest| - 1];
        assert ([t] + rest[..|rest| - 1])[1..] == rest[..|rest| - 1];
      } else {
        assert ts[..|ts| - 1] == [];
      }
    }
  }

  // ----- which templates are accepted -----

  /** What is wrong with an item on its own. */
  function Fault(t: Tlv): (e: Errno) {
    if t.tag == 0x80 && |t.data| != 2 then Enotsup
    else if t.tag == 0x83 && |t.data| != 2 then Einval
    else if t.tag == 0x82 && |t.data| < 2 then Einval
    else if t.tag == 0x82 && IsElementary(t.data[0]) && t.data[0] % 8 != 1 &&
            (|t.data| < 5 || t.data[0] % 8 !in {2, 6}) then Einval
    else NoError
  }

  function FirstFault(ts: seq<Tlv>): (e: Errno) {
    if ts == [] then NoError else if Fault(ts[0]) != NoError then Fault(ts[0]) else FirstFault(ts[1..])
  }

  lemma ApplyFails(h: Header, t: Tlv)
    ensures Apply(h, t).err == Fault(t)
  {
    if t.tag == DESCRIPTOR && |t.data| >= 2 {
      BitsMean(t.data[0]);
    }
  }

  lemma {:induction false} ApplyAllFails(h: Header, ts: seq<Tlv>)
    ensures ApplyAll(h, ts).err == FirstFault(ts)
    decreases ts
  {
    if ts != [] {
      ApplyFails(h, ts[0]);
      if Fault(ts[0]) == NoError {
        ApplyAllFails(Apply(h, ts[0]).h, ts[1..]);
      }
    }
  }

  lemma {:induction false} NoFaultAnywhere(ts: seq<Tlv>)
    ensures FirstFault(ts) == NoError <==> forall k :: 0 <= k < |ts| ==> Fault(ts[k]) == NoError
  {
    if ts != [] {
      NoFaultAnywhere(ts[1..]);
      assert forall k :: 1 <= k < |ts| ==> ts[k] == ts[1..][k - 1];
    }
  }

  /** A template is converted exactly if each of its items is acceptable on its own; otherwise the first
      item that is not decides the error. */
  lemma {:induction false} AcceptedExactly(s: string, ts: seq<Tlv>)
    requires |s| % 2 == 0 && FitsTemplate(ts) && Template(ts) <= FromHex(s)
    ensures Convert(s).0 == FirstFault(ts)
    ensures Convert(s).1.Some? <==> forall k :: 0 <= k < |ts| ==> Fault(ts[k]) == NoError
  {
    TemplateIsRead(FromHex(s), ts);
    ApplyAllFails(ZERO, ts);
    NoFaultAnywhere(ts);
  }

  /** What does not begin with a template is refused. */
  lemma OthersAreRefused(s: string)
    requires s == "" || |s| % 2 == 1 || FromHex(s)[0] != 0x62
    ensures Convert(s) == (Einval, None)
  {
  }

  // ----- what the converted response says -----

  datatype Kind = Directory | Transparent | LinearFixed(record: nat) | Cyclic(record: nat) | Reserved

  datatype File = File(kind: Kind, size: nat, id: nat)

  /** The descriptor of a file, with any sharing and any sort of elementary file
      (section 11.1.1.4.3 of ETSI TS 102 221). */
  predicate Describes(data: seq<byte>, kind: Kind) {
    && |data| >= 2
    && match kind
       case Directory => IsDirectory(data[0])
       case Transparent => IsElementary(data[0]) && data[0] % 8 == 1
       case LinearFixed(r) => IsElementary(data[0]) && data[0] % 8 == 2 && |data| >= 5 && Be16(data[2], data[3]) == r
       case Cyclic(r) => IsElementary(data[0]) && data[0] % 8 == 6 && |data| >= 5 && Be16(data[2], data[3]) == r
       case Reserved => !IsElementary(data[0]) && !IsDirectory(data[0])
  }

  function Be16(high: int, low: int): int { high * 256 + low }

  function Two(n: nat): (b: seq<byte>)
    requires n < 0x1_0000
  {
    [n / 256, n % 256]
  }

  /** The response that section 9.2.1 of 3GPP TS 51.011 lays down for a file. Its record length is one byte. */
  function Image(f: File): (b: seq<byte>)
    requires f.size < 0x1_0000 && f.id < 0x1_0000
  {
    [0, 0] + Two(f.size) + Two(f.id) +
    match f.kind
    case Directory => [2, 0, 0, 0, 0, 0, 0, 0, 0]
    case Transparent => [4, 0, 0, 0, 0, 1, 1, 0, 0]
    case LinearFixed(r) => [4, 0, 0, 0, 0, 1, 2, 1, r % 256]
    case Cyclic(r) => [4, 0, 0, 0, 0, 1, 2, 3, r % 256]
    case Reserved => [0, 0, 0, 0, 0, 0, 0, 0, 0]
  }

  predicate Has(ts: seq<Tlv>, tag: byte) { exists k :: 0 <= k < |ts| && ts[k].tag == tag }

  /** Every item with this tag carries this data. */
  predicate Carries(ts: seq<Tlv>, tag: byte, data: seq<byte>) {
    forall k :: 0 <= k < |ts| && ts[k].tag == tag ==> ts[k].data == data
  }

  predicate AtMostOne(ts: seq<Tlv>, tag: byte) {
    forall j, k :: 0 <= j < k < |ts| && ts[j].tag == tag ==> ts[k].tag != tag
  }

  /** The items describe the file, in any order and with any other items in between. A size or an
      identifier that is not given is zero, as for a directory, which has no size. */
  predicate Tells(ts: seq<Tlv>, f: File) {
    && f.size < 0x1_0000 && f.id < 0x1_0000
    && (Has(ts, 0x80) || f.size == 0) && Carries(ts, 0x80, Two(f.size))
    && (Has(ts, 0x83) || f.id == 0) && Carries(ts, 0x83, Two(f.id))
    && AtMostOne(ts, 0x82) && exists k :: 0 <= k < |ts| && ts[k].tag == 0x82 && Describes(ts[k].data, f.kind)
  }

  function WithSize(h: Header, n: nat): Header
    requires n < 0x1_0000
  {
    h.(size := (n / 256, n % 256))
  }

  function WithId(h: Header, n: nat): Header
    requires n < 0x1_0000
  {
    h.(id := (n / 256, n % 256))
  }

  /** The header once every item has been applied, field by field. */
  function Collected(h: Header, ts: seq<Tlv>, f: File, data: seq<byte>): Header
    requires f.size < 0x1_0000 && f.id < 0x1_0000
  {
    var h1 := if Has(ts, FILE_SIZE) then WithSize(h, f.size) else h;
    var h2 := if Has(ts, FILE_ID) then WithId(h1, f.id) else h1;
    if Has(ts, DESCRIPTOR) then Describe(h2, data).h else h2
  }

  lemma HasSplits(ts: seq<Tlv>, tag: byte)
    requires ts != []
    ensures Has(ts, tag) <==> ts[0].tag == tag || Has(ts[1..], tag)
  {
    if Has(ts, tag) && ts[0].tag != tag {
      var k :| 0 <= k < |ts| && ts[k].tag == tag;
      assert ts[1..][k - 1].tag == tag;
    }
    if Has(ts[1..], tag) {
      var k :| 0 <= k < |ts[1..]| && ts[1..][k].tag == tag;
      assert ts[k + 1].tag == tag;
    }
  }

  lemma DescribeCommutes(h: Header, data: seq<byte>, f: File)
    requires f.size < 0x1_0000 && f.id < 0x1_0000
    ensures Describe(WithSize(h, f.size), data).h == WithSize(Describe(h, data).h, f.size)
    ensures Describe(WithId(h, f.id), data).h == WithId(Describe(h, data).h, f.id)
  {
  }

  lemma {:induction false} ItemsCollect(h: Header, ts: seq<Tlv>, f: File, data: seq<byte>)
    requires f.size < 0x1_0000 && f.id < 0x1_0000 && FirstFault(ts) == NoError
    requires Carries(ts, FILE_SIZE, Two(f.size)) && Carries(ts, FILE_ID, Two(f.id)) && Carries(ts, DESCRIPTOR, data)
    requires AtMostOne(ts, DESCRIPTOR)
    ensures ApplyAll(h, ts) == Outcome(NoError, Collected(h, ts, f, data))
    decreases ts
  {
    if ts != [] {
      ApplyFails(h, ts[0]);
      HasSplits(ts, FILE_SIZE);
      HasSplits(ts, FILE_ID);
      HasSplits(ts, DESCRIPTOR);
      ItemsCollect(Apply(h, ts[0]).h, ts[1..], f, data);
      DescribeCommutes(h, data, f);
      DescribeCommutes(WithSize(h, f.size), data, f);
    }
  }

  lemma DescriptorMeans(h: Header, data: seq<byte>, f: File)
    requires f.size < 0x1_0000 && f.id < 0x1_0000 && Describes(data, f.kind)
    requires h == WithId(WithSize(ZERO, f.size), f.id)
    ensures Layout(Describe(h, data).h) == Image(f) && Fault(Tlv(DESCRIPTOR, data)) == NoError
  {
    BitsMean(data[0]);
  }

  /** A file described item by item, in any order, with unknown items in between and anything after the
      template, in upper or lower case hex, is converted to its response. */
  lemma {:induction false} FileIsConverted(s: string, ts: seq<Tlv>, f: File)
    requires |s| % 2 == 0 && FitsTemplate(ts) && Template(ts) <= FromHex(s) && Tells(ts, f)
    ensures Convert(s) == (NoError, Some(ToHex(Image(f)))) && FromHex(ToHex(Image(f))) == Image(f)
  {
    var k :| 0 <= k < |ts| && ts[k].tag == DESCRIPTOR && Describes(ts[k].data, f.kind);
    var data := ts[k].data;
    DescriptorMeans(WithId(WithSize(ZERO, f.size), f.id), data, f);
    forall j | 0 <= j < |ts|
      ensures Fault(ts[j]) == NoError
    {
      if ts[j].tag == DESCRIPTOR {
        assert j == k;
      }
    }
    NoFaultAnywhere(ts);
    ItemsCollect(ZERO, ts, f, data);
    assert WithSize(ZERO, 0) == ZERO && WithId(WithSize(ZERO, f.size), 0) == WithSize(ZERO, f.size);
    TemplateIsRead(FromHex(s), ts);
    HexRoundTrip(Image(f));
  }

  /** The response has one byte for the record length, so by `FileIsConverted` the length that a header
      gives comes out of the conversion exactly if it is below 256. */
  lemma RecordLengthIsKept(f: File, r: nat)
    requires f.size < 0x1_0000 && f.id < 0x1_0000 && (f.kind == LinearFixed(r) || f.kind == Cyclic(r))
    ensures |Image(f)| == 15 && (Image(f)[14] == r <==> r < 256)
  {
  }

  /** The header of a file with records of 256 bytes. */
  function LongRecords(): (ts: seq<Tlv>) { [Tlv(0x82, [0x42, 0x21, 0x01, 0x00, 0x05])] }

  lemma LongRecordsTell()
    ensures FitsTemplate(LongRecords()) && Tells(LongRecords(), File(LinearFixed(256), 0, 0))
  {
    var ts := LongRecords();
    assert ts[1..] == [] && Items(ts) == Item(ts[0]);
    assert ts[0].tag == DESCRIPTOR && Describes(ts[0].data, LinearFixed(256));
  }

  lemma ConvertedFromHex(ts: seq<Tlv>, f: File)
    requires FitsTemplate(ts) && Tells(ts, f)
    ensures Convert(ToHex(Template(ts))) == (NoError, Some(ToHex(Image(f))))
  {
    HexRoundTrip(Template(ts));
    FileIsConverted(ToHex(Template(ts)), ts, f);
  }

  /** It is converted to a response with record length 0. */
  lemma LongRecordsAreCutShort()
    ensures FitsTemplate(LongRecords())
    ensures var f := File(LinearFixed(256), 0, 0);
            Convert(ToHex(Template(LongRecords()))) == (NoError, Some(ToHex(Image(f)))) && Image(f)[14] == 0
  {
    LongRecordsTell();
    ConvertedFromHex(LongRecords(), File(LinearFixed(256), 0, 0));
    RecordLengthIsKept(File(LinearFixed(256), 0, 0), 256);
  }
}
