/** Bit masks on a file descriptor byte and the fields they stand for. */
module ByteBits {
  predicate IsByte(x: int) { 0 <= x < 256 }

  function Bits(fd: int, mask: bv8): bv8
    requires IsByte(fd)
  {
    (fd as bv8) & mask
  }

  /** Bits 6 to 4 of a file descriptor byte are 000 or 001 and bit 8 is 0: an elementary file (table 11.5 of ETSI TS 102 221). */
  predicate IsElementary(fd: int) { fd < 128 && fd / 16 % 4 == 0 }

  /** Bits 6 to 1 are 111000 and bit 8 is 0: a dedicated file. */
  predicate IsDirectory(fd: int) { fd < 128 && fd % 64 == 0x38 }

  lemma MasksMean(b: bv8)
    ensures b & 0xBF == 0x38 <==> b == 0x38 || b == 0x78
    ensures b & 0xB0 == 0 <==> b < 16 || 64 <= b < 80
  {
  }

  lemma OrderIsKept(b: bv8)
    ensures b == 0x38 <==> b as int == 0x38
    ensures b == 0x78 <==> b as int == 0x78
    ensures b < 16 <==> b as int < 16
    ensures 64 <= b <==> 64 <= b as int
    ensures b < 80 <==> b as int < 80
  {
  }

  lemma ValueIsKept(b: bv8)
    ensures ((b as int) as bv8) == b
  {
  }

  lemma OneMore(b: bv8)
    requires b < 255
    ensures (b + 1) as int == b as int + 1
  {
  }

  lemma {:induction false} EveryByte(fd: int) returns (b: bv8)
    requires IsByte(fd)
    ensures b as int == fd
  {
    if fd == 0 {
      b := 0;
    } else {
      var c := EveryByte(fd - 1);
      OneMore(c);
      b := c + 1;
    }
  }

  lemma ByteIsKept(fd: int)
    requires IsByte(fd)
    ensures (fd as bv8) as int == fd
  {
    var b := EveryByte(fd);
    ValueIsKept(b);
  }

  lemma LowBitsMean(b: bv8)
    ensures (b & 0x07) as int == b as int % 8
  {
  }

  lemma StructureMeans(fd: int, n: bv8)
    requires IsByte(fd) && n < 8
    ensures Bits(fd, 0x07) == n <==> fd % 8 == n as int
  {
    LowBitsMean(fd as bv8);
    ByteIsKept(fd);
  }

  lemma {:induction false} BitsMean(fd: int)
    requires IsByte(fd)
    ensures Bits(fd, 0xBF) == 0x38 <==> IsDirectory(fd)
    ensures Bits(fd, 0xB0) == 0 <==> IsElementary(fd)
    ensures Bits(fd, 0x07) == 1 <==> fd % 8 == 1
    ensures Bits(fd, 0x07) == 2 <==> fd % 8 == 2
    ensures Bits(fd, 0x07) == 6 <==> fd % 8 == 6
  {
    MasksMean(fd as bv8);
    OrderIsKept(fd as bv8);
    ByteIsKept(fd);
    StructureMeans(fd, 1);
    StructureMeans(fd, 2);
    StructureMeans(fd, 6);
  }
}
