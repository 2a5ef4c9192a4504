/** The ROM word bit by bit, in the flash and in a register. */
module RomWord {
  import opened Bits
  import opened Microcode
  import opened Machine

  /** The operations in the order of their numbers. */
  const OPERATIONS := [Mov, InvMov, CapIn, GetIn, PrgNand, PushOut, Raise, Erase]

  /** The fields of a word, lowest bit first: the next address in bits 0 to 19, the source in 20
      to 39, the destination in 40 to 59, one unused bit, and the operation in 61 to 63. */
  ghost predicate Layout(bits: seq<bool>, i: Instr) {
    |bits| == 64 &&
    (forall k: nat | k < 20 :: bits[k] == BitAt(i.next, k)) &&
    (forall k: nat | k < 20 :: bits[20 + k] == BitAt(i.from, k)) &&
    (forall k: nat | k < 20 :: bits[40 + k] == BitAt(i.dest, k)) &&
    OPERATIONS[ToNat(bits[61..])] == i.op
  }

  /** The bits of a word stored from its lowest byte on. */
  function Stored(bytes: seq<byte>, at: nat): (bits: seq<bool>)
    requires at + 8 <= |bytes|
    ensures |bits| == 64
  {
    seq(64, p requires 0 <= p < 64 && at + 8 <= |bytes| => BitAt(bytes[at + p / 8], p % 8))
  }

  lemma {:induction false} FieldSizes()
    ensures Pow2(20) == FIELD && Pow2(40) == FIELD * FIELD && Pow2(61) == 0x2000_0000_0000_0000
  {
    Pow2Byte(0);
    Pow2Byte(8);
    assert Pow2(20) == 16 * Pow2(16) by {
      assert Pow2(18) == 2 * Pow2(17) && Pow2(17) == 2 * Pow2(16);
    }
    Pow2Byte(20);
    Pow2Byte(28);
    assert Pow2(40) == 16 * Pow2(36) by {
      assert Pow2(38) == 2 * Pow2(37) && Pow2(37) == 2 * Pow2(36);
    }
    Pow2Byte(40);
    Pow2Byte(48);
    assert Pow2(61) == 32 * Pow2(56) by {
      assert Pow2(58) == 2 * Pow2(57) && Pow2(57) == 2 * Pow2(56) && Pow2(60) == 2 * Pow2(59);
    }
  }

  /** A field of twenty bits. */
  lemma {:induction false} FieldAt(w: nat, n: nat, k: nat)
    requires k < 20
    ensures BitAt(ShiftRight(w, n) % FIELD, k) == BitAt(w, n + k)
  {
    FieldSizes();
    LowBits(ShiftRight(w, n), 20, k);
    ShiftRightAt(w, n, k);
  }

  lemma {:induction false} FieldsShift(w: nat)
    ensures ShiftRight(w, 0) == w && ShiftRight(w, 20) == w / 0x10_0000 && ShiftRight(w, 40) == w / 0x100_0000_0000
    ensures ShiftRight(w, 61) == w / 0x2000_0000_0000_0000
  {
    FieldSizes();
    ShiftRightDivides(w, 20);
    ShiftRightDivides(w, 40);
    ShiftRightDivides(w, 61);
  }

  /** The number of an operation in three bits. */
  lemma {:induction false} TopBits(w: u64)
    ensures ToNat(FromNat(w, 64)[61..]) == w / 0x2000_0000_0000_0000
  {
    FieldsShift(w);
    var c, top := ShiftRight(w, 61), FromNat(w, 64)[61..];
    assert Pow2(3) == 8 by { assert Pow2(1) == 2 && Pow2(2) == 4; }
    forall k: nat | k < 3 ensures top[k] == FromNat(c, 3)[k] {
      FromNatAt(w, 64, 61 + k);
      FromNatAt(c, 3, k);
      ShiftRightAt(w, 61, k);
    }
    assert top == FromNat(c, 3);
    ToFromNat(c, 3);
  }

  /** The three fields and the operation of any word are read from where the layout has them;
      the unused bit does not matter. */
  lemma {:induction false} DecodeReads(w: u64)
    ensures Layout(FromNat(w, 64), Decode(w))
  {
    hide BitAt, Pow2, ShiftRight, ToNat, FromNat;
    TopBits(w);
    FieldsShift(w);
    forall k: nat | k < 20
      ensures FromNat(w, 64)[k] == BitAt(Decode(w).next, k)
      ensures FromNat(w, 64)[20 + k] == BitAt(Decode(w).from, k)
      ensures FromNat(w, 64)[40 + k] == BitAt(Decode(w).dest, k)
    {
      FromNatAt(w, 64, k);
      FromNatAt(w, 64, 20 + k);
      FromNatAt(w, 64, 40 + k);
      FieldAt(w, 0, k);
      FieldAt(w, 20, k);
      FieldAt(w, 40, k);
    }
  }

  lemma {:induction false} UnusedIsZero(i: Instr)
    requires Fits(i)
    ensures !BitAt(Encode(i), 60)
  {
    var w, d, c := Encode(i), 0x1000_0000_0000_0000, OpCode(i.op);
    assert Pow2(60) == d by {
      FieldSizes();
    }
    Quotient(w, d, 2 * c, i.dest * 0x100_0000_0000 + i.from * 0x10_0000 + i.next);
    ShiftRightDivides(w, 60);
    ShiftRightAt(w, 60, 0);
    assert ShiftRight(w, 60) == 2 * c;
  }

  /** The word of an instruction has its layout, and the unused bit is 0. */
  lemma {:induction false} EncodeLaysOut(i: Instr)
    requires Fits(i)
    ensures Layout(FromNat(Encode(i), 64), i) && !BitAt(Encode(i), 60)
  {
    hide Layout, ToNat, FromNat;
    DecodeEncode(i);
    DecodeReads(Encode(i));
    UnusedIsZero(i);
  }

  lemma {:induction false} SameTail(bits: seq<bool>, bits': seq<bool>, i: Instr)
    requires Layout(bits, i) && Layout(bits', i)
    ensures bits[61..] == bits'[61..]
  {
    var x, y := ToNat(bits[61..]), ToNat(bits'[61..]);
    assert Pow2(3) == 8 by { assert Pow2(1) == 2 && Pow2(2) == 4; }
    assert x == y;
    FromToNat(bits[61..]);
    FromToNat(bits'[61..]);
  }

  lemma {:induction false} SameLayout(bits: seq<bool>, bits': seq<bool>, i: Instr)
    requires Layout(bits, i) && Layout(bits', i) && bits[60] == bits'[60]
    ensures bits == bits'
  {
    SameTail(bits, bits', i);
    assert bits[..20] == bits'[..20];
    assert bits[20..40] == bits'[20..40] by {
      forall k: nat | k < 20 ensures bits[20..40][k] == bits'[20..40][k] {
        assert bits[20 + k] == BitAt(i.from, k) == bits'[20 + k];
      }
    }
    assert bits[40..60] == bits'[40..60] by {
      forall k: nat | k < 20 ensures bits[40..60][k] == bits'[40..60][k] {
        assert bits[40 + k] == BitAt(i.dest, k) == bits'[40 + k];
      }
    }
    assert bits == bits[..20] + bits[20..40] + bits[40..60] + [bits[60]] + bits[61..];
    assert bits' == bits'[..20] + bits'[20..40] + bits'[40..60] + [bits'[60]] + bits'[61..];
  }

  /** The layout determines the word. */
  lemma {:induction false} EncodeIffLayout(i: Instr, w: u64)
    requires Fits(i)
    ensures w == Encode(i) <==> Layout(FromNat(w, 64), i) && !BitAt(w, 60)
  {
    EncodeLaysOut(i);
    if Layout(FromNat(w, 64), i) && !BitAt(w, 60) {
      FromNatAt(w, 64, 60);
      FromNatAt(Encode(i), 64, 60);
      SameLayout(FromNat(w, 64), FromNat(Encode(i), 64), i);
      Pow2Of64();
      ToFromNat(w, 64);
      ToFromNat(Encode(i), 64);
    }
  }

  // ----- bytes

  /** Byte b of a stored number holds its bits 8b to 8b + 7. */
  lemma {:induction false} ByteAt(w: nat, n: nat, b: nat, k: nat)
    requires b < n && k < 8
    ensures BitAt(ToBytes(w, n)[b], k) == BitAt(w, 8 * b + k)
  {
    assert Pow2(8) == 256 by { Pow2Byte(0); }
    if b == 0 {
      LowBits(w, 8, k);
    } else {
      ShiftRightDivides(w, 8);
      ByteAt(w / 256, n - 1, b - 1, k);
      ShiftRightAt(w, 8, 8 * (b - 1) + k);
    }
  }

  /** And bits 8b to 8b + 7 of a number read from memory are byte b. */
  lemma {:induction false} FromBytesAt(bs: seq<byte>, b: nat, k: nat)
    requires b < |bs| && k < 8
    ensures BitAt(FromBytes(bs), 8 * b + k) == BitAt(bs[b], k)
  {
    assert Pow2(8) == 256 by { Pow2Byte(0); }
    var low, high, w := bs[0], FromBytes(bs[1..]), FromBytes(bs);
    Quotient(w, 256, high, low);
    if b == 0 {
      LowBits(w, 8, k);
    } else {
      ShiftRightDivides(w, 8);
      ShiftRightAt(w, 8, 8 * (b - 1) + k);
      FromBytesAt(bs[1..], b - 1, k);
    }
  }

  lemma {:induction false} FromBytesBelow(bs: seq<byte>)
    ensures FromBytes(bs) < Pow2(8 * |bs|)
  {
    if bs != [] {
      Pow2Byte(8 * (|bs| - 1));
      FromBytesBelow(bs[1..]);
    }
  }

  /** The bytes of a word hold its bits in order. */
  lemma {:induction false} StoredWord(bytes: seq<byte>, at: nat, w: nat)
    requires at + 8 <= |bytes| && bytes[at..at + 8] == ToBytes(w, 8)
    ensures Stored(bytes, at) == FromNat(w, 64)
  {
    hide BitAt, ToBytes, FromNat;
    forall p: nat | p < 64 ensures Stored(bytes, at)[p] == FromNat(w, 64)[p] {
      assert bytes[at + p / 8] == ToBytes(w, 8)[p / 8];
      ByteAt(w, 8, p / 8, p % 8);
      FromNatAt(w, 64, p);
    }
  }

  lemma {:induction false} WordOfImage(rom: seq<Instr>, i: nat)
    requires 8 * |rom| <= ROM_SIZE && (forall j | 0 <= j < |rom| :: Fits(rom[j])) && i < |rom|
    ensures Image(rom)[8 * i..8 * i + 8] == ToBytes(Encode(rom[i]), 8)
  {
    hide ToBytes, Encode;
    forall b: nat | b < 8 ensures Image(rom)[8 * i..8 * i + 8][b] == ToBytes(Encode(rom[i]), 8)[b] {
      assert (8 * i + b) / 8 == i && (8 * i + b) % 8 == b;
    }
  }

  /** Instruction i of a program is laid out in the bytes 8i to 8i + 7 of its image. */
  lemma {:induction false} ImageLaysOut(rom: seq<Instr>, i: nat)
    requires 8 * |rom| <= ROM_SIZE && (forall j | 0 <= j < |rom| :: Fits(rom[j])) && i < |rom|
    ensures Layout(Stored(Image(rom), 8 * i), rom[i]) && !Stored(Image(rom), 8 * i)[60]
  {
    hide Layout, Stored, Image, ToBytes, Encode, FromNat, BitAt;
    EncodeLaysOut(rom[i]);
    WordOfImage(rom, i);
    StoredWord(Image(rom), 8 * i, Encode(rom[i]));
    FromNatAt(Encode(rom[i]), 64, 60);
  }

  lemma {:induction false} ReadWord(bytes: seq<byte>, at: nat)
    requires at + 8 <= |bytes|
    ensures FromBytes(bytes[at..at + 8]) < U64 && Stored(bytes, at) == FromNat(FromBytes(bytes[at..at + 8]), 64)
  {
    hide BitAt, FromBytes, FromNat, Pow2;
    var bs := bytes[at..at + 8];
    FromBytesBelow(bs);
    Pow2Of64();
    forall p: nat | p < 64 ensures Stored(bytes, at)[p] == FromNat(FromBytes(bs), 64)[p] {
      assert bytes[at + p / 8] == bs[p / 8];
      FromBytesAt(bs, p / 8, p % 8);
      FromNatAt(FromBytes(bs), 64, p);
    }
  }

  /** Any eight bytes are decoded by the layout. */
  lemma {:induction false} BytesDecode(bytes: seq<byte>, at: nat)
    requires at + 8 <= |bytes|
    ensures Layout(Stored(bytes, at), Decode(FromBytes(bytes[at..at + 8])))
  {
    ReadWord(bytes, at);
    DecodeReads(FromBytes(bytes[at..at + 8]));
  }
}
