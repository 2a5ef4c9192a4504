/** Four-bit transfers over scattered pins: bytes become words for a wide output, and come
    back as samples of all pins. */
module Quad {
  import opened Bits
  import opened Machine

  const SPAN := 22  // width of the output, from the pin of IO3 upward

  /** The data pins of a chip. */
  datatype Pins = Pins(io0: nat, io1: nat, io2: nat, io3: nat) {
    /** Distinct pins, all inside the span that starts at IO3. */
    predicate Valid() {
      io3 < io0 < io3 + SPAN && io3 < io1 < io3 + SPAN && io3 < io2 < io3 + SPAN &&
      io0 != io1 && io0 != io2 && io1 != io2
    }

    predicate Owns(pin: nat) {
      pin == io0 || pin == io1 || pin == io2 || pin == io3
    }

    predicate InSpan(pin: nat) {
      io3 <= pin < io3 + SPAN
    }
  }

  /** The pins that hold /WP and /HOLD of another chip stay clear of this one. */
  predicate Clear(p: Pins, others: seq<Pins>) {
    forall i | 0 <= i < |others| :: !p.Owns(others[i].io2) && !p.Owns(others[i].io3)
  }

  // ----- words and samples

  /** The word that puts a nibble on the data pins. */
  function Word(v: nat, p: Pins): nat
    requires p.Valid()
  {
    OrBits(OrBits(OrBits(ShiftLeft(v % 2, p.io0 - p.io3), ShiftLeft(ShiftRight(v, 1) % 2, p.io1 - p.io3)),
                  ShiftLeft(ShiftRight(v, 2) % 2, p.io2 - p.io3)),
           ShiftLeft(ShiftRight(v, 3) % 2, 0))
  }

  function Mark(hi: nat, p: Pins, pin: nat): nat {
    if p.InSpan(pin) then OrBits(hi, ShiftLeft(1, pin - p.io3)) else hi
  }

  /** The /WP and /HOLD pins of the other chips, as far as the span covers them. */
  function Held(p: Pins, others: seq<Pins>): nat {
    if others == [] then 0
    else Mark(Mark(Held(p, others[..|others| - 1]), p, others[|others| - 1].io2), p, others[|others| - 1].io3)
  }

  function Nibble(data: seq<byte>, j: nat): nat
    requires j < 2 * |data|
  {
    if j % 2 == 0 then data[j / 2] / 16 else data[j / 2] % 16
  }

  /** The words for a string of bytes: two each, the high nibble first. */
  function Words(data: seq<byte>, p: Pins, others: seq<Pins>): (ws: seq<nat>)
    requires p.Valid()
    ensures |ws| == 2 * |data|
  {
    seq(2 * |data|, j requires 0 <= j < 2 * |data| && p.Valid() => OrBits(Word(Nibble(data, j), p), Held(p, others)))
  }

  /** A sample of all pins while a word is out: bit k is on pin IO3 + k, other pins show anything. */
  ghost predicate Placed(sample: nat, word: nat, p: Pins) {
    forall k | 0 <= k < SPAN :: BitAt(sample, p.io3 + k) == BitAt(word, k)
  }

  function PinBit(sample: nat, pin: nat, at: nat): nat {
    ShiftLeft(ShiftRight(sample, pin) % 2, at)
  }

  function NibbleOf(sample: nat, p: Pins): nat {
    OrBits(OrBits(OrBits(PinBit(sample, p.io0, 0), PinBit(sample, p.io1, 1)), PinBit(sample, p.io2, 2)),
           PinBit(sample, p.io3, 3))
  }

  /** The byte extracted from two samples. */
  function ByteOf(first: nat, second: nat, p: Pins): nat {
    OrBits(ShiftLeft(NibbleOf(first, p), 4), NibbleOf(second, p))
  }

  // ----- bit by bit

  lemma {:induction false} LowBit(x: nat, k: nat)
    ensures BitAt(x % 2, k) == (k == 0 && BitAt(x, 0))
  {
    if k > 0 {
      ZeroHasNoBits(k - 1);
    }
  }

  /** One shifted bit. */
  lemma {:induction false} MovedBit(x: nat, n: nat, k: nat)
    ensures BitAt(ShiftLeft(x % 2, n), k) == (k == n && BitAt(x, 0))
  {
    ShiftLeftAt(x % 2, n, k);
    if k >= n {
      LowBit(x, k - n);
    }
  }

  lemma {:induction false} WordAt(v: nat, p: Pins, k: nat)
    requires p.Valid()
    ensures BitAt(Word(v, p), k) ==
            ((k == p.io0 - p.io3 && BitAt(v, 0)) || (k == p.io1 - p.io3 && BitAt(v, 1)) ||
             (k == p.io2 - p.io3 && BitAt(v, 2)) || (k == 0 && BitAt(v, 3)))
  {
    var a, b := ShiftLeft(v % 2, p.io0 - p.io3), ShiftLeft(ShiftRight(v, 1) % 2, p.io1 - p.io3);
    var c, d := ShiftLeft(ShiftRight(v, 2) % 2, p.io2 - p.io3), ShiftLeft(ShiftRight(v, 3) % 2, 0);
    MovedBit(v, p.io0 - p.io3, k);
    MovedBit(ShiftRight(v, 1), p.io1 - p.io3, k);
    MovedBit(ShiftRight(v, 2), p.io2 - p.io3, k);
    MovedBit(ShiftRight(v, 3), 0, k);
    ShiftRightAt(v, 1, 0);
    ShiftRightAt(v, 2, 0);
    ShiftRightAt(v, 3, 0);
    OrBitsAt(a, b, k);
    OrBitsAt(OrBits(a, b), c, k);
    OrBitsAt(OrBits(OrBits(a, b), c), d, k);
  }

  lemma {:induction false} MarkAt(hi: nat, p: Pins, pin: nat, k: nat)
    ensures BitAt(Mark(hi, p, pin), k) == (BitAt(hi, k) || (k < SPAN && p.io3 + k == pin))
  {
    if p.InSpan(pin) {
      OrBitsAt(hi, ShiftLeft(1, pin - p.io3), k);
      MovedBit(1, pin - p.io3, k);
    }
  }

  predicate HeldPin(others: seq<Pins>, pin: nat) {
    exists i :: 0 <= i < |others| && (others[i].io2 == pin || others[i].io3 == pin)
  }

  /** The held bits are exactly the other chips' /WP and /HOLD pins inside the span. */
  lemma {:induction false} HeldAt(p: Pins, others: seq<Pins>, k: nat)
    ensures BitAt(Held(p, others), k) <==> k < SPAN && HeldPin(others, p.io3 + k)
  {
    if others == [] {
      ZeroHasNoBits(k);
    } else {
      var rest, last := others[..|others| - 1], others[|others| - 1];
      HeldAt(p, rest, k);
      MarkAt(Held(p, rest), p, last.io2, k);
      MarkAt(Mark(Held(p, rest), p, last.io2), p, last.io3, k);
      HeldSnoc(others, p.io3 + k);
    }
  }

  lemma {:induction false} HeldSnoc(others: seq<Pins>, pin: nat)
    requires others != []
    ensures HeldPin(others, pin) <==>
            HeldPin(others[..|others| - 1], pin) || others[|others| - 1].io2 == pin || others[|others| - 1].io3 == pin
  {
  }

  lemma {:induction false} PinBitAt(sample: nat, pin: nat, at: nat, k: nat)
    ensures BitAt(PinBit(sample, pin, at), k) == (k == at && BitAt(sample, pin))
  {
    MovedBit(ShiftRight(sample, pin), at, k);
    ShiftRightAt(sample, pin, 0);
  }

  lemma {:induction false} NibbleOfAt(sample: nat, p: Pins, k: nat)
    ensures BitAt(NibbleOf(sample, p), k) ==
            ((k == 0 && BitAt(sample, p.io0)) || (k == 1 && BitAt(sample, p.io1)) ||
             (k == 2 && BitAt(sample, p.io2)) || (k == 3 && BitAt(sample, p.io3)))
  {
    var a, b := PinBit(sample, p.io0, 0), PinBit(sample, p.io1, 1);
    var c, d := PinBit(sample, p.io2, 2), PinBit(sample, p.io3, 3);
    PinBitAt(sample, p.io0, 0, k);
    PinBitAt(sample, p.io1, 1, k);
    PinBitAt(sample, p.io2, 2, k);
    PinBitAt(sample, p.io3, 3, k);
    OrBitsAt(a, b, k);
    OrBitsAt(OrBits(a, b), c, k);
    OrBitsAt(OrBits(OrBits(a, b), c), d, k);
  }

  lemma {:induction false} ByteOfAt(first: nat, second: nat, p: Pins, k: nat)
    ensures BitAt(ByteOf(first, second, p), k) ==
            if k < 4 then BitAt(NibbleOf(second, p), k) else BitAt(NibbleOf(first, p), k - 4)
  {
    OrBitsAt(ShiftLeft(NibbleOf(first, p), 4), NibbleOf(second, p), k);
    ShiftLeftAt(NibbleOf(first, p), 4, k);
    if k >= 4 {
      NibbleOfAt(second, p, k);
    }
  }

  /** The bits of the two nibbles of a byte. */
  lemma {:induction false} NibbleBits(x: nat, k: nat)
    requires k < 4
    ensures BitAt(x / 16, k) == BitAt(x, k + 4) && BitAt(x % 16, k) == BitAt(x, k)
  {
    assert x / 16 == x / 2 / 2 / 2 / 2;
    assert BitAt(x, k + 4) == BitAt(x / 2, k + 3) == BitAt(x / 2 / 2, k + 2);
    assert BitAt(x / 2 / 2, k + 2) == BitAt(x / 2 / 2 / 2, k + 1) == BitAt(x / 2 / 2 / 2 / 2, k);
    assert Pow2(4) == 16;
    LowBits(x, 4, k);
  }

  // ----- the round trip

  /** What the receiver sees of one word, nibble bit by nibble bit. */
  lemma {:induction false} NibbleArrives(v: nat, p: Pins, others: seq<Pins>, sample: nat, k: nat)
    requires p.Valid() && k < 4 && Placed(sample, OrBits(Word(v, p), Held(p, others)), p)
    ensures var pin := if k == 0 then p.io0 else if k == 1 then p.io1 else if k == 2 then p.io2 else p.io3;
            BitAt(NibbleOf(sample, p), k) == (BitAt(v, k) || HeldPin(others, pin))
  {
    var pin := if k == 0 then p.io0 else if k == 1 then p.io1 else if k == 2 then p.io2 else p.io3;
    var at := pin - p.io3;
    NibbleOfAt(sample, p, k);
    assert BitAt(sample, p.io3 + at) == BitAt(OrBits(Word(v, p), Held(p, others)), at);
    OrBitsAt(Word(v, p), Held(p, others), at);
    WordAt(v, p, at);
    HeldAt(p, others, at);
  }

  lemma {:induction false} OrBelow(x: nat, y: nat, w: nat)
    requires x < Pow2(w) && y < Pow2(w)
    ensures OrBits(x, y) < Pow2(w)
  {
    if x != 0 {
      OrBelow(x / 2, y / 2, w - 1);
    }
  }

  lemma {:induction false} ShiftLeftBelow(x: nat, n: nat, w: nat)
    requires x < Pow2(w)
    ensures ShiftLeft(x, n) < Pow2(w + n)
  {
    if n > 0 {
      ShiftLeftBelow(x, n - 1, w);
    }
  }

  lemma {:induction false} NibbleBelow(sample: nat, p: Pins)
    ensures NibbleOf(sample, p) < Pow2(4)
  {
    var a, b := PinBit(sample, p.io0, 0), PinBit(sample, p.io1, 1);
    var c, d := PinBit(sample, p.io2, 2), PinBit(sample, p.io3, 3);
    assert Pow2(1) == 2 && Pow2(2) == 4 && Pow2(3) == 8 && Pow2(4) == 16;
    ShiftLeftBelow(ShiftRight(sample, p.io0) % 2, 0, 1);
    ShiftLeftBelow(ShiftRight(sample, p.io1) % 2, 1, 1);
    ShiftLeftBelow(ShiftRight(sample, p.io2) % 2, 2, 1);
    ShiftLeftBelow(ShiftRight(sample, p.io3) % 2, 3, 1);
    OrBelow(a, b, 4);
    OrBelow(OrBits(a, b), c, 4);
    OrBelow(OrBits(OrBits(a, b), c), d, 4);
  }

  lemma {:induction false} ByteBelow(first: nat, second: nat, p: Pins)
    ensures ByteOf(first, second, p) < 256 == Pow2(8)
  {
    NibbleBelow(first, p);
    NibbleBelow(second, p);
    Pow2Byte(0);
    assert Pow2(4) == 16;
    ShiftLeftBelow(NibbleOf(first, p), 4, 4);
    OrBelow(ShiftLeft(NibbleOf(first, p), 4), NibbleOf(second, p), 8);
  }

  /** A byte arrives as it was sent. */
  lemma {:induction false} ByteArrives(x: byte, p: Pins, others: seq<Pins>, first: nat, second: nat)
    requires p.Valid() && Clear(p, others)
    requires Placed(first, OrBits(Word(x / 16, p), Held(p, others)), p)
    requires Placed(second, OrBits(Word(x % 16, p), Held(p, others)), p)
    ensures ByteOf(first, second, p) == x
  {
    ByteBelow(first, second, p);
    forall k | 0 <= k < 8 ensures BitAt(ByteOf(first, second, p), k) == BitAt(x, k) {
      ByteOfAt(first, second, p, k);
      if k < 4 {
        NibbleArrives(x % 16, p, others, second, k);
        NibbleBits(x, k);
      } else {
        NibbleArrives(x / 16, p, others, first, k - 4);
        NibbleBits(x, k - 4);
      }
    }
    SameBits(ByteOf(first, second, p), x, 8);
  }

  ghost predicate AllPlaced(samples: seq<nat>, words: seq<nat>, p: Pins) {
    |samples| == |words| && forall j | 0 <= j < |words| :: Placed(samples[j], words[j], p)
  }

  /** Every string of bytes arrives as it was sent. */
  lemma {:induction false} BytesArrive(data: seq<byte>, p: Pins, others: seq<Pins>, samples: seq<nat>, i: nat)
    requires p.Valid() && Clear(p, others) && AllPlaced(samples, Words(data, p, others), p) && i < |data|
    ensures ByteOf(samples[2 * i], samples[2 * i + 1], p) == data[i]
  {
    assert Placed(samples[2 * i], Words(data, p, others)[2 * i], p);
    assert Placed(samples[2 * i + 1], Words(data, p, others)[2 * i + 1], p);
    ByteArrives(data[i], p, others, samples[2 * i], samples[2 * i + 1]);
  }

  /** If another chip's /WP or /HOLD is one of the data pins, the byte 0 does not arrive. */
  lemma {:induction false} ClashCorrupts(p: Pins, others: seq<Pins>, first: nat, second: nat)
    requires p.Valid() && !Clear(p, others) && Placed(second, OrBits(Word(0, p), Held(p, others)), p)
    ensures ByteOf(first, second, p) != 0
  {
    var i :| 0 <= i < |others| && (p.Owns(others[i].io2) || p.Owns(others[i].io3));
    var pin := if p.Owns(others[i].io2) then others[i].io2 else others[i].io3;
    var k := if pin == p.io0 then 0 else if pin == p.io1 then 1 else if pin == p.io2 then 2 else 3;
    assert HeldPin(others, pin);
    NibbleArrives(0, p, others, second, k);
    ByteOfAt(first, second, p, k);
    ZeroHasNoBits(k);
  }

  /** The word for one half of a byte. */
  function HalfWord(x: byte, high: bool, p: Pins, others: seq<Pins>): nat
    requires p.Valid()
  {
    OrBits(Word(if high then x / 16 else x % 16, p), Held(p, others))
  }

  /** Every byte arrives, whatever the pins outside the span show. */
  ghost predicate Faithful(p: Pins, others: seq<Pins>)
    requires p.Valid()
  {
    forall x: byte, first: nat, second: nat ::
      Placed(first, HalfWord(x, true, p, others), p) && Placed(second, HalfWord(x, false, p, others), p) ==>
        ByteOf(first, second, p) == x
  }

  lemma {:induction false} ShiftedIsPlaced(word: nat, p: Pins)
    ensures Placed(ShiftLeft(word, p.io3), word, p)
  {
    forall k | 0 <= k < SPAN ensures BitAt(ShiftLeft(word, p.io3), p.io3 + k) == BitAt(word, k) {
      ShiftLeftAt(word, p.io3, p.io3 + k);
    }
  }

  /** The transfer is faithful exactly when no other chip's /WP or /HOLD is one of the data pins. */
  lemma {:induction false} FaithfulIffClear(p: Pins, others: seq<Pins>)
    requires p.Valid()
    ensures Faithful(p, others) <==> Clear(p, others)
  {
    if Clear(p, others) {
      forall x: byte, first: nat, second: nat |
        Placed(first, HalfWord(x, true, p, others), p) && Placed(second, HalfWord(x, false, p, others), p)
        ensures ByteOf(first, second, p) == x
      {
        ByteArrives(x, p, others, first, second);
      }
    } else {
      var first := ShiftLeft(HalfWord(0, true, p, others), p.io3);
      var second := ShiftLeft(HalfWord(0, false, p, others), p.io3);
      ShiftedIsPlaced(HalfWord(0, true, p, others), p);
      ShiftedIsPlaced(HalfWord(0, false, p, others), p);
      ClashCorrupts(p, others, first, second);
    }
  }

  /** Every word keeps the other chips' /WP and /HOLD pins at 1 as far as it drives them. */
  lemma {:induction false} WordsHold(data: seq<byte>, p: Pins, others: seq<Pins>, j: nat, pin: nat)
    requires p.Valid() && j < 2 * |data| && p.InSpan(pin) && HeldPin(others, pin)
    ensures BitAt(Words(data, p, others)[j], pin - p.io3)
  {
    var k := pin - p.io3;
    OrBitsAt(Word(Nibble(data, j), p), Held(p, others), k);
    HeldAt(p, others, k);
  }

  /** The data pin for bit i of a nibble. */
  function DataPin(p: Pins, i: nat): nat
    requires i < 4
  {
    if i == 0 then p.io0 else if i == 1 then p.io1 else if i == 2 then p.io2 else p.io3
  }

  /** Bit i of the half of a byte that goes first or second: the high half goes first. */
  predicate HalfBit(x: byte, first: bool, i: nat) {
    BitAt(x, if first then 4 + i else i)
  }

  /** What every word shows on every pin from IO3 upward: a pin is 1 exactly if it is a data pin
      whose bit is 1, or another chip's /WP or /HOLD inside the span.  Any other pin is 0. */
  lemma {:induction false} WordsAt(data: seq<byte>, p: Pins, others: seq<Pins>, j: nat, k: nat)
    requires p.Valid() && j < 2 * |data|
    ensures BitAt(Words(data, p, others)[j], k) <==>
            (exists i: nat :: i < 4 && DataPin(p, i) == p.io3 + k && HalfBit(data[j / 2], j % 2 == 0, i)) ||
            (k < SPAN && HeldPin(others, p.io3 + k))
  {
    var v, x := Nibble(data, j), data[j / 2];
    OrBitsAt(Word(v, p), Held(p, others), k);
    WordAt(v, p, k);
    HeldAt(p, others, k);
    forall i: nat | i < 4 ensures BitAt(v, i) == HalfBit(x, j % 2 == 0, i) {
      NibbleBits(x, i);
    }
    assert DataPin(p, 0) == p.io0 && DataPin(p, 1) == p.io1 && DataPin(p, 2) == p.io2 && DataPin(p, 3) == p.io3;
  }

  /** What is taken out of two samples: bit i of the half that comes first or second is what its
      data pin shows in the first or second sample, and there is nothing else. */
  lemma {:induction false} SamplesAt(first: nat, second: nat, p: Pins, i: nat)
    requires i < 4
    ensures ByteOf(first, second, p) < 256
    ensures HalfBit(ByteOf(first, second, p), true, i) == BitAt(first, DataPin(p, i))
    ensures HalfBit(ByteOf(first, second, p), false, i) == BitAt(second, DataPin(p, i))
  {
    ByteBelow(first, second, p);
    ByteOfAt(first, second, p, i);
    ByteOfAt(first, second, p, 4 + i);
    NibbleOfAt(first, p, i);
    NibbleOfAt(second, p, i);
  }

  // ----- the driver's loops

  const BULK_MAX := 2176
  const MAX_DEVICES := 4

  /** A slot of the registry of open devices. */
  datatype Slot = Free | Taken(id: nat, pins: Pins)

  /** The pins of all registered devices but one. */
  function Others(slots: seq<Slot>, self: nat): seq<Pins> {
    if slots == [] then []
    else
      var last := slots[|slots| - 1];
      Others(slots[..|slots| - 1], self) + if last.Taken? && last.id != self then [last.pins] else []
  }

  /** Exactly the chips in the registry under another number. */
  lemma {:induction false} OthersAre(slots: seq<Slot>, self: nat, p: Pins)
    ensures p in Others(slots, self) <==> exists id: nat :: id != self && Taken(id, p) in slots
  {
    if slots != [] {
      var rest, last := slots[..|slots| - 1], slots[|slots| - 1];
      OthersAre(rest, self, p);
      assert slots == rest + [last];
    }
  }

  lemma {:induction false} NextSlot(slots: seq<Slot>, i: nat, self: nat, p: Pins)
    requires i < |slots|
    ensures Held(p, Others(slots[..i + 1], self)) ==
            if slots[i].Taken? && slots[i].id != self
            then Mark(Mark(Held(p, Others(slots[..i], self)), p, slots[i].pins.io2), p, slots[i].pins.io3)
            else Held(p, Others(slots[..i], self))
  {
    var before := Others(slots[..i], self);
    assert slots[..i + 1][..i] == slots[..i];
    if slots[i].Taken? && slots[i].id != self {
      assert (before + [slots[i].pins])[..|before|] == before;
    } else {
      assert before + [] == before;
    }
  }

  class QuadDevice {
    const id: nat
    const pins: Pins
    const qtab: array<nat>
    const words: array<nat>

    ghost predicate Valid()
      reads this, qtab
    {
      pins.Valid() && qtab.Length == 16 && words.Length == 2 * BULK_MAX && qtab != words &&
      forall v | 0 <= v < 16 :: qtab[v] == Word(v, pins)
    }

    /** Builds the table from nibbles to words. */
    constructor (deviceId: nat, p: Pins)
      requires p.Valid()
      ensures Valid() && id == deviceId && pins == p && fresh(qtab) && fresh(words)
    {
      id, pins := deviceId, p;
      qtab, words := new nat[16](i => 0), new nat[2 * BULK_MAX](i => 0);
      new;
      for v := 0 to 16
        modifies qtab
        invariant forall u | 0 <= u < v :: qtab[u] == Word(u, pins)
      {
        qtab[v] := OrBits(OrBits(OrBits(ShiftLeft(v % 2, p.io0 - p.io3),
                                        ShiftLeft(ShiftRight(v, 1) % 2, p.io1 - p.io3)),
                                 ShiftLeft(ShiftRight(v, 2) % 2, p.io2 - p.io3)),
                          ShiftLeft(ShiftRight(v, 3) % 2, 0));
      }
    }

    /** The bits to hold at 1 for the other registered devices. */
    method HeldBits(slots: seq<Slot>) returns (hi: nat)
      requires |slots| == MAX_DEVICES
      ensures hi == Held(pins, Others(slots, id))
    {
      hi := 0;
      for i := 0 to MAX_DEVICES
        invariant hi == Held(pins, Others(slots[..i], id))
      {
        NextSlot(slots, i, id, pins);
        if slots[i].Free? || slots[i].id == id {
          continue;
        }
        var wp, hold := slots[i].pins.io2, slots[i].pins.io3;
        if wp >= pins.io3 && wp < pins.io3 + SPAN {
          hi := OrBits(hi, ShiftLeft(1, wp - pins.io3));
        }
        if hold >= pins.io3 && hold < pins.io3 + SPAN {
          hi := OrBits(hi, ShiftLeft(1, hold - pins.io3));
        }
      }
      assert slots[..MAX_DEVICES] == slots;
    }

    /** Turns bytes into the words to send. */
    method BuildWords(data: seq<byte>, slots: seq<Slot>)
      requires Valid() && |data| <= BULK_MAX && |slots| == MAX_DEVICES
      modifies words
      ensures Valid() && words[..2 * |data|] == Words(data, pins, Others(slots, id))
    {
      var hi := HeldBits(slots);
      ghost var ws := Words(data, pins, Others(slots, id));
      for i := 0 to |data|
        invariant Valid() && forall j | 0 <= j < 2 * i :: words[j] == ws[j]
      {
        assert Nibble(data, 2 * i) == data[i] / 16 && Nibble(data, 2 * i + 1) == data[i] % 16;
        words[2 * i] := OrBits(qtab[data[i] / 16], hi);
        words[2 * i + 1] := OrBits(qtab[data[i] % 16], hi);
      }
    }

    /** Takes bytes out of the samples in the word buffer. */
    method Extract(len: nat) returns (buf: seq<nat>)
      requires Valid() && len <= BULK_MAX
      ensures |buf| == len && forall i | 0 <= i < len :: buf[i] == ByteOf(words[2 * i], words[2 * i + 1], pins)
    {
      buf := [];
      for i := 0 to len
        invariant |buf| == i && forall k | 0 <= k < i :: buf[k] == ByteOf(words[2 * k], words[2 * k + 1], pins)
      {
        var w0, w1 := words[2 * i], words[2 * i + 1];
        var hi := OrBits(OrBits(OrBits(ShiftLeft(ShiftRight(w0, pins.io0) % 2, 0),
                                       ShiftLeft(ShiftRight(w0, pins.io1) % 2, 1)),
                                ShiftLeft(ShiftRight(w0, pins.io2) % 2, 2)),
                         ShiftLeft(ShiftRight(w0, pins.io3) % 2, 3));
        var lo := OrBits(OrBits(OrBits(ShiftLeft(ShiftRight(w1, pins.io0) % 2, 0),
                                       ShiftLeft(ShiftRight(w1, pins.io1) % 2, 1)),
                                ShiftLeft(ShiftRight(w1, pins.io2) % 2, 2)),
                         ShiftLeft(ShiftRight(w1, pins.io3) % 2, 3));
        buf := buf + [OrBits(ShiftLeft(hi, 4), lo)];
      }
    }
  }

  /** The two chips of the board meet the conditions, each beside the other. */
  lemma {:induction false} BoardIsClear()
    ensures var u2, u3 := Pins(19, 26, 20, 5), Pins(15, 17, 18, 2);
            u2.Valid() && u3.Valid() && Clear(u2, [u3]) && Clear(u3, [u2])
  {
  }
}
