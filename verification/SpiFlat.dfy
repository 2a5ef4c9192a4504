/** What the calls of the striped device do to its flat memory, with the 32-bit offsets of the
    code, and exactly when that is what they say. */
module SpiFlat {
  import opened Bits
  import opened Machine
  import opened Microcode
  import opened Spi
  import opened SpiTrace

  /** Every address that a range reaches in 32-bit steps lies in a memory of this size. */
  predicate InReach(offset: nat, length: nat, size: nat) {
    offset < U32 && (offset + length <= size || U32 <= size)
  }

  lemma {:induction false} AddressInReach(offset: nat, length: nat, size: nat, i: nat)
    requires InReach(offset, length, size) && i < length
    ensures (offset + i) % U32 < size
  {
    if offset + i >= U32 {
      assert U32 <= size || offset + i < size;
    }
  }

  // ----- reading

  function ReadEffect(mem: seq<byte>, offset: nat, length: nat): (r: seq<byte>)
    requires InReach(offset, length, |mem|)
    ensures |r| == length
  {
    seq(length, i requires 0 <= i < length && InReach(offset, length, |mem|) =>
      AddressInReach(offset, length, |mem|, i);
      mem[(offset + i) % U32])
  }

  /** The next chunk of a read. */
  lemma {:induction false} ReadChunkEffect(mem: seq<byte>, offset: nat, length: nat, done: nat, chunk: nat)
    requires InReach(offset, length, |mem|) && done + chunk <= length
    requires (offset + done) % U32 + chunk <= U32 && (offset + done) % U32 + chunk <= |mem|
    ensures var at := (offset + done) % U32;
            ReadEffect(mem, offset, length)[done..done + chunk] == mem[at..at + chunk]
  {
    var at := (offset + done) % U32;
    var r, f := ReadEffect(mem, offset, length)[done..done + chunk], mem[at..at + chunk];
    forall i | 0 <= i < chunk ensures r[i] == f[i] {
      NoCarry(offset + done, i);
    }
  }

  lemma {:induction false} NoCarry(x: nat, i: nat)
    requires x % U32 + i < U32
    ensures (x + i) % U32 == x % U32 + i
  {
  }

  /** A read is exact for all contents if and only if it ends by 2^32. */
  lemma {:induction false} ReadIsExact(size: nat, offset: nat, length: nat)
    requires offset < U32 && offset + length <= size
    ensures (forall mem: seq<byte> {:trigger ReadEffect(mem, offset, length)} | |mem| == size ::
               ReadEffect(mem, offset, length) == mem[offset..offset + length]) <==> offset + length <= U32
  {
    if offset + length <= U32 {
      forall mem: seq<byte> | |mem| == size ensures ReadEffect(mem, offset, length) == mem[offset..offset + length] {
        ReadChunkEffect(mem, offset, length, 0, length);
      }
    } else {
      var mem := Blank(size)[0 := 0];
      assert ReadEffect(mem, offset, length)[U32 - offset] == mem[0];
      assert mem[offset..offset + length][U32 - offset] == mem[U32];
    }
  }

  // ----- writing

  /** Byte i of the data is ANDed into the byte at (offset + i) mod 2^32. */
  function WriteEffect(mem: seq<byte>, offset: nat, data: seq<byte>): (r: seq<byte>)
    requires InReach(offset, |data|, |mem|)
    ensures |r| == |mem|
    decreases |data|
  {
    if data == [] then mem
    else
      var n := |data| - 1;
      var m := WriteEffect(mem, offset, data[..n]);
      AddressInReach(offset, |data|, |mem|, n);
      m[(offset + n) % U32 := And(m[(offset + n) % U32], data[n])]
  }

  lemma {:induction false} ProgramOneMore(mem: seq<byte>, at: nat, data: seq<byte>, x: byte, p: seq<byte>)
    requires at + |data| < |mem| && p == Program(mem, at, data)
    ensures Program(mem, at, data + [x]) == p[at + |data| := And(p[at + |data|], x)]
  {
    var f, g := Program(mem, at, data + [x]), p[at + |data| := And(p[at + |data|], x)];
    forall a | 0 <= a < |mem| ensures f[a] == g[a] {
      ProgramAt(mem, at, data + [x], a);
      ProgramAt(mem, at, data, a);
    }
  }

  lemma {:induction false} WriteOneMore(mem: seq<byte>, offset: nat, data: seq<byte>, x: byte, at: nat, p: seq<byte>)
    requires InReach(offset, |data| + 1, |mem|) && at == (offset + |data|) % U32
    requires p == WriteEffect(mem, offset, data)
    ensures at < |p| && WriteEffect(mem, offset, data + [x]) == p[at := And(p[at], x)]
  {
    AddressInReach(offset, |data| + 1, |mem|, |data|);
    assert (data + [x])[..|data|] == data;
  }

  /** The next chunk of a write, c after d. */
  lemma {:induction false} WriteChunkEffect(mem: seq<byte>, offset: nat, d: seq<byte>, c: seq<byte>, at: nat,
      m: seq<byte>)
    requires InReach(offset, |d| + |c|, |mem|) && at == (offset + |d|) % U32
    requires at + |c| <= U32 && at + |c| <= |mem| && m == WriteEffect(mem, offset, d)
    ensures WriteEffect(mem, offset, d + c) == Program(m, at, c)
    decreases |c|
  {
    if c == [] {
      assert d + c == d;
      ProgramNothing(m, at);
    } else {
      var k := |c| - 1;
      WriteChunkEffect(mem, offset, d, c[..k], at, m);
      assert d + c == d + c[..k] + [c[k]] && c == c[..k] + [c[k]];
      NoCarry(offset + |d|, k);
      WriteThenOne(mem, offset, d + c[..k], c[k], at, c[..k], m);
    }
  }

  lemma {:induction false} WriteThenOne(mem: seq<byte>, offset: nat, data: seq<byte>, x: byte, at: nat, c: seq<byte>,
      m: seq<byte>)
    requires InReach(offset, |data| + 1, |mem|) && at + |c| == (offset + |data|) % U32
    requires at + |c| < |mem| == |m| && WriteEffect(mem, offset, data) == Program(m, at, c)
    ensures WriteEffect(mem, offset, data + [x]) == Program(m, at, c + [x])
  {
    var p := WriteEffect(mem, offset, data);
    WriteOneMore(mem, offset, data, x, at + |c|, p);
    ProgramOneMore(m, at, c, x, p);
  }

  lemma {:induction false} WriteWithoutWrap(mem: seq<byte>, offset: nat, data: seq<byte>)
    requires offset < U32 && offset + |data| <= |mem| && offset + |data| <= U32
    ensures WriteEffect(mem, offset, data) == Program(mem, offset, data)
  {
    assert [] + data == data;
    WriteChunkEffect(mem, offset, [], data, offset, mem);
  }

  /** What no byte is written to stays. */
  lemma {:induction false} WriteElsewhere(mem: seq<byte>, offset: nat, data: seq<byte>, a: nat)
    requires InReach(offset, |data|, |mem|) && U32 <= a < |mem|
    ensures WriteEffect(mem, offset, data)[a] == mem[a]
    decreases |data|
  {
    if data != [] {
      WriteElsewhere(mem, offset, data[..|data| - 1], a);
    }
  }

  /** A write is exact for all contents and data if and only if it ends by 2^32. */
  lemma {:induction false} WriteIsExact(size: nat, offset: nat, length: nat)
    requires offset < U32 && offset + length <= size
    ensures (forall mem: seq<byte>, data: seq<byte> {:trigger WriteEffect(mem, offset, data)} |
               |mem| == size && |data| == length :: WriteEffect(mem, offset, data) == Program(mem, offset, data)) <==>
            offset + length <= U32
  {
    if offset + length <= U32 {
      forall mem: seq<byte>, data: seq<byte> | |mem| == size && |data| == length
        ensures WriteEffect(mem, offset, data) == Program(mem, offset, data)
      {
        WriteWithoutWrap(mem, offset, data);
      }
    } else {
      var mem, data := Blank(size), seq(length, i => 0 as byte);
      WriteElsewhere(mem, offset, data, U32);
      ProgramAt(mem, offset, data, U32);
      assert And(0, 0) == 0;
      assert WriteEffect(mem, offset, data)[U32] != Program(mem, offset, data)[U32];
    }
  }

  // ----- erasing

  /** So many chips that a group no longer fits into 32 bits. */
  const WIDE := 0x8000

  /** What an accepted erase does: nothing if its end, taken modulo 2^32, is not behind its
      start; and with so many chips that all 32-bit addresses lie in one group, that group. */
  function EraseEffect(mem: seq<byte>, offset: nat, length: nat, n: nat): (r: seq<byte>)
    requires n > 0 && |mem| == n * TOTAL && InReach(offset, length, |mem|)
    ensures |r| == |mem|
  {
    if length == 0 || offset + length >= U32 then mem
    else if n < WIDE then Wiped(mem, offset, length)
    else Wiped(mem, 0, BLOCK * n)
  }

  ghost predicate ErasedIn(mem: seq<byte>, lo: nat, hi: nat) {
    forall a | lo <= a < hi && a < |mem| :: mem[a] == ERASED
  }

  /** Wiping two ranges gives the same exactly if whatever only one of them covers is erased. */
  lemma {:induction false} SameWipe(mem: seq<byte>, size: nat, offset: nat, length: nat)
    requires offset + length <= size <= |mem|
    ensures Wiped(mem, 0, size) == Wiped(mem, offset, length) <==>
            ErasedIn(mem, 0, offset) && ErasedIn(mem, offset + length, size)
  {
    var f, g := Wiped(mem, 0, size), Wiped(mem, offset, length);
    if f == g {
      forall a | 0 <= a < size && !(offset <= a < offset + length) ensures mem[a] == ERASED {
        assert f[a] == g[a];
      }
    }
  }

  lemma {:induction false} NoWipe(mem: seq<byte>, offset: nat, length: nat)
    requires offset + length <= |mem|
    ensures mem == Wiped(mem, offset, length) <==> ErasedIn(mem, offset, offset + length)
  {
    if mem == Wiped(mem, offset, length) {
      forall a | offset <= a < offset + length ensures mem[a] == ERASED {
        assert mem[a] == Wiped(mem, offset, length)[a];
      }
    }
  }

  /** Exactly when an accepted erase sets its range to 0xff and nothing else: it ends below 2^32
      on fewer than 32768 chips, or what it misses, or erases too much, is erased already. */
  lemma {:induction false} EraseIsExact(mem: seq<byte>, offset: nat, length: nat, n: nat)
    requires n > 0 && |mem| == n * TOTAL && offset < U32 && 0 < length && offset + length <= |mem|
    ensures EraseEffect(mem, offset, length, n) == Wiped(mem, offset, length) <==>
            if offset + length >= U32 then ErasedIn(mem, offset, offset + length)
            else n < WIDE || (ErasedIn(mem, 0, offset) && ErasedIn(mem, offset + length, BLOCK * n))
  {
    if offset + length >= U32 {
      NoWipe(mem, offset, length);
    } else if n >= WIDE {
      SameWipe(mem, BLOCK * n, offset, length);
    }
  }

  /** Sixteen chips, the last group: aligned, accepted, and not erased. */
  lemma {:induction false} EraseMissesTheTop(mem: seq<byte>)
    requires |mem| == 16 * TOTAL == U32 && mem[U32 - 1] != ERASED
    ensures Aligned(U32 - BLOCK * 16, 16) && Aligned(BLOCK * 16, 16)
    ensures EraseEffect(mem, U32 - BLOCK * 16, BLOCK * 16, 16)[U32 - 1] != ERASED
  {
  }

  /** Seventeen chips: two bytes at the last 32-bit address are read from there and from address
      0, and written there; the group that contains 2^32 is accepted and not erased. */
  lemma {:induction false} SeventeenChips(mem: seq<byte>)
    requires |mem| == 17 * TOTAL
    ensures ReadEffect(mem, U32 - 1, 2) == [mem[U32 - 1], mem[0]]
    ensures var w := WriteEffect(mem, U32 - 1, [0, 0]); w[0] == 0 && w[U32] == mem[U32]
    ensures Aligned(1927 * 17 * BLOCK, 17) && Aligned(17 * BLOCK, 17)
    ensures 1927 * 17 * BLOCK < U32 < 1928 * 17 * BLOCK <= |mem|
    ensures EraseEffect(mem, 1927 * 17 * BLOCK, 17 * BLOCK, 17) == mem
  {
    var m := WriteEffect(mem, U32 - 1, [0]);
    WriteOneMore(mem, U32 - 1, [0], 0, 0, m);
    assert [0 as byte] + [0] == [0, 0];
    AndCommutes(m[0], 0);
    AndWithZero(m[0]);
    WriteElsewhere(mem, U32 - 1, [0, 0], U32);
  }

  /** On 32769 chips, erasing one block erases 32769 of them. */
  lemma {:induction false} EraseReachesTooFar(mem: seq<byte>)
    requires |mem| == 32769 * TOTAL
    ensures Aligned(0, 32769) && Aligned(BLOCK, 32769) && EraseEffect(mem, 0, BLOCK, 32769)[BLOCK] == ERASED
  {
  }

  // ----- groups

  lemma {:induction false} TimesMonotone(x: nat, y: nat, z: nat)
    requires x <= y
    ensures x * z <= y * z
  {
  }

  lemma {:induction false} QuotientRange(a: nat, size: nat, g: nat)
    requires size > 0
    ensures a / size == g <==> g * size <= a < (g + 1) * size
  {
    var q := a / size;
    assert q * size <= a < (q + 1) * size;
    if q < g {
      TimesMonotone(q + 1, g, size);
    } else if q > g {
      TimesMonotone(g + 1, q, size);
    }
  }

  /** The address lies in group g: on block g of its chip. */
  ghost predicate InGroup(a: nat, g: nat, n: nat)
    requires n > 0
  {
    PhysPageOf(a / PAGE_SIZ, n) / BLOCK_PAGES == g
  }

  /** The addresses of a group are consecutive. */
  lemma {:induction false} GroupIsRange(a: nat, g: nat, n: nat)
    requires n > 0
    ensures InGroup(a, g, n) <==> g * (BLOCK * n) <= a < (g + 1) * (BLOCK * n)
  {
    NestedQuotient(a, n);
    QuotientRange(a, BLOCK * n, g);
  }

  lemma {:induction false} Distribute(q: nat, n: nat, r: nat, m: nat)
    ensures (q * n + r) * m == q * (m * n) + r * m
  {
  }

  lemma {:induction false} RemainderBelow(r: nat, n: nat, s: nat, m: nat)
    requires r < n && s < m
    ensures r * m + s < m * n
  {
    TimesMonotone(r + 1, n, m);
    assert (r + 1) * m == r * m + m;
  }

  lemma {:induction false} QuotientTwice(a: nat, m: nat, n: nat)
    requires m > 0 && n > 0
    ensures a / m / n == a / (m * n)
  {
    var p := a / m;
    var q, r, s := p / n, p % n, a % m;
    assert p == q * n + r;
    QuotientOfParts(a, p, q, r, s, m, n);
  }

  lemma {:induction false} QuotientOfParts(a: nat, p: nat, q: nat, r: nat, s: nat, m: nat, n: nat)
    requires m > 0 && n > 0 && p == q * n + r && r < n && s < m && a == p * m + s
    ensures a / (m * n) == q
  {
    Distribute(q, n, r, m);
    RemainderBelow(r, n, s, m);
    DivisionIsUnique(a, m * n, q, r * m + s);
  }

  lemma {:induction false} NestedQuotient(a: nat, n: nat)
    requires n > 0
    ensures a / PAGE_SIZ / n / BLOCK_PAGES == a / (BLOCK * n)
  {
    QuotientTwice(a, PAGE_SIZ, n);
    QuotientTwice(a, PAGE_SIZ * n, BLOCK_PAGES);
    assert PAGE_SIZ * n * BLOCK_PAGES == BLOCK * n;
  }
}
