/** Runs of the machine on the ROM of a program, with cells that may be faulty.

    A fault may change any bit of the page buffer and of the calculation area of the flash,
    after any instruction, as long as it lies in one of the bad bit columns.  A run without
    faults is the case where all eight columns are good. */
module Runs {
  import opened Bits
  import opened Microcode
  import opened Compile
  import opened Machine
  import opened RomWord

  ghost predicate SameIn(x: byte, y: byte, good: set<nat>) {
    forall k | k in good :: BitAt(x, k) == BitAt(y, k)
  }

  /** t is s, up to the bad columns of the cells. */
  ghost predicate Agree(s: State, t: State, good: set<nat>) {
    t == s.(page := t.page, flash := t.flash) && |t.page| == |s.page| && |t.flash| == |s.flash| &&
    (forall a | 0 <= a < |s.flash| && a < RAM :: t.flash[a] == s.flash[a]) &&
    (forall a | RAM <= a < |s.flash| :: SameIn(s.flash[a], t.flash[a], good)) &&
    forall i | 0 <= i < |s.page| :: SameIn(s.page[i], t.page[i], good)
  }

  ghost predicate FaultyRun(tr: seq<State>, good: set<nat>) {
    tr != [] && (forall k | k in good :: k < 8) && (forall i | 0 <= i < |tr| :: tr[i].Valid()) &&
    forall i | 0 <= i < |tr| - 1 :: Agree(Step(tr[i]), tr[i + 1], good)
  }

  // ----- columns

  function BitsOf(page: seq<byte>, k: nat): (bs: seq<bool>)
    ensures |bs| == |page| && forall i | 0 <= i < |bs| :: bs[i] == BitAt(page[i], k)
  {
    seq(|page|, i requires 0 <= i < |page| => BitAt(page[i], k))
  }

  lemma {:induction false} BitsOfProgrammed(was: seq<byte>, data: seq<byte>, k: nat)
    requires |was| == |data|
    ensures BitsOf(Programmed(was, data), k) == AndAll(BitsOf(was, k), BitsOf(data, k))
  {
    forall i | 0 <= i < |was| ensures BitAt(And(was[i], data[i]), k) == (BitAt(was[i], k) && BitAt(data[i], k)) {
      AndBitsAt(was[i], data[i], k);
    }
  }

  lemma {:induction false} BitOfComplement(x: byte, k: nat)
    requires k < 8
    ensures BitAt(Complement(x), k) == !BitAt(x, k)
  {
    assert Pow2(8) == 256 by {
      Pow2Byte(0);
    }
    ComplementAt(x, 8, k);
  }

  lemma {:induction false} BitOfErased(k: nat)
    requires k < 8
    ensures BitAt(ERASED, k) && !BitAt(0, k)
  {
    assert Pow2(8) == 256 by {
      Pow2Byte(0);
    }
    OnesAt(8, k);
    ZeroHasNoBits(k);
  }

  /** The flash address of the page in use. */
  function Current(s: State): nat {
    RAM + s.pageOffset
  }

  ghost predicate OnPage(s: State) {
    s.Valid() && s.pageOffset % PAGE_SIZ == 0 && Current(s) + PAGE_SIZ <= s.nandSize
  }

  function CurrentPage(s: State): (p: seq<byte>)
    requires OnPage(s)
    ensures |p| == PAGE_SIZ
  {
    s.flash[Current(s)..Current(s) + PAGE_SIZ]
  }

  /** Column k of the machine: the buffer and the flash page in use. */
  function ColumnOf(s: State, k: nat): (c: Column)
    requires OnPage(s)
    ensures c.Valid()
  {
    Column(BitsOf(s.page, k), BitsOf(CurrentPage(s), k))
  }

  lemma {:induction false} AgreeingColumns(s: State, t: State, good: set<nat>, k: nat)
    requires OnPage(s) && Agree(s, t, good) && k in good
    ensures OnPage(t) && ColumnOf(t, k) == ColumnOf(s, k)
  {
  }

  // ----- fetching from the ROM

  /** What a program must respect to run from ROM next to the calculation area. */
  ghost predicate Loadable(ops: seq<Micro>) {
    0 < |ops| && 8 * |ops| <= ROM_SIZE &&
    forall i | 0 <= i < |ops| ::
      ops[i].dest < FIELD && ops[i].from < FIELD && ops[i].op != Erase && (ops[i].op == PrgNand ==> ops[i].dest == RAM)
  }

  lemma {:induction false} LinkFits(ops: seq<Micro>)
    requires Loadable(ops)
    ensures forall i | 0 <= i < |Link(ops)| :: Fits(Link(ops)[i])
  {
  }

  ghost predicate RomReady(s: State, ops: seq<Micro>)
    requires Loadable(ops)
  {
    LinkFits(ops);
    |s.flash| >= ROM_SIZE && s.flash[..ROM_SIZE] == Image(Link(ops))
  }

  /** The cached ROM page is the one pc points into, unless pc is about to enter a page. */
  ghost predicate Cached(rom: seq<byte>, flash: seq<byte>, pc: nat) {
    pc % PAGE_SIZ != 0 ==>
      PageBase(pc) + PAGE_SIZ <= |flash| && rom == flash[PageBase(pc)..PageBase(pc) + PAGE_SIZ]
  }

  /** The machine is about to execute instruction i of the program. */
  ghost predicate AtInstr(s: State, ops: seq<Micro>, i: nat)
    requires Loadable(ops)
  {
    i < |ops| && OnPage(s) && RomReady(s, ops) && s.pc == 8 * i && Cached(s.rom, s.flash, s.pc)
  }

  lemma {:induction false} WordDecodes(ops: seq<Micro>, i: nat)
    requires Loadable(ops) && i < |ops|
    ensures 8 * i + 8 <= ROM_SIZE && forall k | 0 <= k < |Link(ops)| :: Fits(Link(ops)[k])
    ensures Decode(FromBytes(Image(Link(ops))[8 * i..8 * i + 8])) == Link(ops)[i]
  {
    LinkFits(ops);
    WordOfImage(Link(ops), i);
    Pow2Of64();
    FromToBytes(Encode(Link(ops)[i]), 8);
    DecodeEncode(Link(ops)[i]);
  }

  lemma {:induction false} SliceOfSlice<T>(xs: seq<T>, base: nat, n: nat, at: nat, m: nat)
    requires base + n <= |xs| && at + m <= n
    ensures xs[base..base + n][at..at + m] == xs[base + at..base + at + m]
  {
    var ys, zs := xs[base..base + n][at..at + m], xs[base + at..base + at + m];
    forall i | 0 <= i < m ensures ys[i] == zs[i] {
    }
    assert |ys| == |zs| == m;
  }

  /** Through the cached page, a fetch decodes exactly instruction pc / 8. */
  lemma {:induction false} FetchDecodes(s: State, ops: seq<Micro>, i: nat)
    requires Loadable(ops) && AtInstr(s, ops, i)
    ensures CachePage(s) == s.(rom := s.flash[PageBase(s.pc)..PageBase(s.pc) + PAGE_SIZ])
    ensures Fetched(CachePage(s)) == Link(ops)[i]
  {
    LinkFits(ops);
    CacheIsPage(s, ops, i);
    CachedWord(s.flash, Image(Link(ops)), s.pc);
    WordDecodes(ops, i);
  }

  lemma {:induction false} CacheIsPage(s: State, ops: seq<Micro>, i: nat)
    requires Loadable(ops) && AtInstr(s, ops, i)
    ensures PageBase(s.pc) + PAGE_SIZ <= ROM_SIZE
    ensures CachePage(s) == s.(rom := s.flash[PageBase(s.pc)..PageBase(s.pc) + PAGE_SIZ])
  {
  }

  /** The word at pc, read through its page. */
  lemma {:induction false} CachedWord(flash: seq<byte>, image: seq<byte>, pc: nat)
    requires |image| == ROM_SIZE <= |flash| && flash[..ROM_SIZE] == image && pc % 8 == 0 && pc < ROM_SIZE
    ensures PageBase(pc) + PAGE_SIZ <= ROM_SIZE && pc % PAGE_SIZ + 8 <= PAGE_SIZ && pc + 8 <= ROM_SIZE
    ensures flash[PageBase(pc)..PageBase(pc) + PAGE_SIZ][pc % PAGE_SIZ..pc % PAGE_SIZ + 8] == image[pc..pc + 8]
  {
    var at, base := pc % PAGE_SIZ, PageBase(pc);
    assert pc == base + at;
    SliceOfSlice(flash, base, PAGE_SIZ, at, 8);
    SliceOfSlice(flash, 0, ROM_SIZE, pc, 8);
    assert flash[0..ROM_SIZE] == flash[..ROM_SIZE];
  }
}
