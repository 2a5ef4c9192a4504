/** The machine as a function on states: one page buffer, one flash, and the registers.

    The flash can only be programmed from 1 to 0 or erased to 0xff; everything the machine
    computes it computes by programming. */
module Machine {
  import opened Bits
  import opened Microcode

  const U32 := 0x1_0000_0000
  const U64 := 0x1_0000_0000_0000_0000

  type byte = x: int | 0 <= x < 256
  type u64 = x: int | 0 <= x < U64

  lemma {:induction false} Pow2Of64()
    ensures Pow2(64) == U64 && Pow2(63) == 0x8000_0000_0000_0000
  {
    Pow2Byte(0);
    Pow2Byte(8);
    Pow2Byte(16);
    Pow2Byte(24);
    Pow2Byte(32);
    Pow2Byte(40);
    Pow2Byte(48);
    Pow2Byte(56);
    assert Pow2(64) == 2 * Pow2(63);
  }

  const ERASED: byte := 0xff

  function Blank(n: nat): (r: seq<byte>)
    ensures |r| == n && forall i | 0 <= i < n :: r[i] == ERASED
  {
    seq(n, i => ERASED)
  }

  /** `x & y` on bytes. */
  function And(x: byte, y: byte): byte {
    AndBits(x, y)
  }

  /** `~x` on a byte. */
  function Complement(x: byte): byte {
    255 - x
  }

  // ----- flash

  function Programmed(was: seq<byte>, data: seq<byte>): (r: seq<byte>)
    requires |was| == |data|
    ensures |r| == |was| && forall i | 0 <= i < |r| :: r[i] == And(was[i], data[i])
  {
    seq(|was|, i requires 0 <= i < |was| && |was| == |data| => And(was[i], data[i]))
  }

  /** Programming ANDs the data into the flash. */
  function Program(flash: seq<byte>, offset: nat, data: seq<byte>): (r: seq<byte>)
    requires offset + |data| <= |flash|
    ensures |r| == |flash|
  {
    flash[..offset] + Programmed(flash[offset..offset + |data|], data) + flash[offset + |data|..]
  }

  /** Byte by byte, programming ANDs. */
  lemma {:induction false} ProgramAt(mem: seq<byte>, offset: nat, data: seq<byte>, a: nat)
    requires offset + |data| <= |mem| && a < |mem|
    ensures Program(mem, offset, data)[a] ==
            if offset <= a < offset + |data| then And(mem[a], data[a - offset]) else mem[a]
  {
  }

  function Wiped(flash: seq<byte>, offset: nat, length: nat): (r: seq<byte>)
    requires offset + length <= |flash|
    ensures |r| == |flash|
  {
    flash[..offset] + Blank(length) + flash[offset + length..]
  }

  lemma {:induction false} ProgramNothing(mem: seq<byte>, at: nat)
    requires at <= |mem|
    ensures Program(mem, at, []) == mem
  {
  }

  lemma {:induction false} WipedNothing(mem: seq<byte>, offset: nat)
    requires offset <= |mem|
    ensures Wiped(mem, offset, 0) == mem
  {
  }

  lemma {:induction false} WipedTwice(mem: seq<byte>, offset: nat, n: nat, m: nat)
    requires offset + n + m <= |mem|
    ensures Wiped(Wiped(mem, offset, n), offset + n, m) == Wiped(mem, offset, n + m)
  {
  }

  // ----- ROM words

  function OpCode(op: Op): (c: nat)
    ensures c < 8
  {
    match op
    case Mov => 0
    case InvMov => 1
    case CapIn => 2
    case GetIn => 3
    case PrgNand => 4
    case PushOut => 5
    case Raise => 6
    case Erase => 7
  }

  function OpOf(c: nat): Op
    requires c < 8
  {
    if c == 0 then Mov else if c == 1 then InvMov else if c == 2 then CapIn else if c == 3 then GetIn
    else if c == 4 then PrgNand else if c == 5 then PushOut else if c == 6 then Raise else Erase
  }

  const FIELD := 0x10_0000  // 20 bits

  predicate Fits(i: Instr) {
    i.dest < FIELD && i.from < FIELD && i.next < FIELD
  }

  /** The ROM word: operation in the top three bits, then a reserved bit and three fields. */
  function Encode(i: Instr): u64
    requires Fits(i)
  {
    OpCode(i.op) * 0x2000_0000_0000_0000 + i.dest * 0x100_0000_0000 + i.from * 0x10_0000 + i.next
  }

  function Decode(w: nat): (i: Instr)
    ensures Fits(i)
  {
    Instr(OpOf(w / 0x2000_0000_0000_0000 % 8), w / 0x100_0000_0000 % FIELD, w / 0x10_0000 % FIELD, w % FIELD)
  }

  /** Every instruction survives the trip through its ROM word. */
  lemma {:induction false} DecodeEncode(i: Instr)
    requires Fits(i)
    ensures Decode(Encode(i)) == i
  {
    var w := Encode(i);
    var low := i.from * 0x10_0000 + i.next;
    assert low < 0x100_0000_0000;
    var high := OpCode(i.op) * 0x20_0000 + i.dest;
    assert w == high * 0x100_0000_0000 + low;
    Quotient(w, 0x100_0000_0000, high, low);
    Quotient(high, FIELD, 2 * OpCode(i.op), i.dest);
    var middle := high * 0x10_0000 + i.from;
    assert w == middle * 0x10_0000 + i.next;
    Quotient(w, 0x10_0000, middle, i.next);
    Quotient(middle, FIELD, high, i.from);
    Quotient(w, 0x2000_0000_0000_0000, OpCode(i.op), i.dest * 0x100_0000_0000 + low);
  }

  lemma {:induction false} Quotient(w: nat, d: nat, q: nat, r: nat)
    requires d > 0 && w == q * d + r && r < d
    ensures w / d == q && w % d == r
  {
    DivisionIsUnique(w, d, q, r);
  }

  /** The n lowest bytes of a number, lowest first. */
  function ToBytes(w: nat, n: nat): (bs: seq<byte>)
    ensures |bs| == n
  {
    if n == 0 then [] else [w % 256] + ToBytes(w / 256, n - 1)
  }

  function FromBytes(bs: seq<byte>): nat {
    if bs == [] then 0 else bs[0] + 256 * FromBytes(bs[1..])
  }

  lemma {:induction false} FromToBytes(w: nat, n: nat)
    requires w < Pow2(8 * n)
    ensures FromBytes(ToBytes(w, n)) == w
  {
    if n > 0 {
      Pow2Byte(8 * (n - 1));
      FromToBytes(w / 256, n - 1);
    }
  }

  // ----- the machine

  datatype State = State(
    pc: nat, page: seq<byte>, rom: seq<byte>,
    out: seq<u64>, inA: seq<u64>, inB: seq<u64>, signal: bool, isJmp: seq<bool>,
    getinCnt: nat, pageOffset: nat, preOffset: nat, nandSize: nat,
    flash: seq<byte>, erases: nat)
  {
    ghost predicate Valid() {
      |page| == |rom| == PAGE_SIZ && |out| == |inA| == |inB| == |isJmp| == LANES &&
      RAM <= nandSize <= |flash| && nandSize < U32
    }
  }

  /** Calculation addresses move with the wear-levelling offset. */
  function Phys(addr: nat, pageOffset: nat): nat {
    if addr >= RAM then (addr + pageOffset) % U32 else addr
  }

  function PageBase(addr: nat): (r: nat)
    ensures r <= addr && r % PAGE_SIZ == 0
  {
    addr / PAGE_SIZ * PAGE_SIZ
  }

  /** Puts a byte into the page buffer; a different page clears the buffer first. */
  function EditBuf(s: State, addr: nat, value: byte): (r: State)
    requires s.Valid()
    ensures r.Valid()
  {
    var offset := PageBase(Phys(addr, s.pageOffset));
    var page := if offset != s.preOffset then Blank(PAGE_SIZ) else s.page;
    s.(page := page[addr % PAGE_SIZ := value], preOffset := offset)
  }

  function ReadBuf(s: State, addr: nat): byte
    requires s.Valid()
  {
    s.page[addr % PAGE_SIZ]
  }

  /** Programs the buffer and reads the page back; an address beyond the flash does nothing. */
  function WritePage(s: State, addr: nat): (r: State)
    requires s.Valid()
    ensures r.Valid()
  {
    var offset := PageBase(Phys(addr, s.pageOffset));
    if offset + PAGE_SIZ <= |s.flash| then
      var flash := Program(s.flash, offset, s.page);
      s.(flash := flash, page := flash[offset..offset + PAGE_SIZ])
    else
      s
  }

  /** Erases the whole calculation area and starts again at its first page. */
  function EraseArea(s: State): (r: State)
    requires s.Valid()
    ensures r.Valid()
  {
    s.(flash := Wiped(s.flash, RAM, s.nandSize - RAM), pageOffset := 0, page := Blank(PAGE_SIZ), erases := s.erases + 1)
  }

  function CountOnes(x: nat, n: nat): nat {
    if n == 0 then 0 else CountOnes(x, n - 1) + (if BitAt(x, n - 1) then 1 else 0)
  }

  predicate MajorityVote(x: byte) {
    CountOnes(x, 8) > 3
  }

  function Shift(x: u64, top: bool): u64 {
    x / 2 + (if top then 0x8000_0000_0000_0000 else 0)
  }

  function CurrentLane(s: State): (l: nat)
    ensures l < LANES
  {
    if s.getinCnt / DIGIT >= LANES then LANES - 1 else s.getinCnt / DIGIT
  }

  /** Each lane takes its turn for 64 loads; the last one keeps it. */
  lemma {:induction false} LanesTakeTurns(s: State, l: nat)
    requires l < LANES
    ensures CurrentLane(s) == l <==> 64 * l <= s.getinCnt && (s.getinCnt < 64 * (l + 1) || l == LANES - 1)
  {
    var q := s.getinCnt / DIGIT;
    assert 64 * q <= s.getinCnt < 64 * (q + 1);
  }

  /** Loads the lowest input bits of the current lane into two cells. */
  function LoadInputs(s: State, dest: nat, from: nat): (r: State)
    requires s.Valid()
    ensures r.Valid()
  {
    var l := CurrentLane(s);
    var s1 := EditBuf(s.(getinCnt := (s.getinCnt + 1) % U32), from, if s.inA[l] % 2 == 1 then 0xff else 0);
    var s2 := EditBuf(s1.(inA := s1.inA[l := s1.inA[l] / 2]), dest, if s1.inB[l] % 2 == 1 then 0xff else 0);
    s2.(inB := s2.inB[l := s2.inB[l] / 2])
  }

  /** The last lane's RAISE ends the round and moves to the next physical page. */
  function RaiseLane(s: State, dest: nat, from: nat): (r: State)
    requires s.Valid()
    ensures r.Valid()
  {
    var l := dest % LANES;
    var s1 := s.(isJmp := s.isJmp[l := MajorityVote(ReadBuf(s, from))]);
    if l == LANES - 1 then
      var s2 := s1.(signal := true, pageOffset := (s1.pageOffset + PAGE_SIZ) % U32);
      if (RAM + s2.pageOffset + PAGE_SIZ) % U32 > s2.nandSize then EraseArea(s2) else s2
    else
      s1
  }

  /** One instruction, apart from the program counter. */
  function Perform(s: State, m: Micro): (r: State)
    requires s.Valid()
    ensures r.Valid()
  {
    match m.op
    case Mov => EditBuf(s, m.dest, ReadBuf(s, m.from))
    case InvMov => EditBuf(s, m.dest, Complement(ReadBuf(s, m.from)))
    case CapIn => s.(getinCnt := 0)
    case GetIn => LoadInputs(s, m.dest, m.from)
    case PrgNand => WritePage(s, m.dest)
    case PushOut =>
      var l := m.dest % LANES;
      s.(out := s.out[l := Shift(s.out[l], MajorityVote(ReadBuf(s, m.from)))])
    case Raise => RaiseLane(s, m.dest, m.from)
    case Erase => EraseArea(s)
  }

  function Execute(s: State, i: Instr): (r: State)
    requires s.Valid()
    ensures r.Valid()
  {
    Perform(s.(signal := false), i.Body()).(pc := i.next)
  }

  /** ERASE leaves 0xff in the whole calculation area and in the buffer, and the machine at its
      first page; nothing else changes. */
  lemma {:induction false} EraseWipes(s: State, dest: nat, from: nat, next: nat)
    requires s.Valid()
    ensures var n := Execute(s, Instr(Erase, dest, from, next));
            n == s.(flash := n.flash, page := n.page, pc := next, signal := false, pageOffset := 0,
                    erases := s.erases + 1) &&
            |n.flash| == |s.flash| && (forall k | 0 <= k < PAGE_SIZ :: n.page[k] == 0xff) &&
            forall a | 0 <= a < |s.flash| :: n.flash[a] == if ROM_SIZE <= a < s.nandSize then 0xff else s.flash[a]
  {
    var n := EraseArea(s);
    assert n.flash == s.flash[..RAM] + Blank(s.nandSize - RAM) + s.flash[s.nandSize..];
  }

  /** At a page boundary the ROM page is read from flash; the instruction then comes from it.
      (A word reaching beyond the cached page does not occur and reads as 0.) */
  function CachePage(s: State): (r: State)
    requires s.Valid()
    ensures r.Valid()
  {
    if s.pc % PAGE_SIZ == 0 && s.pc + PAGE_SIZ <= |s.flash| then s.(rom := s.flash[s.pc..s.pc + PAGE_SIZ]) else s
  }

  function Fetched(s: State): Instr
    requires s.Valid()
  {
    var at := s.pc % PAGE_SIZ;
    Decode(if at + 8 <= PAGE_SIZ then FromBytes(s.rom[at..at + 8]) else 0)
  }

  /** Fetch and execute one instruction. */
  function Step(s: State): (r: State)
    requires s.Valid()
    ensures r.Valid()
  {
    var c := CachePage(s);
    Execute(c, Fetched(c))
  }

  // ----- the ROM image

  /** The instructions of a program, each linked to the next and the last one to the first. */
  function Link(ops: seq<Micro>): (rom: seq<Instr>)
    ensures |rom| == |ops|
  {
    seq(|ops|, i requires 0 <= i < |ops| =>
      Instr(ops[i].op, ops[i].dest, ops[i].from, if i == |ops| - 1 then 0 else 8 * (i + 1)))
  }

  /** The flash contents of a program: its words, then erased bytes. */
  function Image(rom: seq<Instr>): (bs: seq<byte>)
    requires 8 * |rom| <= ROM_SIZE && forall i | 0 <= i < |rom| :: Fits(rom[i])
    ensures |bs| == ROM_SIZE
  {
    seq(ROM_SIZE, a requires 0 <= a < ROM_SIZE && 8 * |rom| <= ROM_SIZE && forall i | 0 <= i < |rom| :: Fits(rom[i]) =>
      if a / 8 < |rom| then ToBytes(Encode(rom[a / 8]), 8)[a % 8] else ERASED)
  }
}
