/** The processor as an object: registers, a page buffer and a cached ROM page over a flash. */
module Cpu {
  import opened Circuit
  import opened Cells
  import opened Microcode
  import opened Netlist
  import opened Machine
  import opened Runs
  import opened RoundPlan
  import opened Wear
  import opened Levelling
  import opened Nand
  import opened Rom
  import opened Install

  const ALL_COLUMNS: set<nat> := {0, 1, 2, 3, 4, 5, 6, 7}

  /** After the first erase the machine is ready for its first round. */
  lemma {:induction false} InstalledIsFresh(s: State, ops: seq<Micro>, rest: seq<byte>)
    requires Loadable(ops) && s.Valid() && RAM + PAGE_SIZ <= s.nandSize == |s.flash|
    requires forall i | 0 <= i < |ops| :: Fits(Link(ops)[i])
    requires ROM_SIZE + |rest| == s.nandSize && s.flash == Wiped(Image(Link(ops)) + rest, RAM, s.nandSize - RAM)
    requires s.pc == 0 && s.pageOffset == 0 && s.page == Blank(PAGE_SIZ)
    ensures Fresh(s, ops, ALL_COLUMNS)
  {
  }

  /** The lowest bit of input register a (or b) of a lane goes into a cell. */
  ghost function TakeA(s: State, l: nat, from: nat): (r: State)
    requires s.Valid() && l < LANES
    ensures r.Valid()
  {
    var e := EditBuf(s, from, if s.inA[l] % 2 == 1 then 0xff else 0);
    e.(inA := e.inA[l := e.inA[l] / 2])
  }

  ghost function TakeB(s: State, l: nat, dest: nat): (r: State)
    requires s.Valid() && l < LANES
    ensures r.Valid()
  {
    var e := EditBuf(s, dest, if s.inB[l] % 2 == 1 then 0xff else 0);
    e.(inB := e.inB[l := e.inB[l] / 2])
  }

  lemma {:induction false} LoadParts(s: State, dest: nat, from: nat)
    requires s.Valid()
    ensures LoadInputs(s, dest, from) ==
            TakeB(TakeA(s.(getinCnt := (s.getinCnt + 1) % U32), CurrentLane(s), from), CurrentLane(s), dest)
  {
  }

  /** Generates the ROM and installs it whatever the flash held; what lies beyond stays. */
  method LoadRom(dev: NandInterface) returns (n: nat, ghost cells: seq<Cell>, ghost qs: seq<Ports>, ghost steps: int)
    requires ROM_SIZE <= |dev.mem|
    modifies dev
    ensures Plan(cells, qs, steps) && Loadable(RoundCode(cells, qs, steps)) && n == |RoundCode(cells, qs, steps)|
    ensures forall i | 0 <= i < n :: Fits(Link(RoundCode(cells, qs, steps))[i])
    ensures dev.mem == Image(Link(RoundCode(cells, qs, steps))) + old(dev.mem)[ROM_SIZE..]
  {
    var counters := new Counters(0, RAM);
    var code;
    code, cells, qs, steps := RomInit(counters);
    PlanLoadable(cells, qs, steps);
    LinkFits(RoundCode(cells, qs, steps));
    var image := Assemble(code);
    var ok := InstallRom(dev, image);
    assert ok;
    n := |code|;
  }

  class CPU {
    const nand: NandInterface
    var pc: nat
    const page: array<byte>
    const rom: array<byte>  // the cached ROM page
    const out: array<u64>
    const inA: array<u64>
    const inB: array<u64>
    var signal: bool
    const isJmp: array<bool>
    var romSize: nat
    var getinCnt: nat
    var pageOffset: nat
    var preOffset: nat
    var nandSize: nat
    ghost var erases: nat

    ghost const cells: seq<Cell>  // the scheduled netlist in ROM, its ports and its depth
    ghost const qs: seq<Ports>
    ghost const steps: int

    ghost function Repr(): set<object> {
      {this, nand, page, rom, out, inA, inB, isJmp}
    }

    /** The buffers have their sizes and do not share memory; the flash has its size. */
    ghost predicate Laid()
      reads this, nand
    {
      page.Length == rom.Length == PAGE_SIZ && out.Length == inA.Length == inB.Length == isJmp.Length == LANES &&
      page != rom && out != inA && out != inB && inA != inB &&
      RAM <= nandSize == |nand.mem| < U32
    }

    ghost function Model(): (s: State)
      requires Laid()
      reads this, nand, page, rom, out, inA, inB, isJmp
      ensures s.Valid()
    {
      State(pc, page[..], rom[..], out[..], inA[..], inB[..], signal, isJmp[..],
            getinCnt, pageOffset, preOffset, nandSize, nand.mem, erases)
    }

    /** The program in ROM is a planned round, and the machine is between two rounds. */
    ghost predicate Ready()
      reads Repr()
    {
      Laid() && Plan(cells, qs, steps) && Loadable(RoundCode(cells, qs, steps)) &&
      romSize == |RoundCode(cells, qs, steps)| && Between(Model(), RoundCode(cells, qs, steps), ALL_COLUMNS)
    }

    /** Installs the ROM and erases the rest. */
    constructor (dev: NandInterface)
      requires RAM + PAGE_SIZ <= |dev.mem| < U32
      modifies dev
      ensures Ready() && nand == dev && fresh(page) && fresh(rom) && fresh(out) && fresh(inA) && fresh(inB)
      ensures fresh(isJmp)
      ensures pageOffset == 0 && erases == 1 && nandSize == |old(dev.mem)|
    {
      hide Loadable, RoundCode, Wiped, Image, Link;
      ghost var scheduled, ports, depth;
      var n;
      n, scheduled, ports, depth := LoadRom(dev);
      cells, qs, steps := scheduled, ports, depth;
      nand, pc, signal, romSize, getinCnt, pageOffset, preOffset := dev, 0, false, n, 0, 0, 0;
      page, rom := new byte[PAGE_SIZ](i => 0), new byte[PAGE_SIZ](i => 0);
      out, inA, inB := new u64[LANES](i => 0), new u64[LANES](i => 0), new u64[LANES](i => 0);
      isJmp := new bool[LANES](i => false);
      nandSize, erases := dev.Size(), 0;
      new;
      ghost var installed := Model();
      EraseNand();
      assert Model() == EraseArea(installed);
      InstalledIsFresh(Model(), RoundCode(cells, qs, steps), old(dev.mem)[ROM_SIZE..]);
    }

    function GetRomSize(): nat
      reads this
    {
      romSize
    }

    /** The address registers are 32 bits wide. */
    function PhysOf(addr: nat): nat
      reads this
    {
      if addr >= RAM then (addr + pageOffset) % U32 else addr
    }

    method ClearPage()
      requires Laid()
      modifies page
      ensures Model() == old(Model()).(page := Blank(PAGE_SIZ))
    {
      for i := 0 to PAGE_SIZ
        invariant forall k | 0 <= k < i :: page[k] == ERASED
      {
        page[i] := ERASED;
      }
    }

    method EraseNand()
      requires Laid()
      modifies this`pageOffset, this`erases, nand, page
      ensures Laid() && Model() == EraseArea(old(Model()))
    {
      var ok := nand.Erase(RAM, nandSize - RAM);
      pageOffset := 0;
      erases := erases + 1;
      ClearPage();
    }

    method ReadCell(addr: nat) returns (data: byte)
      requires Laid()
      ensures data == ReadBuf(Model(), addr)
    {
      data := page[addr % PAGE_SIZ];
    }

    method EditCell(addr: nat, value: byte)
      requires Laid()
      modifies this`preOffset, page
      ensures Laid() && Model() == EditBuf(old(Model()), addr, value)
    {
      var offset := PhysOf(addr) / PAGE_SIZ * PAGE_SIZ;
      if offset != preOffset {
        ClearPage();
      }
      page[addr % PAGE_SIZ] := value;
      preOffset := offset;
    }

    /** Programs the buffer into the flash and reads the result back. */
    method ProgramPage(offset: nat)
      requires Laid()
      modifies nand, page
      ensures offset + PAGE_SIZ > |old(nand.mem)| ==> nand.mem == old(nand.mem) && page[..] == old(page[..])
      ensures offset + PAGE_SIZ <= |old(nand.mem)| ==>
                nand.mem == Program(old(nand.mem), offset, old(page[..])) &&
                page[..] == nand.mem[offset..offset + PAGE_SIZ]
    {
      var written := nand.Write(offset, page);
      var read := nand.Read(offset, page);
    }

    method WriteNand(addr: nat)
      requires Laid()
      modifies nand, page
      ensures Laid() && Model() == WritePage(old(Model()), addr)
    {
      ProgramPage(PhysOf(addr) / PAGE_SIZ * PAGE_SIZ);
    }

    /** Reads the ROM page at a page boundary and decodes the word at pc. */
    method Fetch() returns (i: Instr)
      requires Laid() && pc % PAGE_SIZ <= PAGE_SIZ - 8
      modifies rom
      ensures Laid() && Model() == CachePage(old(Model())) && i == Fetched(Model())
    {
      if pc % PAGE_SIZ == 0 {
        var ok := nand.Read(pc, rom);
      }
      var at := pc % PAGE_SIZ;
      i := Decode(FromBytes(rom[at..at + 8]));
    }

    method TakeInputA(lane: nat, from: nat)
      requires Laid() && lane < LANES
      modifies this`preOffset, page, inA
      ensures Laid() && Model() == TakeA(old(Model()), lane, from)
    {
      EditCell(from, if inA[lane] % 2 == 1 then 0xff else 0);
      inA[lane] := inA[lane] / 2;
    }

    method TakeInputB(lane: nat, dest: nat)
      requires Laid() && lane < LANES
      modifies this`preOffset, page, inB
      ensures Laid() && Model() == TakeB(old(Model()), lane, dest)
    {
      EditCell(dest, if inB[lane] % 2 == 1 then 0xff else 0);
      inB[lane] := inB[lane] / 2;
    }

    /** GET_IN: the lowest bits of the current lane's inputs go into two cells. */
    method GetInput(dest: nat, from: nat)
      requires Laid()
      modifies this`getinCnt, this`preOffset, page, inA, inB
      ensures Laid() && Model() == LoadInputs(old(Model()), dest, from)
    {
      var lane := getinCnt / DIGIT;
      if lane >= LANES {
        lane := LANES - 1;
      }
      getinCnt := (getinCnt + 1) % U32;
      TakeInputA(lane, from);
      TakeInputB(lane, dest);
      LoadParts(old(Model()), dest, from);
    }

    /** RAISE: the flag of a lane; the last lane ends the round. */
    method RaiseFlag(dest: nat, from: nat)
      requires Laid()
      modifies this`signal, this`pageOffset, this`erases, nand, page, isJmp
      ensures Laid() && Model() == RaiseLane(old(Model()), dest, from)
    {
      var data := ReadCell(from);
      isJmp[dest % LANES] := Vote(data);
      if dest % LANES == LANES - 1 {
        signal := true;
        pageOffset := (pageOffset + PAGE_SIZ) % U32;
        if (RAM + pageOffset + PAGE_SIZ) % U32 > nandSize {
          EraseNand();
        }
      }
    }

    method PushBit(dest: nat, from: nat)
      requires Laid()
      modifies out
      ensures Laid() && Model() == Perform(old(Model()), Micro(PushOut, dest, from))
    {
      var data := ReadCell(from);
      var bit := Vote(data);
      out[dest % LANES] := Shift(out[dest % LANES], bit);
    }

    method Execute(i: Instr)
      requires Laid()
      modifies this`pc, this`signal, this`getinCnt, this`pageOffset, this`preOffset, this`erases
      modifies nand, page, out, inA, inB, isJmp
      ensures Laid() && Model() == Machine.Execute(old(Model()), i)
    {
      signal := false;
      match i.op {
        case Mov =>
          var data := ReadCell(i.from);
          EditCell(i.dest, data);
        case InvMov =>
          var data := ReadCell(i.from);
          EditCell(i.dest, Complement(data));
        case CapIn => getinCnt := 0;
        case GetIn => GetInput(i.dest, i.from);
        case PrgNand => WriteNand(i.dest);
        case PushOut => PushBit(i.dest, i.from);
        case Raise => RaiseFlag(i.dest, i.from);
        case Erase => EraseNand();
      }
      pc := i.next;
    }
  }
}
