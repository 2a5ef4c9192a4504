/** One whole round: from inputs in the registers to differences in the registers, through
    nothing but loads, copies and page programs, with up to three bad bit columns. */
module Round {
  import opened Bits
  import opened Graph
  import opened Circuit
  import opened Lane
  import opened Cells
  import opened Microcode
  import opened Compile
  import opened Machine
  import opened Runs
  import opened Control
  import opened RoundPlan
  import opened Voting

  function AllTrue(n: nat): (bs: seq<bool>)
    ensures |bs| == n && forall i | 0 <= i < n :: bs[i]
  {
    seq(n, i => true)
  }

  // ----- the page buffer

  /** Column k of the buffer as the next edit will find it: erased, if it belongs to another page. */
  function EditableBits(s: State, k: nat): (bs: seq<bool>)
    requires OnPage(s)
    ensures |bs| == PAGE_SIZ
  {
    if s.preOffset == Current(s) then BitsOf(s.page, k) else AllTrue(PAGE_SIZ)
  }

  lemma {:induction false} PhysOnPage(s: State, addr: nat)
    requires OnPage(s) && RAM <= addr < RAM + PAGE_SIZ
    ensures PageBase(Phys(addr, s.pageOffset)) == Current(s) && addr % PAGE_SIZ == addr - RAM
  {
  }

  /** An edit changes one cell of the buffer, in every column. */
  lemma {:induction false} EditColumn(s: State, addr: nat, value: byte, k: nat)
    requires OnPage(s) && RAM <= addr < RAM + PAGE_SIZ && k < 8
    ensures var n := EditBuf(s, addr, value);
            n == s.(page := n.page, preOffset := Current(s)) && OnPage(n) &&
            EditableBits(n, k) == EditableBits(s, k)[addr - RAM := BitAt(value, k)] &&
            EditableBits(n, k) == BitsOf(n.page, k)
  {
    PhysOnPage(s, addr);
    forall i | 0 <= i < PAGE_SIZ ensures BitAt(Blank(PAGE_SIZ)[i], k) {
      BitOfErased(k);
    }
    var n := EditBuf(s, addr, value);
    assert BitsOf(n.page, k) == EditableBits(s, k)[addr - RAM := BitAt(value, k)];
  }

  /** A data instruction acts on every column as the column semantics says. */
  lemma {:induction false} ComputeColumn(s: State, m: Micro, k: nat)
    requires OnPage(s) && s.preOffset == Current(s) && Computes(m) && k < 8
    ensures var n := Perform(s, m);
            n == s.(page := n.page, flash := n.flash) && |n.flash| == |s.flash| && OnPage(n) &&
            ColumnOf(n, k) == StepColumn(m, ColumnOf(s, k))
  {
    if m == PROGRAM_PAGE {
      PhysOnPage(s, RAM);
      BitsOfProgrammed(CurrentPage(s), s.page, k);
      ProgrammedPage(s.flash, Current(s), s.page);
    } else {
      PhysOnPage(s, m.from);
      BitOfComplement(ReadBuf(s, m.from), k);
      EditColumn(s, m.dest, if m.op == Mov then ReadBuf(s, m.from) else Complement(ReadBuf(s, m.from)), k);
    }
  }

  lemma {:induction false} ProgrammedPage(flash: seq<byte>, offset: nat, data: seq<byte>)
    requires offset + |data| <= |flash|
    ensures Program(flash, offset, data)[offset..offset + |data|] == Programmed(flash[offset..offset + |data|], data)
  {
  }

  // ----- loading the inputs

  /** Input u of the round: bit (u / 2) % DIGIT of a or b of lane u / 2 / DIGIT. */
  predicate InputBit(a: seq<u64>, b: seq<u64>, u: nat)
    requires |a| == |b| == LANES && u < 2 * INPUTS
  {
    BitAt(if u % 2 == 0 then a[u / 2 / DIGIT] else b[u / 2 / DIGIT], u / 2 % DIGIT)
  }

  /** A column of the page after the first u inputs have been loaded into an erased buffer. */
  function Loaded(qs: seq<Ports>, a: seq<u64>, b: seq<u64>, u: nat): (bs: seq<bool>)
    requires Shaped(qs) && |a| == |b| == LANES && u <= 2 * INPUTS
    requires forall i | 0 <= i < 2 * INPUTS :: LoadCell(qs, i) < PAGE_SIZ
    ensures |bs| == PAGE_SIZ
  {
    if u == 0 then AllTrue(PAGE_SIZ)
    else Loaded(qs, a, b, u - 1)[LoadCell(qs, u - 1) := InputBit(a, b, u - 1)]
  }

  /** Loading fills the input cells and leaves all others erased. */
  lemma {:induction false} LoadedHolds(qs: seq<Ports>, a: seq<u64>, b: seq<u64>, u: nat)
    requires Shaped(qs) && |a| == |b| == LANES && u <= 2 * INPUTS
    requires forall i | 0 <= i < 2 * INPUTS :: LoadCell(qs, i) < PAGE_SIZ
    requires forall i, i' | 0 <= i < i' < 2 * INPUTS :: LoadCell(qs, i) < LoadCell(qs, i')
    ensures forall i | 0 <= i < u :: Loaded(qs, a, b, u)[LoadCell(qs, i)] == InputBit(a, b, i)
    ensures forall c | 0 <= c < PAGE_SIZ && (forall i | 0 <= i < u :: LoadCell(qs, i) != c) :: Loaded(qs, a, b, u)[c]
  {
    if u > 0 {
      LoadedHolds(qs, a, b, u - 1);
      var bs, bs' := Loaded(qs, a, b, u), Loaded(qs, a, b, u - 1);
      forall i | 0 <= i < u ensures bs[LoadCell(qs, i)] == InputBit(a, b, i) {
        if i < u - 1 {
          assert LoadCell(qs, i) < LoadCell(qs, u - 1);
        }
      }
      forall c | 0 <= c < PAGE_SIZ && (forall i | 0 <= i < u :: LoadCell(qs, i) != c) ensures bs[c] {
        assert LoadCell(qs, u - 1) != c;
      }
    }
  }

  /** How many bits of lane l's inputs the first t loads have consumed. */
  function Consumed(t: nat, l: nat): (n: nat)
    ensures n <= DIGIT
  {
    if t <= l * DIGIT then 0 else if t >= (l + 1) * DIGIT then DIGIT else t - l * DIGIT
  }

  /** x has been shifted down by n places. */
  ghost predicate ShiftedBy(x: nat, whole: nat, n: nat) {
    forall j: nat :: BitAt(x, j) == BitAt(whole, j + n)
  }

  /** The state after t loads. */
  ghost predicate AfterLoads(s: State, qs: seq<Ports>, a: seq<u64>, b: seq<u64>, t: nat, good: set<nat>)
    requires Shaped(qs) && |a| == |b| == LANES && t <= INPUTS
    requires forall i | 0 <= i < 2 * INPUTS :: LoadCell(qs, i) < PAGE_SIZ
  {
    OnPage(s) && s.getinCnt == t && (t > 0 ==> s.preOffset == Current(s)) &&
    (forall l | 0 <= l < LANES ::
       ShiftedBy(s.inA[l], a[l], Consumed(t, l)) && ShiftedBy(s.inB[l], b[l], Consumed(t, l))) &&
    forall k | k in good ::
      BitsOf(CurrentPage(s), k) == AllTrue(PAGE_SIZ) && EditableBits(s, k) == Loaded(qs, a, b, 2 * t)
  }

  function BitByte(bit: bool): byte {
    if bit then 0xff else 0
  }

  /** The byte loaded for a bit has that bit in every column. */
  lemma {:induction false} LoadedByte(bit: bool, k: nat)
    requires k < 8
    ensures BitAt(BitByte(bit), k) == bit
  {
    BitOfErased(k);
  }

  lemma {:induction false} ShiftOnce(x: nat, whole: nat, n: nat)
    requires ShiftedBy(x, whole, n)
    ensures (x % 2 == 1) == BitAt(whole, n) && ShiftedBy(x / 2, whole, n + 1)
  {
    assert BitAt(x, 0) == BitAt(whole, 0 + n);
    forall j: nat ensures BitAt(x / 2, j) == BitAt(whole, j + (n + 1)) {
      assert BitAt(x, j + 1) == BitAt(whole, (j + 1) + n);
    }
  }

  /** The lane counter selects the lane, and the instruction is two edits and two shifts. */
  lemma {:induction false} LoadIsTwoEdits(s: State, dest: nat, from: nat)
    requires s.Valid() && s.getinCnt < INPUTS
    ensures var l := s.getinCnt / DIGIT;
            l < LANES &&
            var s1 := EditBuf(s.(getinCnt := s.getinCnt + 1), from, BitByte(s.inA[l] % 2 == 1));
            var s2 := EditBuf(s1.(inA := s.inA[l := s.inA[l] / 2]), dest, BitByte(s.inB[l] % 2 == 1));
            LoadInputs(s, dest, from) == s2.(inB := s.inB[l := s.inB[l] / 2])
  {
    assert CurrentLane(s) == s.getinCnt / DIGIT;
  }

  /** Two edits, seen in one column. */
  lemma {:induction false} TwoEdits(s: State, s1: State, s2: State, ca: nat, cb: nat, va: bool, vb: bool, k: nat)
    requires OnPage(s) && ca < PAGE_SIZ && cb < PAGE_SIZ && k < 8
    requires s1 == EditBuf(s, RAM + ca, BitByte(va))
    requires s2.Valid() && s2 == s1.(inA := s2.inA)
    ensures var n := EditBuf(s2, RAM + cb, BitByte(vb));
            n == s2.(page := n.page, preOffset := Current(s)) && OnPage(n) &&
            s1 == s.(page := s1.page, preOffset := Current(s)) &&
            EditableBits(n, k) == EditableBits(s, k)[ca := va][cb := vb]
  {
    EditColumn(s, RAM + ca, BitByte(va), k);
    LoadedByte(va, k);
    assert EditableBits(s2, k) == EditableBits(s1, k);
    EditColumn(s2, RAM + cb, BitByte(vb), k);
    LoadedByte(vb, k);
  }

  /** One input instruction: two cells are loaded, the lane's registers shift by one. */
  lemma {:induction false} LoadStep(s: State, m: Micro, ca: nat, cb: nat, k: nat)
    requires OnPage(s) && m == Micro(GetIn, RAM + cb, RAM + ca) && ca < PAGE_SIZ && cb < PAGE_SIZ && k < 8
    requires s.getinCnt < INPUTS
    ensures var n, l := Perform(s, m), s.getinCnt / DIGIT;
            l < LANES &&
            n == s.(page := n.page, preOffset := Current(s), getinCnt := s.getinCnt + 1,
                    inA := s.inA[l := s.inA[l] / 2], inB := s.inB[l := s.inB[l] / 2]) &&
            OnPage(n) && EditableBits(n, k) == EditableBits(s, k)[ca := s.inA[l] % 2 == 1][cb := s.inB[l] % 2 == 1]
  {
    var l := s.getinCnt / DIGIT;
    LoadIsTwoEdits(s, m.dest, m.from);
    var s0 := s.(getinCnt := s.getinCnt + 1);
    var s1 := EditBuf(s0, RAM + ca, BitByte(s.inA[l] % 2 == 1));
    TwoEdits(s0, s1, s1.(inA := s.inA[l := s.inA[l] / 2]), ca, cb, s.inA[l] % 2 == 1, s.inB[l] % 2 == 1, k);
    var s3 := EditBuf(s1.(inA := s.inA[l := s.inA[l] / 2]), RAM + cb, BitByte(s.inB[l] % 2 == 1));
    assert EditableBits(s0, k) == EditableBits(s, k);
    assert EditableBits(Perform(s, m), k) == EditableBits(s3, k);
  }

  // ----- the sections of a round, instruction by instruction

  lemma {:induction false} LoadsAgree(n: State, t: State, qs: seq<Ports>, a: seq<u64>, b: seq<u64>, j: nat,
      good: set<nat>)
    requires Shaped(qs) && |a| == |b| == LANES && j <= INPUTS
    requires forall i | 0 <= i < 2 * INPUTS :: LoadCell(qs, i) < PAGE_SIZ
    requires AfterLoads(n, qs, a, b, j, good) && Agree(n, t, good) && t.Valid()
    ensures AfterLoads(t, qs, a, b, j, good)
  {
    forall k | k in good
      ensures BitsOf(CurrentPage(t), k) == AllTrue(PAGE_SIZ) && EditableBits(t, k) == Loaded(qs, a, b, 2 * j)
    {
      AgreeingColumns(n, t, good, k);
      assert ColumnOf(n, k) == ColumnOf(t, k);
    }
  }

  /** Load number j: the registers. */
  lemma {:induction false} LoadShifts(s: State, n: State, a: seq<u64>, b: seq<u64>, j: nat)
    requires |a| == |b| == LANES == |s.inA| == |s.inB| && j < INPUTS
    requires forall l | 0 <= l < LANES ::
               ShiftedBy(s.inA[l], a[l], Consumed(j, l)) && ShiftedBy(s.inB[l], b[l], Consumed(j, l))
    requires var l := j / DIGIT; n.inA == s.inA[l := s.inA[l] / 2] && n.inB == s.inB[l := s.inB[l] / 2]
    ensures forall l | 0 <= l < LANES ::
              ShiftedBy(n.inA[l], a[l], Consumed(j + 1, l)) && ShiftedBy(n.inB[l], b[l], Consumed(j + 1, l))
    ensures (s.inA[j / DIGIT] % 2 == 1) == InputBit(a, b, 2 * j)
    ensures (s.inB[j / DIGIT] % 2 == 1) == InputBit(a, b, 2 * j + 1)
  {
    var l := j / DIGIT;
    assert Consumed(j, l) == j % DIGIT && Consumed(j + 1, l) == j % DIGIT + 1;
    ShiftOnce(s.inA[l], a[l], j % DIGIT);
    ShiftOnce(s.inB[l], b[l], j % DIGIT);
    forall l' | 0 <= l' < LANES && l' != l ensures Consumed(j + 1, l') == Consumed(j, l') {
    }
  }

  /** The program counter, the ROM cache and the signal do not matter to the data. */
  lemma {:induction false} LoadsFrame(s: State, t: State, qs: seq<Ports>, a: seq<u64>, b: seq<u64>, j: nat,
      good: set<nat>)
    requires Shaped(qs) && |a| == |b| == LANES && j <= INPUTS
    requires forall i | 0 <= i < 2 * INPUTS :: LoadCell(qs, i) < PAGE_SIZ
    requires AfterLoads(s, qs, a, b, j, good) && t == s.(pc := t.pc, rom := t.rom, signal := t.signal) && t.Valid()
    ensures AfterLoads(t, qs, a, b, j, good)
  {
  }

  /** Load number j. */
  lemma {:induction false} LoadAdvances(s: State, ops: seq<Micro>, i: nat, qs: seq<Ports>,
      a: seq<u64>, b: seq<u64>, j: nat, good: set<nat>)
    requires Shaped(qs) && |a| == |b| == LANES && j < INPUTS && forall k | k in good :: k < 8
    requires forall i | 0 <= i < 2 * INPUTS :: LoadCell(qs, i) < PAGE_SIZ
    requires Loadable(ops) && AtInstr(s, ops, i) && AfterLoads(s, qs, a, b, j, good)
    requires ops[i] == Micro(GetIn, RAM + LoadCell(qs, 2 * j + 1), RAM + LoadCell(qs, 2 * j))
    ensures AfterLoads(Step(s), qs, a, b, j + 1, good) && Step(s).out == s.out
  {
    StepPerforms(s, ops, i);
    var c := CachePage(s).(signal := false);
    LoadsFrame(s, c, qs, a, b, j, good);
    LoadEffect(c, ops[i], qs, a, b, j, good);
    LoadsFrame(Perform(c, ops[i]), Step(s), qs, a, b, j + 1, good);
  }

  lemma {:induction false} LoadEffect(s: State, m: Micro, qs: seq<Ports>, a: seq<u64>, b: seq<u64>, j: nat,
      good: set<nat>)
    requires Shaped(qs) && |a| == |b| == LANES && j < INPUTS && forall k | k in good :: k < 8
    requires forall i | 0 <= i < 2 * INPUTS :: LoadCell(qs, i) < PAGE_SIZ
    requires m == Micro(GetIn, RAM + LoadCell(qs, 2 * j + 1), RAM + LoadCell(qs, 2 * j))
    requires AfterLoads(s, qs, a, b, j, good)
    ensures AfterLoads(Perform(s, m), qs, a, b, j + 1, good) && Perform(s, m).out == s.out
  {
    var n, ca, cb := Perform(s, m), LoadCell(qs, 2 * j), LoadCell(qs, 2 * j + 1);
    LoadStep(s, m, ca, cb, 0);
    LoadShifts(s, n, a, b, j);
    assert CurrentPage(n) == CurrentPage(s);
    forall k | k in good
      ensures BitsOf(CurrentPage(n), k) == AllTrue(PAGE_SIZ) && EditableBits(n, k) == Loaded(qs, a, b, 2 * (j + 1))
    {
      LoadStep(s, m, ca, cb, k);
      LoadedTwice(qs, a, b, j);
    }
  }

  lemma {:induction false} LoadedNext(qs: seq<Ports>, a: seq<u64>, b: seq<u64>, u: nat)
    requires Shaped(qs) && |a| == |b| == LANES && u < 2 * INPUTS
    requires forall i | 0 <= i < 2 * INPUTS :: LoadCell(qs, i) < PAGE_SIZ
    ensures Loaded(qs, a, b, u + 1) == Loaded(qs, a, b, u)[LoadCell(qs, u) := InputBit(a, b, u)]
  {
  }

  lemma {:induction false} LoadedTwice(qs: seq<Ports>, a: seq<u64>, b: seq<u64>, j: nat)
    requires Shaped(qs) && |a| == |b| == LANES && j < INPUTS
    requires forall i | 0 <= i < 2 * INPUTS :: LoadCell(qs, i) < PAGE_SIZ
    ensures Loaded(qs, a, b, 2 * (j + 1)) ==
            Loaded(qs, a, b, 2 * j)[LoadCell(qs, 2 * j) := InputBit(a, b, 2 * j)]
                                   [LoadCell(qs, 2 * j + 1) := InputBit(a, b, 2 * j + 1)]
  {
    var u := 2 * j;
    LoadedNext(qs, a, b, u);
    LoadedNext(qs, a, b, u + 1);
    assert 2 * (j + 1) == (u + 1) + 1;
  }

  /** The page in use is erased and the next edit finds an erased buffer, in every good column. */
  ghost predicate Erased(s: State, good: set<nat>) {
    OnPage(s) &&
    forall k | k in good :: BitsOf(CurrentPage(s), k) == AllTrue(PAGE_SIZ) && EditableBits(s, k) == AllTrue(PAGE_SIZ)
  }

  /** CAP_IN resets the input counter. */
  lemma {:induction false} CaptureInput(s: State, t: State, ops: seq<Micro>, qs: seq<Ports>, good: set<nat>)
    requires Loadable(ops) && LoadsIn(ops, qs) && AtInstr(s, ops, 0) && Erased(s, good)
    requires t.Valid() && Agree(Step(s), t, good)
    ensures AfterLoads(t, qs, s.inA, s.inB, 0, good) && t.out == s.out
  {
    StepPerforms(s, ops, 0);
    var s0 := s.(getinCnt := 0);
    forall l | 0 <= l < LANES ensures ShiftedBy(s.inA[l], s.inA[l], 0) && ShiftedBy(s.inB[l], s.inB[l], 0) {
    }
    forall k | k in good
      ensures BitsOf(CurrentPage(s0), k) == AllTrue(PAGE_SIZ) && EditableBits(s0, k) == AllTrue(PAGE_SIZ)
    {
      assert CurrentPage(s0) == CurrentPage(s) && EditableBits(s0, k) == EditableBits(s, k);
    }
    LoadsFrame(s0, Step(s), qs, s.inA, s.inB, 0, good);
    LoadsAgree(Step(s), t, qs, s.inA, s.inB, 0, good);
  }

  /** Load number j of a run, with faults. */
  lemma {:induction false} OneLoad(s: State, t: State, ops: seq<Micro>, i: nat, qs: seq<Ports>,
      a: seq<u64>, b: seq<u64>, j: nat, good: set<nat>)
    requires Shaped(qs) && |a| == |b| == LANES && j < INPUTS && forall k | k in good :: k < 8
    requires forall i | 0 <= i < 2 * INPUTS :: LoadCell(qs, i) < PAGE_SIZ
    requires Loadable(ops) && AtInstr(s, ops, i) && AfterLoads(s, qs, a, b, j, good)
    requires ops[i] == Micro(GetIn, RAM + LoadCell(qs, 2 * j + 1), RAM + LoadCell(qs, 2 * j))
    requires Agree(Step(s), t, good) && t.Valid()
    ensures AfterLoads(t, qs, a, b, j + 1, good) && t.out == s.out
  {
    LoadAdvances(s, ops, i, qs, a, b, j, good);
    LoadsAgree(Step(s), t, qs, a, b, j + 1, good);
  }

  /** The loading section. */
  lemma {:induction false} LoadsRun(tr: seq<State>, ops: seq<Micro>, good: set<nat>, qs: seq<Ports>, j: nat)
    requires Loadable(ops) && Controlled(tr, ops, good) && LoadsIn(ops, qs) && forall k | k in good :: k < 8
    requires Erased(tr[0], good) && j <= INPUTS
    ensures AfterLoads(tr[LOADS_AT + j], qs, tr[0].inA, tr[0].inB, j, good) && tr[LOADS_AT + j].out == tr[0].out
  {
    if j == 0 {
      assert StepAt(tr, ops, 0, good);
      CaptureInput(tr[0], tr[1], ops, qs, good);
    } else {
      LoadsRun(tr, ops, good, qs, j - 1);
      assert StepAt(tr, ops, LOADS_AT + (j - 1), good);
      LoadInRun(tr, ops, good, qs, j - 1);
    }
  }

  lemma {:induction false} LoadInRun(tr: seq<State>, ops: seq<Micro>, good: set<nat>, qs: seq<Ports>, j: nat)
    requires Loadable(ops) && LoadsIn(ops, qs) && j < INPUTS && forall k | k in good :: k < 8
    requires StepAt(tr, ops, LOADS_AT + j, good) && |tr[0].inA| == |tr[0].inB| == LANES
    requires AfterLoads(tr[LOADS_AT + j], qs, tr[0].inA, tr[0].inB, j, good)
    ensures AfterLoads(tr[LOADS_AT + (j + 1)], qs, tr[0].inA, tr[0].inB, j + 1, good)
    ensures tr[LOADS_AT + (j + 1)].out == tr[LOADS_AT + j].out
  {
    OneLoad(tr[LOADS_AT + j], tr[LOADS_AT + j + 1], ops, LOADS_AT + j, qs, tr[0].inA, tr[0].inB, j, good);
  }

  /** Column c in every good column of the machine. */
  ghost predicate Holds(s: State, c: Column, good: set<nat>) {
    OnPage(s) && s.preOffset == Current(s) && forall k | k in good :: ColumnOf(s, k) == c
  }

  lemma {:induction false} HoldsAgree(n: State, t: State, c: Column, good: set<nat>)
    requires Holds(n, c, good) && Agree(n, t, good)
    ensures Holds(t, c, good)
  {
  }

  /** The program counter, the ROM cache and the signal do not matter to the columns. */
  lemma {:induction false} HoldsFrame(s: State, t: State, c: Column, good: set<nat>)
    requires Holds(s, c, good) && t == s.(pc := t.pc, rom := t.rom, signal := t.signal) && t.Valid()
    ensures Holds(t, c, good)
  {
  }

  lemma {:induction false} ComputeHolds(s: State, m: Micro, c: Column, good: set<nat>)
    requires Computes(m) && (forall k | k in good :: k < 8) && c.Valid() && Holds(s, c, good)
    ensures Holds(Perform(s, m), StepColumn(m, c), good) && Perform(s, m).out == s.out
  {
    ComputeColumn(s, m, 0);
    forall k | k in good ensures ColumnOf(Perform(s, m), k) == StepColumn(m, c) {
      ComputeColumn(s, m, k);
    }
  }

  /** A data instruction moves all good columns together. */
  lemma {:induction false} ComputeAdvances(s: State, t: State, ops: seq<Micro>, i: nat, c: Column, good: set<nat>)
    requires Loadable(ops) && AtInstr(s, ops, i) && Computes(ops[i]) && forall k | k in good :: k < 8
    requires c.Valid() && Holds(s, c, good) && Agree(Step(s), t, good)
    ensures Holds(t, StepColumn(ops[i], c), good) && t.out == s.out
  {
    StepPerforms(s, ops, i);
    var s0 := CachePage(s).(signal := false);
    HoldsFrame(s, s0, c, good);
    ComputeHolds(s0, ops[i], c, good);
    HoldsFrame(Perform(s0, ops[i]), Step(s), StepColumn(ops[i], c), good);
    HoldsAgree(Step(s), t, StepColumn(ops[i], c), good);
  }

  /** The column after loading and the first program operation. */
  function LoadedColumn(qs: seq<Ports>, a: seq<u64>, b: seq<u64>): (c: Column)
    requires Shaped(qs) && |a| == |b| == LANES
    requires forall i | 0 <= i < 2 * INPUTS :: LoadCell(qs, i) < PAGE_SIZ
    ensures c.Valid()
  {
    Column(Loaded(qs, a, b, 2 * INPUTS), Loaded(qs, a, b, 2 * INPUTS))
  }

  /** The first program operation writes the loaded inputs into the erased page. */
  lemma {:induction false} FirstProgram(tr: seq<State>, ops: seq<Micro>, good: set<nat>, qs: seq<Ports>)
    requires Loadable(ops) && Controlled(tr, ops, good) && LoadsIn(ops, qs) && forall k | k in good :: k < 8
    requires Erased(tr[0], good)
    ensures Holds(tr[STEPS_AT], LoadedColumn(qs, tr[0].inA, tr[0].inB), good) && tr[STEPS_AT].out == tr[0].out
  {
    var s, e := tr[FIRST_PROGRAM_AT], Loaded(qs, tr[0].inA, tr[0].inB, 2 * INPUTS);
    LoadsRun(tr, ops, good, qs, INPUTS);
    var c := Column(e, AllTrue(PAGE_SIZ));
    LoadedHoldsColumn(s, qs, tr[0].inA, tr[0].inB, good);
    assert StepAt(tr, ops, FIRST_PROGRAM_AT, good);
    ComputeAdvances(s, tr[STEPS_AT], ops, FIRST_PROGRAM_AT, c, good);
    assert AndAll(AllTrue(PAGE_SIZ), e) == e;
  }

  lemma {:induction false} LoadedHoldsColumn(s: State, qs: seq<Ports>, a: seq<u64>, b: seq<u64>, good: set<nat>)
    requires Shaped(qs) && |a| == |b| == LANES && forall i | 0 <= i < 2 * INPUTS :: LoadCell(qs, i) < PAGE_SIZ
    requires AfterLoads(s, qs, a, b, INPUTS, good)
    ensures Holds(s, Column(Loaded(qs, a, b, 2 * INPUTS), AllTrue(PAGE_SIZ)), good)
  {
  }

  /** The computing section: all good columns follow the column semantics. */
  lemma {:induction false} CodeRuns(tr: seq<State>, ops: seq<Micro>, good: set<nat>, code: seq<Micro>, c: Column,
      j: nat)
    requires Loadable(ops) && Controlled(tr, ops, good) && CodeIn(ops, code) && j <= |code|
    requires forall k | k in good :: k < 8
    requires c.Valid() && Holds(tr[STEPS_AT], c, good)
    ensures Holds(tr[STEPS_AT + j], RunColumn(code[..j], c), good) && tr[STEPS_AT + j].out == tr[STEPS_AT].out
  {
    if j > 0 {
      CodeRuns(tr, ops, good, code, c, j - 1);
      var i := STEPS_AT + (j - 1);
      assert StepAt(tr, ops, i, good);
      assert ops[i] == code[j - 1] && Computes(code[j - 1]);
      assert i + 1 == STEPS_AT + j;
      ComputeAdvances(tr[i], tr[STEPS_AT + j], ops, i, RunColumn(code[..j - 1], c), good);
      RunSnoc(code, c, j);
    }
  }

  lemma {:induction false} RunSnoc(code: seq<Micro>, c: Column, j: nat)
    requires c.Valid() && 0 < j <= |code|
    ensures RunColumn(code[..j], c) == StepColumn(code[j - 1], RunColumn(code[..j - 1], c))
  {
    assert code[..j][..j - 1] == code[..j - 1];
  }

  /** The cells of the page after all steps, the same in every good column. */
  function Settled(cells: seq<Cell>, qs: seq<Ports>, steps: int, a: seq<u64>, b: seq<u64>): (v: seq<bool>)
    requires Shaped(qs) && SourcesExist(cells) && |a| == |b| == LANES
    requires forall i | 0 <= i < 2 * INPUTS :: LoadCell(qs, i) < PAGE_SIZ
    ensures |v| == PAGE_SIZ
  {
    RunColumn(EmitSteps(cells, RAM, steps), LoadedColumn(qs, a, b)).buf
  }

  /** The settled page is a state of the circuit with the loaded inputs. */
  lemma {:induction false} SettledComputes(cells: seq<Cell>, qs: seq<Ports>, steps: int, a: seq<u64>, b: seq<u64>)
    requires Plan(cells, qs, steps) && |a| == |b| == LANES
    requires forall i | 0 <= i < 2 * INPUTS :: LoadCell(qs, i) < PAGE_SIZ
    ensures Consistent(Settled(cells, qs, steps, a, b), GraphOf(cells))
    ensures forall u | 0 <= u < 2 * INPUTS :: Settled(cells, qs, steps, a, b)[LoadCell(qs, u)] == InputBit(a, b, u)
  {
    var c := LoadedColumn(qs, a, b);
    LoadedHolds(qs, a, b, 2 * INPUTS);
    forall d | 0 <= d < |cells| && cells[d].ins != [] ensures c.flash[d] {
      forall u | 0 <= u < 2 * INPUTS ensures LoadCell(qs, u) != d {
      }
    }
    EmittedCodeComputes(cells, RAM, c, steps);
  }

  // ----- pushing out the sums

  lemma {:induction false} VoteReads(s: State, c: Column, good: set<nat>, cell: nat)
    requires Holds(s, c, good) && (forall k | k in good :: k < 8) && cell < PAGE_SIZ && c.Valid()
    ensures Voted(MajorityVote(ReadBuf(s, RAM + cell)), c.buf[cell], |good|)
  {
    assert ReadBuf(s, RAM + cell) == s.page[cell];
    forall k | k in good ensures BitAt(s.page[cell], k) == c.buf[cell] {
      assert ColumnOf(s, k).buf[cell] == BitAt(s.page[cell], k);
    }
    VoteOfGood(s.page[cell], good, c.buf[cell]);
  }

  /** The output registers after j pushes: what was in them has moved down, the votes on the
      sum bits follow. */
  ghost predicate PushedOut(out: seq<u64>, out0: seq<u64>, v: seq<bool>, qs: seq<Ports>, j: nat, columns: nat)
    requires Shaped(qs) && |out| == |out0| == LANES && j <= INPUTS
  {
    forall l | 0 <= l < LANES :: Pushed(out[l], out0[l], Values(v, qs[l].sum), Consumed(j, l), columns)
  }

  ghost predicate Pushed(x: u64, x0: u64, bits: seq<bool>, n: nat, columns: nat)
    requires |bits| == DIGIT && n <= DIGIT
  {
    FromNat(x, DIGIT)[..DIGIT - n] == FromNat(x0, DIGIT)[n..] &&
    AllVoted(FromNat(x, DIGIT)[DIGIT - n..], bits[..n], columns)
  }

  /** Bit by bit, what the votes make of a string of bits. */
  ghost predicate AllVoted(got: seq<bool>, bits: seq<bool>, columns: nat) {
    |got| == |bits| && forall k | 0 <= k < |bits| :: Voted(got[k], bits[k], columns)
  }

  lemma {:induction false} PushBit(x: u64, x0: u64, bits: seq<bool>, n: nat, b: bool, columns: nat)
    requires |bits| == DIGIT && n < DIGIT && Pushed(x, x0, bits, n, columns) && Voted(b, bits[n], columns)
    ensures Pushed(Shift(x, b), x0, bits, n + 1, columns)
  {
    ShiftRegister(x, b);
    var was, now, low := FromNat(x, DIGIT), FromNat(Shift(x, b), DIGIT), FromNat(x0, DIGIT);
    assert now[..DIGIT - (n + 1)] == was[..DIGIT - n][1..] == low[n..][1..] == low[n + 1..];
    assert now[DIGIT - (n + 1)..] == was[DIGIT - n..] + [b];
    assert bits[..n + 1] == bits[..n] + [bits[n]];
  }

  lemma {:induction false} ShiftRegister(x: u64, b: bool)
    ensures FromNat(Shift(x, b), DIGIT) == FromNat(x, DIGIT)[1..] + [b]
  {
    Pow2Of64();
    ShiftIn(x, DIGIT, b);
  }

  lemma {:induction false} PushesStep(out: seq<u64>, out': seq<u64>, out0: seq<u64>, v: seq<bool>, qs: seq<Ports>,
      j: nat, b: bool, columns: nat)
    requires Shaped(qs) && |out| == |out0| == LANES && j < INPUTS && PushedOut(out, out0, v, qs, j, columns)
    requires var l := j / DIGIT; out' == out[l := Shift(out[l], b)] && Voted(b, Read(v, SumCell(qs, j)), columns)
    ensures PushedOut(out', out0, v, qs, j + 1, columns)
  {
    var l := j / DIGIT;
    assert Consumed(j, l) == j % DIGIT && Consumed(j + 1, l) == j % DIGIT + 1;
    assert Values(v, qs[l].sum)[j % DIGIT] == Read(v, SumCell(qs, j));
    PushBit(out[l], out0[l], Values(v, qs[l].sum), j % DIGIT, b, columns);
    forall l' | 0 <= l' < LANES && l' != l ensures Consumed(j + 1, l') == Consumed(j, l') {
    }
  }

  /** Output registers and flags do not matter to the columns. */
  lemma {:induction false} OutFrame(s: State, t: State, c: Column, good: set<nat>)
    requires Holds(s, c, good) && t.Valid()
    requires t == s.(pc := t.pc, rom := t.rom, signal := t.signal, out := t.out, isJmp := t.isJmp)
    ensures Holds(t, c, good)
  {
  }

  lemma {:induction false} PushHolds(s: State, l: nat, cell: nat, c: Column, good: set<nat>) returns (b: bool)
    requires c.Valid() && Holds(s, c, good) && (forall k | k in good :: k < 8)
    requires l < LANES && cell < PAGE_SIZ
    ensures var n := Perform(s, Micro(PushOut, l, RAM + cell));
            n == s.(out := s.out[l := Shift(s.out[l], b)]) && Holds(n, c, good)
    ensures Voted(b, c.buf[cell], |good|)
  {
    b := MajorityVote(ReadBuf(s, RAM + cell));
    VoteReads(s, c, good, cell);
    OutFrame(s, Perform(s, Micro(PushOut, l, RAM + cell)), c, good);
  }

  /** One output instruction. */
  lemma {:induction false} PushAdvances(s: State, t: State, ops: seq<Micro>, i: nat, l: nat, cell: nat, c: Column,
      good: set<nat>) returns (b: bool)
    requires Loadable(ops) && AtInstr(s, ops, i) && ops[i] == Micro(PushOut, l, RAM + cell)
    requires c.Valid() && Holds(s, c, good) && (forall k | k in good :: k < 8)
    requires l < LANES && cell < PAGE_SIZ && Agree(Step(s), t, good)
    ensures Holds(t, c, good) && t.out == s.out[l := Shift(s.out[l], b)] && Voted(b, c.buf[cell], |good|)
  {
    StepPerforms(s, ops, i);
    var s0 := CachePage(s).(signal := false);
    HoldsFrame(s, s0, c, good);
    b := PushHolds(s0, l, cell, c, good);
    HoldsFrame(Perform(s0, ops[i]), Step(s), c, good);
    HoldsAgree(Step(s), t, c, good);
  }

  /** Push number j, in the columns and in the registers. */
  lemma {:induction false} OnePush(s: State, t: State, ops: seq<Micro>, i: nat, qs: seq<Ports>, out0: seq<u64>,
      j: nat, c: Column, good: set<nat>)
    requires Loadable(ops) && AtInstr(s, ops, i) && Shaped(qs) && j < INPUTS && |out0| == LANES
    requires ops[i] == Micro(PushOut, j / DIGIT, RAM + SumCell(qs, j).cell)
    requires SumCell(qs, j).cell < PAGE_SIZ && !SumCell(qs, j).inv
    requires c.Valid() && Holds(s, c, good) && (forall k | k in good :: k < 8)
    requires PushedOut(s.out, out0, c.buf, qs, j, |good|) && Agree(Step(s), t, good) && t.Valid()
    ensures Holds(t, c, good) && PushedOut(t.out, out0, c.buf, qs, j + 1, |good|)
  {
    var b := PushAdvances(s, t, ops, i, j / DIGIT, SumCell(qs, j).cell, c, good);
    PushesStep(s.out, t.out, out0, c.buf, qs, j, b, |good|);
  }

  lemma {:induction false} PushIn(ops: seq<Micro>, p: nat, qs: seq<Ports>, j: nat)
    requires PushesIn(ops, p, qs) && j < INPUTS
    ensures p + j < |ops| && SumCell(qs, j).cell < PAGE_SIZ && !SumCell(qs, j).inv
    ensures ops[p + j] == Micro(PushOut, j / DIGIT, RAM + SumCell(qs, j).cell)
  {
  }

  /** The output section. */
  lemma {:induction false} PushesRun(tr: seq<State>, ops: seq<Micro>, good: set<nat>, p: nat, qs: seq<Ports>,
      c: Column, j: nat)
    requires Loadable(ops) && Controlled(tr, ops, good) && PushesIn(ops, p, qs) && j <= INPUTS
    requires forall k | k in good :: k < 8
    requires c.Valid() && Holds(tr[p], c, good)
    ensures Holds(tr[p + j], c, good) && tr[p].Valid() && PushedOut(tr[p + j].out, tr[p].out, c.buf, qs, j, |good|)
  {
    if j == 0 {
      PushesStart(tr[p].out, c.buf, qs, |good|);
    } else {
      PushesRun(tr, ops, good, p, qs, c, j - 1);
      assert StepAt(tr, ops, p + (j - 1), good);
      PushInRun(tr, ops, good, p, qs, tr[p].out, c, j - 1);
    }
  }

  lemma {:induction false} PushInRun(tr: seq<State>, ops: seq<Micro>, good: set<nat>, p: nat, qs: seq<Ports>,
      out0: seq<u64>, c: Column, j: nat)
    requires Loadable(ops) && PushesIn(ops, p, qs) && j < INPUTS && |out0| == LANES
    requires StepAt(tr, ops, p + j, good) && forall k | k in good :: k < 8
    requires c.Valid() && Holds(tr[p + j], c, good) && PushedOut(tr[p + j].out, out0, c.buf, qs, j, |good|)
    ensures Holds(tr[p + (j + 1)], c, good) && PushedOut(tr[p + (j + 1)].out, out0, c.buf, qs, j + 1, |good|)
  {
    PushIn(ops, p, qs, j);
    OnePush(tr[p + j], tr[p + j + 1], ops, p + j, qs, out0, j, c, good);
  }

  lemma {:induction false} PushesStart(out: seq<u64>, v: seq<bool>, qs: seq<Ports>, columns: nat)
    requires Shaped(qs) && |out| == LANES
    ensures PushedOut(out, out, v, qs, 0, columns)
  {
  }

  /** After all pushes the registers hold the votes on the sum bits, and nothing is left of what
      was there.  With five good columns these are exactly the sum bits. */
  lemma {:induction false} AllPushed(out: seq<u64>, out0: seq<u64>, v: seq<bool>, qs: seq<Ports>, l: nat, columns: nat)
    requires Shaped(qs) && |out| == |out0| == LANES && PushedOut(out, out0, v, qs, INPUTS, columns) && l < LANES
    ensures AllVoted(FromNat(out[l], DIGIT), Values(v, qs[l].sum), columns)
    ensures columns >= 5 ==> out[l] == ToNat(Values(v, qs[l].sum))
  {
    var bits, got := Values(v, qs[l].sum), FromNat(out[l], DIGIT);
    assert Consumed(INPUTS, l) == DIGIT;
    assert got[DIGIT - DIGIT..] == got && bits[..DIGIT] == bits;
    if columns >= 5 {
      assert got == bits;
      Pow2Of64();
      ToFromNat(out[l], DIGIT);
    }
  }

  // ----- raising the jump flags

  lemma {:induction false} RaiseHolds(s: State, l: nat, cell: nat, c: Column, good: set<nat>)
    requires c.Valid() && Holds(s, c, good) && (forall k | k in good :: k < 8)
    requires l < LANES && cell < PAGE_SIZ
    ensures var n := Perform(s, Micro(Raise, l, RAM + cell));
            n.out == s.out && n.isJmp == s.isJmp[l := n.isJmp[l]] && Voted(n.isJmp[l], c.buf[cell], |good|) &&
            if l < LANES - 1 then n == s.(isJmp := n.isJmp) && Holds(n, c, good) else n.signal
  {
    VoteReads(s, c, good, cell);
    if l < LANES - 1 {
      OutFrame(s, Perform(s, Micro(Raise, l, RAM + cell)), c, good);
    }
  }

  /** RAISE of any lane but the last. */
  lemma {:induction false} RaiseAdvances(s: State, t: State, ops: seq<Micro>, i: nat, l: nat, cell: nat, c: Column,
      good: set<nat>)
    requires Loadable(ops) && AtInstr(s, ops, i) && ops[i] == Micro(Raise, l, RAM + cell)
    requires c.Valid() && Holds(s, c, good) && (forall k | k in good :: k < 8)
    requires l < LANES - 1 && cell < PAGE_SIZ && t.Valid() && Agree(Step(s), t, good)
    ensures Holds(t, c, good) && t.out == s.out && t.isJmp == s.isJmp[l := t.isJmp[l]]
    ensures Voted(t.isJmp[l], c.buf[cell], |good|)
  {
    StepPerforms(s, ops, i);
    var s0 := CachePage(s).(signal := false);
    HoldsFrame(s, s0, c, good);
    RaiseHolds(s0, l, cell, c, good);
    HoldsFrame(Perform(s0, ops[i]), Step(s), c, good);
    HoldsAgree(Step(s), t, c, good);
  }

  /** RAISE of the last lane ends the round. */
  lemma {:induction false} RaiseEnds(s: State, t: State, ops: seq<Micro>, cell: nat, c: Column, good: set<nat>)
    requires Loadable(ops) && AtInstr(s, ops, |ops| - 1) && ops[|ops| - 1] == Micro(Raise, LANES - 1, RAM + cell)
    requires c.Valid() && Holds(s, c, good) && (forall k | k in good :: k < 8)
    requires cell < PAGE_SIZ && t.Valid() && Agree(Step(s), t, good)
    ensures t.out == s.out && t.isJmp == s.isJmp[LANES - 1 := t.isJmp[LANES - 1]] && t.signal && t.pc == 0
    ensures Voted(t.isJmp[LANES - 1], c.buf[cell], |good|)
  {
    StepPerforms(s, ops, |ops| - 1);
    var s0 := CachePage(s).(signal := false);
    HoldsFrame(s, s0, c, good);
    RaiseHolds(s0, LANES - 1, cell, c, good);
  }

  lemma {:induction false} FirstRaise(tr: seq<State>, ops: seq<Micro>, good: set<nat>, qs: seq<Ports>, c: Column)
    requires Loadable(ops) && |ops| >= LANES && RaisesIn(ops, qs) && StepAt(tr, ops, |ops| - 2, good)
    requires forall k | k in good :: k < 8
    requires c.Valid() && Holds(tr[|ops| - 2], c, good)
    ensures Holds(tr[|ops| - 1], c, good) && tr[|ops| - 1].out == tr[|ops| - 2].out
    ensures Voted(tr[|ops| - 1].isJmp[0], c.buf[qs[0].isJmp.cell], |good|)
  {
    assert ops[|ops| - LANES + 0] == Micro(Raise, 0, RAM + qs[0].isJmp.cell);
    RaiseAdvances(tr[|ops| - 2], tr[|ops| - 1], ops, |ops| - 2, 0, qs[0].isJmp.cell, c, good);
  }

  lemma {:induction false} SecondRaise(tr: seq<State>, ops: seq<Micro>, good: set<nat>, qs: seq<Ports>, c: Column)
    requires Loadable(ops) && |ops| >= LANES && RaisesIn(ops, qs) && StepAt(tr, ops, |ops| - 1, good)
    requires forall k | k in good :: k < 8
    requires c.Valid() && Holds(tr[|ops| - 1], c, good)
    ensures tr[|ops|].Valid() && tr[|ops|].out == tr[|ops| - 1].out && tr[|ops|].signal && tr[|ops|].pc == 0
    ensures tr[|ops|].isJmp[0] == tr[|ops| - 1].isJmp[0]
    ensures Voted(tr[|ops|].isJmp[1], c.buf[qs[1].isJmp.cell], |good|)
  {
    assert ops[|ops| - LANES + 1] == Micro(Raise, 1, RAM + qs[1].isJmp.cell);
    RaiseEnds(tr[|ops| - 1], tr[|ops|], ops, qs[1].isJmp.cell, c, good);
  }

  /** The last two instructions. */
  lemma {:induction false} RaisesRun(tr: seq<State>, ops: seq<Micro>, good: set<nat>, qs: seq<Ports>, c: Column)
    requires Loadable(ops) && |ops| >= LANES && |tr| == |ops| + 1 && RaisesIn(ops, qs)
    requires StepAt(tr, ops, |ops| - 2, good) && StepAt(tr, ops, |ops| - 1, good)
    requires forall k | k in good :: k < 8
    requires c.Valid() && Holds(tr[|ops| - 2], c, good)
    ensures tr[|ops|].Valid() && tr[|ops|].out == tr[|ops| - 2].out && tr[|ops|].signal && tr[|ops|].pc == 0
    ensures forall l | 0 <= l < LANES :: Voted(tr[|ops|].isJmp[l], Read(c.buf, qs[l].isJmp), |good|)
  {
    FirstRaise(tr, ops, good, qs, c);
    SecondRaise(tr, ops, good, qs, c);
    forall l | 0 <= l < LANES ensures Voted(tr[|ops|].isJmp[l], Read(c.buf, qs[l].isJmp), |good|) {
      assert l == 0 || l == 1;
    }
  }

  // ----- the whole round

  /** The registers of a lane hold votes on the given bits and flag. */
  ghost predicate LaneVoted(out: u64, isJmp: bool, bits: seq<bool>, flag: bool, columns: nat) {
    AllVoted(FromNat(out, DIGIT), bits, columns) && Voted(isJmp, flag, columns)
  }

  /** The registers at the end of a round, for a page that settles to v. */
  lemma {:induction false} RoundOutputs(tr: seq<State>, ops: seq<Micro>, good: set<nat>, cells: seq<Cell>,
      qs: seq<Ports>, steps: int)
    requires Plan(cells, qs, steps) && ops == RoundCode(cells, qs, steps) && Loadable(ops) && Controlled(tr, ops, good)
    requires LoadsIn(ops, qs) && (forall k | k in good :: k < 8) && Erased(tr[0], good)
    ensures var v, t := Settled(cells, qs, steps, tr[0].inA, tr[0].inB), tr[|ops|];
            t.Valid() && t.signal && t.pc == 0 &&
            forall l | 0 <= l < LANES ::
              LaneVoted(t.out[l], t.isJmp[l], Values(v, qs[l].sum), Read(v, qs[l].isJmp), |good|)
  {
    var code, p := EmitSteps(cells, RAM, steps), PushesAt(cells, steps);
    PlanSections(cells, qs, steps);
    FirstProgram(tr, ops, good, qs);
    var c0 := LoadedColumn(qs, tr[0].inA, tr[0].inB);
    CodeRuns(tr, ops, good, code, c0, |code|);
    assert code[..|code|] == code;
    var c := RunColumn(code, c0);
    PushesRun(tr, ops, good, p, qs, c, INPUTS);
    assert StepAt(tr, ops, |ops| - 2, good);
    assert StepAt(tr, ops, |ops| - 1, good);
    RaisesRun(tr, ops, good, qs, c);
    forall l | 0 <= l < LANES
      ensures LaneVoted(tr[|ops|].out[l], tr[|ops|].isJmp[l], Values(c.buf, qs[l].sum), Read(c.buf, qs[l].isJmp),
                        |good|)
    {
      AllPushed(tr[p + INPUTS].out, tr[p].out, c.buf, qs, l, |good|);
    }
  }

  /** The loaded input cells of a lane hold the bits of its registers. */
  lemma {:induction false} InputsOfLane(v: seq<bool>, qs: seq<Ports>, a: seq<u64>, b: seq<u64>, l: nat)
    requires Shaped(qs) && |a| == |b| == LANES && l < LANES && |v| == PAGE_SIZ
    requires forall u | 0 <= u < 2 * INPUTS :: LoadCell(qs, u) < PAGE_SIZ && v[LoadCell(qs, u)] == InputBit(a, b, u)
    ensures ToNat(CellBits(v, qs[l].ain)) == a[l] && ToNat(CellBits(v, qs[l].bin)) == b[l]
  {
    forall i | 0 <= i < DIGIT
      ensures CellBits(v, qs[l].ain)[i] == FromNat(a[l], DIGIT)[i]
      ensures CellBits(v, qs[l].bin)[i] == FromNat(b[l], DIGIT)[i]
    {
      var u := 2 * (l * DIGIT + i);
      assert u / 2 / DIGIT == l && u / 2 % DIGIT == i && (u + 1) / 2 == u / 2;
      assert v[LoadCell(qs, u)] == InputBit(a, b, u) && v[LoadCell(qs, u + 1)] == InputBit(a, b, u + 1);
      FromNatAt(a[l], DIGIT, i);
      FromNatAt(b[l], DIGIT, i);
    }
    assert CellBits(v, qs[l].ain) == FromNat(a[l], DIGIT) && CellBits(v, qs[l].bin) == FromNat(b[l], DIGIT);
    Pow2Of64();
    ToFromNat(a[l], DIGIT);
    ToFromNat(b[l], DIGIT);
  }

  /** A 64-bit word read as signed. */
  function Int64(x: u64): int {
    if x < 0x8000_0000_0000_0000 then x else x - U64
  }

  /** What a round delivers for one lane. */
  predicate LaneResult(a: u64, b: u64, out: u64, isJmp: bool) {
    out == (b - a) % U64 && isJmp == (Int64(out) <= 0)
  }

  lemma {:induction false} SettledSubtracts(cells: seq<Cell>, qs: seq<Ports>, steps: int, a: seq<u64>, b: seq<u64>,
      l: nat)
    requires Plan(cells, qs, steps) && |a| == |b| == LANES && l < LANES
    requires forall i | 0 <= i < 2 * INPUTS :: LoadCell(qs, i) < PAGE_SIZ
    ensures var v := Settled(cells, qs, steps, a, b);
            ToNat(Values(v, qs[l].sum)) < U64 &&
            LaneResult(a[l], b[l], ToNat(Values(v, qs[l].sum)), Read(v, qs[l].isJmp))
  {
    var v := Settled(cells, qs, steps, a, b);
    SettledComputes(cells, qs, steps, a, b);
    InputsOfLane(v, qs, a, b, l);
    PlanSubtracts(cells, qs, steps, v, l);
    LaneInNumbers(v, qs[l], a[l], b[l]);
  }

  lemma {:induction false} PlanSubtracts(cells: seq<Cell>, qs: seq<Ports>, steps: int, v: seq<bool>, l: nat)
    requires Plan(cells, qs, steps) && Consistent(v, GraphOf(cells)) && l < LANES
    ensures |qs[l].sum| == DIGIT && Subtracts(v, qs[l])
  {
  }

  lemma {:induction false} LaneInNumbers(v: seq<bool>, q: Ports, a: u64, b: u64)
    requires Subtracts(v, q) && |q.sum| == DIGIT
    requires ToNat(CellBits(v, q.ain)) == a && ToNat(CellBits(v, q.bin)) == b
    ensures ToNat(Values(v, q.sum)) < U64 && LaneResult(a, b, ToNat(Values(v, q.sum)), Read(v, q.isJmp))
  {
    hide Subtracts, ToNat, CellBits, Values, Pow2;
    SubtractsMeans(v, q);
    Pow2Of64();
    assert Pow2(|q.sum|) == U64;
    var d := ToNat(Values(v, q.sum));
    assert d == (b - a) % U64 && Signed(d, 64) == Int64(d);
  }

  /** What a round delivers for one lane when a number of columns are good: bit by bit a vote on
      the difference, and a vote on whether that is at most zero. */
  ghost predicate LaneVotes(a: u64, b: u64, out: u64, isJmp: bool, columns: nat) {
    var d := (b - a) % U64;
    (forall k: nat | k < DIGIT :: Voted(BitAt(out, k), BitAt(d, k), columns)) && Voted(isJmp, Int64(d) <= 0, columns)
  }

  lemma {:induction false} VotesOfLane(a: u64, b: u64, out: u64, isJmp: bool, bits: seq<bool>, flag: bool,
      columns: nat)
    requires |bits| == DIGIT && ToNat(bits) < U64 && LaneResult(a, b, ToNat(bits), flag)
    requires LaneVoted(out, isJmp, bits, flag, columns)
    ensures LaneVotes(a, b, out, isJmp, columns)
  {
    FromToNat(bits);
    forall k: nat | k < DIGIT ensures Voted(BitAt(out, k), BitAt(ToNat(bits), k), columns) {
      FromNatAt(out, DIGIT, k);
      FromNatAt(ToNat(bits), DIGIT, k);
      assert Voted(FromNat(out, DIGIT)[k], bits[k], columns);
    }
  }

  lemma {:induction false} VotesDecide(a: u64, b: u64, out: u64, isJmp: bool, columns: nat)
    requires LaneVotes(a, b, out, isJmp, columns) && columns >= 5
    ensures LaneResult(a, b, out, isJmp)
  {
    var d := (b - a) % U64;
    forall k: nat | k < DIGIT ensures BitAt(out, k) == BitAt(d, k) {
      assert Voted(BitAt(out, k), BitAt(d, k), columns);
    }
    Pow2Of64();
    SameBits(out, d, DIGIT);
  }

  /** A round with any number of good columns.  From any state at the first instruction with an
      erased page and buffer, whatever the output registers hold, and however the cells misbehave
      in the other columns, after exactly one pass through the program every lane's output register
      holds the votes on its difference; the signal comes with the last instruction, which leads
      back to the first. */
  lemma {:induction false} RoundVotes(tr: seq<State>, good: set<nat>, cells: seq<Cell>, qs: seq<Ports>, steps: int)
    requires Plan(cells, qs, steps) && Loadable(RoundCode(cells, qs, steps))
    requires FaultyRun(tr, good) && |tr| == |RoundCode(cells, qs, steps)| + 1
    requires AtInstr(tr[0], RoundCode(cells, qs, steps), 0) && Erased(tr[0], good)
    ensures var t := tr[|tr| - 1];
            t.signal && t.pc == 0 &&
            forall l | 0 <= l < LANES :: LaneVotes(tr[0].inA[l], tr[0].inB[l], t.out[l], t.isJmp[l], |good|)
    ensures forall i | 0 < i < |tr| - 1 :: !tr[i].signal
  {
    var ops, a, b := RoundCode(cells, qs, steps), tr[0].inA, tr[0].inB;
    PlanLoadable(cells, qs, steps);
    PlanSections(cells, qs, steps);
    ProgramRuns(tr, ops, good);
    RoundOutputs(tr, ops, good, cells, qs, steps);
    var v, t := Settled(cells, qs, steps, a, b), tr[|tr| - 1];
    forall l | 0 <= l < LANES ensures LaneVotes(a[l], b[l], t.out[l], t.isJmp[l], |good|) {
      SettledSubtracts(cells, qs, steps, a, b, l);
      VotesOfLane(a[l], b[l], t.out[l], t.isJmp[l], Values(v, qs[l].sum), Read(v, qs[l].isJmp), |good|);
    }
  }

  /** The round theorem: with at most three bad columns the output registers hold the differences
      and the flags say whether they are at most zero. */
  lemma {:induction false} RoundComputes(tr: seq<State>, good: set<nat>, cells: seq<Cell>, qs: seq<Ports>, steps: int)
    requires Plan(cells, qs, steps) && Loadable(RoundCode(cells, qs, steps))
    requires FaultyRun(tr, good) && |tr| == |RoundCode(cells, qs, steps)| + 1 && |good| >= 5
    requires AtInstr(tr[0], RoundCode(cells, qs, steps), 0) && Erased(tr[0], good)
    ensures var t := tr[|tr| - 1];
            t.signal && t.pc == 0 &&
            forall l | 0 <= l < LANES :: LaneResult(tr[0].inA[l], tr[0].inB[l], t.out[l], t.isJmp[l])
    ensures forall i | 0 < i < |tr| - 1 :: !tr[i].signal
  {
    RoundVotes(tr, good, cells, qs, steps);
    var t := tr[|tr| - 1];
    forall l | 0 <= l < LANES ensures LaneResult(tr[0].inA[l], tr[0].inB[l], t.out[l], t.isJmp[l]) {
      VotesDecide(tr[0].inA[l], tr[0].inB[l], t.out[l], t.isJmp[l], |good|);
    }
  }

  /** With four bad columns errors go one way only: a 1 of the difference is never lost, and a
      difference of at most zero always raises the flag. */
  lemma {:induction false} FourColumnsKeepOnes(tr: seq<State>, good: set<nat>, cells: seq<Cell>, qs: seq<Ports>,
      steps: int, l: nat)
    requires Plan(cells, qs, steps) && Loadable(RoundCode(cells, qs, steps)) && l < LANES
    requires FaultyRun(tr, good) && |tr| == |RoundCode(cells, qs, steps)| + 1 && |good| >= 4
    requires AtInstr(tr[0], RoundCode(cells, qs, steps), 0) && Erased(tr[0], good)
    ensures var t, d := tr[|tr| - 1], (tr[0].inB[l] - tr[0].inA[l]) % U64;
            t.Valid() && (forall k: nat | k < 64 && BitAt(d, k) :: BitAt(t.out[l], k)) && (Int64(d) <= 0 ==> t.isJmp[l])
  {
    RoundVotes(tr, good, cells, qs, steps);
    var t, d := tr[|tr| - 1], (tr[0].inB[l] - tr[0].inA[l]) % U64;
    assert LaneVotes(tr[0].inA[l], tr[0].inB[l], t.out[l], t.isJmp[l], |good|);
    forall k: nat | k < 64 && BitAt(d, k) ensures BitAt(t.out[l], k) {
      assert Voted(BitAt(t.out[l], k), BitAt(d, k), |good|);
    }
  }

  /** Lanes do not influence each other: whatever the other lane is given, whichever page and
      columns are used, the same inputs of a lane give the same outputs. */
  lemma {:induction false} LanesAreIndependent(tr: seq<State>, good: set<nat>, tr': seq<State>, good': set<nat>,
      cells: seq<Cell>, qs: seq<Ports>, steps: int, l: nat)
    requires Plan(cells, qs, steps) && Loadable(RoundCode(cells, qs, steps)) && l < LANES
    requires FaultyRun(tr, good) && |tr| == |RoundCode(cells, qs, steps)| + 1 && |good| >= 5
    requires AtInstr(tr[0], RoundCode(cells, qs, steps), 0) && Erased(tr[0], good)
    requires FaultyRun(tr', good') && |tr'| == |RoundCode(cells, qs, steps)| + 1 && |good'| >= 5
    requires AtInstr(tr'[0], RoundCode(cells, qs, steps), 0) && Erased(tr'[0], good')
    requires tr[0].inA[l] == tr'[0].inA[l] && tr[0].inB[l] == tr'[0].inB[l]
    ensures var t, t' := tr[|tr| - 1], tr'[|tr'| - 1]; t.out[l] == t'.out[l] && t.isJmp[l] == t'.isJmp[l]
  {
    RoundComputes(tr, good, cells, qs, steps);
    RoundComputes(tr', good', cells, qs, steps);
  }
}
