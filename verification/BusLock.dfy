/** Two or more chips behind one bus lock: data loads are exclusive, everything else is shared.

    A four-wire load disturbs whatever another chip does on the bus at the same time, and a
    disturbed operation may have any effect.  The lock sections of `read`, `write` and `erase`
    keep this from happening, in every interleaving, although `write` lets go of the lock
    between loading a page and committing it. */
module BusLock {
  import opened Machine
  import opened Microcode
  import opened Spi
  import opened FlatMemory

  // ----- what a worker does on the bus

  datatype BusOp =
    | Load(col: nat, data: seq<byte>)
    | Commit(page: nat)
    | ReadPage(page: nat, col: nat, length: nat)
    | EraseBlock(page: nat)

  datatype Mode = Exclusive | Shared

  /** What is done between acquiring the lock and releasing it. */
  datatype Section = Section(mode: Mode, ops: seq<BusOp>)

  function ReadOps(offset: nat, length: nat): seq<BusOp>
    decreases length
  {
    if length == 0 then []
    else
      var n := ChunkAt(offset, length);
      [ReadPage(offset / PAGE_SIZ, offset % PAGE_SIZ, n)] + ReadOps(offset + n, length - n)
  }

  function WriteSections(offset: nat, data: seq<byte>): seq<Section>
    decreases |data|
  {
    if data == [] then []
    else
      var n := ChunkAt(offset, |data|);
      [Section(Exclusive, [Load(offset % PAGE_SIZ, data[..n])]), Section(Shared, [Commit(offset / PAGE_SIZ)])] +
      WriteSections(offset + n, data[n..])
  }

  function EraseOps(offset: nat, blocks: nat): seq<BusOp>
    decreases blocks
  {
    if blocks == 0 then [] else [EraseBlock(offset / PAGE_SIZ)] + EraseOps(offset + BLOCK, blocks - 1)
  }

  /** The lock sections of one call; a misaligned erase fails before it takes the lock. */
  function SectionsOf(x: Access): seq<Section> {
    match x
    case ReadAt(offset, length) => [Section(Shared, ReadOps(offset, length))]
    case WriteAt(offset, data) => WriteSections(offset, data)
    case EraseAt(offset, length) =>
      if offset % BLOCK != 0 || length % BLOCK != 0 then [] else [Section(Shared, EraseOps(offset, length / BLOCK))]
  }

  function SectionsOfAll(xs: seq<Access>): seq<Section> {
    if xs == [] then [] else SectionsOf(xs[0]) + SectionsOfAll(xs[1..])
  }

  // ----- the chip of a worker, and what has been read from it

  datatype BusChip = BusChip(mem: seq<byte>, buffer: seq<byte>, log: seq<byte>) {
    ghost predicate Valid() {
      |mem| == TOTAL && |buffer| == PAGE_SIZ
    }
  }

  predicate OpFits(op: BusOp) {
    match op
    case Load(col, data) => col + |data| <= PAGE_SIZ
    case Commit(page) => page < CHIP_PAGES
    case ReadPage(page, col, length) => page < CHIP_PAGES && col + length <= PAGE_SIZ
    case EraseBlock(page) => page < CHIP_PAGES
  }

  function Effect(c: BusChip, op: BusOp): (r: BusChip)
    requires c.Valid() && OpFits(op)
    ensures r.Valid()
  {
    match op
    case Load(col, data) => c.(buffer := BufferWith(col, data))
    case Commit(page) => c.(mem := Program(c.mem, page * PAGE_SIZ, c.buffer))
    case ReadPage(page, col, length) =>
      var contents := c.mem[page * PAGE_SIZ..(page + 1) * PAGE_SIZ];
      c.(buffer := contents, log := c.log + contents[col..col + length])
    case EraseBlock(page) => c.(mem := Wiped(c.mem, page / BLOCK_PAGES * BLOCK, BLOCK))
  }

  ghost predicate OpsFit(ops: seq<BusOp>) {
    forall k | 0 <= k < |ops| :: OpFits(ops[k])
  }

  function Effects(c: BusChip, ops: seq<BusOp>): (r: BusChip)
    requires c.Valid() && OpsFit(ops)
    ensures r.Valid()
    decreases |ops|
  {
    if ops == [] then c else Effects(Effect(c, ops[0]), ops[1..])
  }

  /** A script loads only under the exclusive lock, and stays inside the chip. */
  ghost predicate Proper(ss: seq<Section>) {
    forall k, m | 0 <= k < |ss| && 0 <= m < |ss[k].ops| ::
      OpFits(ss[k].ops[m]) && (ss[k].ops[m].Load? ==> ss[k].mode == Exclusive)
  }

  function AllOps(ss: seq<Section>): (ops: seq<BusOp>)
    requires Proper(ss)
    ensures OpsFit(ops)
    decreases |ss|
  {
    if ss == [] then [] else ss[0].ops + AllOps(ss[1..])
  }

  // ----- workers in every interleaving

  datatype Worker = Worker(chip: BusChip, script: seq<Section>, holding: bool, busy: bool, disturbed: bool) {
    /** The operation on the bus, or the next one. */
    function Op(): BusOp
      requires script != [] && script[0].ops != []
    {
      script[0].ops[0]
    }

    predicate HasOp() {
      holding && script != [] && script[0].ops != []
    }

    predicate Loading() {
      busy && HasOp() && Op().Load?
    }

    predicate OnBus() {
      busy && HasOp()
    }
  }

  type System = seq<Worker>

  ghost predicate OthersSame(s: System, t: System, i: nat)
    requires |s| == |t|
  {
    forall j | 0 <= j < |s| && j != i :: t[j] == s[j]
  }

  /** The mutex: exclusive only with no other holder, shared only with no exclusive one. */
  ghost predicate Acquire(s: System, t: System, i: nat)
    requires |s| == |t| && i < |s|
  {
    !s[i].holding && s[i].script != [] && t[i] == s[i].(holding := true) && OthersSame(s, t, i) &&
    forall j | 0 <= j < |s| && j != i ::
      s[j].holding && s[j].script != [] ==> s[i].script[0].mode == Shared && s[j].script[0].mode == Shared
  }

  ghost predicate Release(s: System, t: System, i: nat)
    requires |s| == |t| && i < |s|
  {
    s[i].holding && !s[i].busy && s[i].script != [] && s[i].script[0].ops == [] &&
    t[i] == s[i].(holding := false, script := s[i].script[1..]) && OthersSame(s, t, i)
  }

  /** A bus operation starts.  A load disturbs the operations on the bus, and is disturbed by
      them, as is any operation that starts during a load. */
  ghost predicate Begin(s: System, t: System, i: nat)
    requires |s| == |t| && i < |s|
  {
    s[i].HasOp() && !s[i].busy &&
    t[i] == s[i].(busy := true,
                  disturbed := exists j ::
                    0 <= j < |s| && j != i && (s[j].Loading() || (s[i].Op().Load? && s[j].OnBus()))) &&
    forall j | 0 <= j < |s| && j != i ::
      t[j] == if s[i].Op().Load? && s[j].OnBus() then s[j].(disturbed := true) else s[j]
  }

  /** A bus operation ends: with its effect, or with any effect if it was disturbed. */
  ghost predicate End(s: System, t: System, i: nat)
    requires |s| == |t| && i < |s|
  {
    s[i].OnBus() && s[i].chip.Valid() && OpFits(s[i].Op()) && OthersSame(s, t, i) &&
    t[i] == s[i].(busy := false, disturbed := false, chip := t[i].chip,
                  script := s[i].script[0 := Section(s[i].script[0].mode, s[i].script[0].ops[1..])]) &&
    (!s[i].disturbed ==> t[i].chip == Effect(s[i].chip, s[i].Op()))
  }

  ghost predicate BusStep(s: System, t: System, i: nat) {
    |s| == |t| && i < |s| && (Acquire(s, t, i) || Release(s, t, i) || Begin(s, t, i) || End(s, t, i))
  }

  // ----- the invariant

  ghost predicate WorkerOk(w: Worker) {
    w.chip.Valid() && Proper(w.script) && !w.disturbed && (w.holding ==> w.script != []) && (w.busy ==> w.HasOp())
  }

  ghost predicate Compatible(v: Worker, w: Worker) {
    v.holding && w.holding && v.script != [] && w.script != [] ==>
      v.script[0].mode == Shared && w.script[0].mode == Shared
  }

  ghost predicate Safe(s: System) {
    (forall i | 0 <= i < |s| :: WorkerOk(s[i])) &&
    forall i, j | 0 <= i < |s| && 0 <= j < |s| && i != j :: Compatible(s[i], s[j])
  }

  /** No load overlaps a bus operation of another worker. */
  lemma {:induction false} LoadsAreAlone(s: System, i: nat, j: nat)
    requires Safe(s) && i < |s| && j < |s| && i != j && s[i].Loading()
    ensures !s[j].OnBus()
  {
  }

  lemma {:induction false} BeginUndisturbed(s: System, t: System, i: nat)
    requires Safe(s) && |s| == |t| && i < |s| && Begin(s, t, i)
    ensures t[i] == s[i].(busy := true) && OthersSame(s, t, i)
  {
  }

  lemma {:induction false} ProperRest(ss: seq<Section>)
    requires Proper(ss) && ss != []
    ensures Proper(ss[1..])
    ensures ss[0].ops != [] ==> Proper(ss[0 := Section(ss[0].mode, ss[0].ops[1..])])
  {
  }

  /** What a worker has still to come: its chip once the rest of its script has run. */
  function Finish(w: Worker): BusChip
    requires WorkerOk(w)
  {
    Effects(w.chip, AllOps(w.script))
  }

  lemma {:induction false} DropSection(ss: seq<Section>)
    requires Proper(ss) && ss != [] && ss[0].ops == []
    ensures Proper(ss[1..]) && AllOps(ss[1..]) == AllOps(ss)
  {
  }

  lemma {:induction false} DropOp(ss: seq<Section>)
    requires Proper(ss) && ss != [] && ss[0].ops != []
    ensures var ts := ss[0 := Section(ss[0].mode, ss[0].ops[1..])];
            Proper(ts) && AllOps(ss) == [ss[0].ops[0]] + AllOps(ts)
  {
  }

  /** The worker that moves. */
  lemma {:induction false} MoverOk(s: System, t: System, i: nat)
    requires Safe(s) && BusStep(s, t, i)
    ensures OthersSame(s, t, i) && WorkerOk(t[i]) && Finish(t[i]) == Finish(s[i])
    ensures t[i].holding ==> t[i].script != [] && (s[i].holding ==> t[i].script[0].mode == s[i].script[0].mode)
  {
    assert WorkerOk(s[i]);
    if Begin(s, t, i) {
      BeginUndisturbed(s, t, i);
    } else if Release(s, t, i) {
      DropSection(s[i].script);
    } else if End(s, t, i) {
      DropOp(s[i].script);
      assert AllOps(s[i].script)[1..] == AllOps(t[i].script);
    }
  }

  /** Every step keeps the bus safe, and what every worker will have in the end. */
  lemma {:induction false} StepIsSafe(s: System, t: System, i: nat)
    requires Safe(s) && BusStep(s, t, i)
    ensures Safe(t) && forall j | 0 <= j < |s| :: Finish(t[j]) == Finish(s[j])
  {
    MoverOk(s, t, i);
    forall j, k | 0 <= j < |t| && 0 <= k < |t| && j != k ensures Compatible(t[j], t[k]) {
      assert Compatible(s[j], s[k]);
    }
  }

  /** A run of the workers in some interleaving. */
  ghost predicate Interleaving(tr: seq<System>, moves: seq<nat>) {
    |tr| == |moves| + 1 && forall k | 0 <= k < |moves| :: BusStep(tr[k], tr[k + 1], moves[k])
  }

  lemma {:induction false} RunIsSafe(tr: seq<System>, moves: seq<nat>, k: nat)
    requires Interleaving(tr, moves) && Safe(tr[0]) && k < |tr|
    ensures Safe(tr[k]) && |tr[k]| == |tr[0]| && forall j | 0 <= j < |tr[0]| :: Finish(tr[k][j]) == Finish(tr[0][j])
  {
    if k > 0 {
      RunIsSafe(tr, moves, k - 1);
      assert BusStep(tr[k - 1], tr[k - 1 + 1], moves[k - 1]);
      StepIsSafe(tr[k - 1], tr[k], moves[k - 1]);
    }
  }

  /** The workers at the start, each with its chip and the calls it is going to make. */
  ghost predicate AtStart(s: System, xs: seq<seq<Access>>) {
    |s| == |xs| &&
    forall i | 0 <= i < |s| ::
      s[i].chip.Valid() && s[i].chip.log == [] && s[i].script == SectionsOfAll(xs[i]) &&
      !s[i].holding && !s[i].busy && !s[i].disturbed && AllInRange(xs[i], TOTAL)
  }

  // ----- what the calls of a worker do on their own

  /** One call on a flat memory; a misaligned erase does nothing. */
  function FlatCall(mem: seq<byte>, x: Access): (r: (seq<byte>, seq<byte>))
    requires x.Fits(|mem|)
    ensures |r.0| == |mem|
  {
    if x.EraseAt? && (x.offset % BLOCK != 0 || x.length % BLOCK != 0) then (mem, []) else FlatStep(mem, x)
  }

  /** The memory after a list of calls, and everything read, in order. */
  ghost function FlatCalls(mem: seq<byte>, log: seq<byte>, xs: seq<Access>): (r: (seq<byte>, seq<byte>))
    requires AllFit(xs, |mem|)
    ensures |r.0| == |mem|
    decreases |xs|
  {
    if xs == [] then (mem, log)
    else
      var step := FlatCall(mem, xs[0]);
      FlatCalls(step.0, log + step.1, xs[1..])
  }

  /** A chip that holds this memory and has read this. */
  ghost predicate Shows(c: BusChip, mem: seq<byte>, log: seq<byte>) {
    c.Valid() && c.mem == mem && c.log == log
  }

  lemma {:induction false} EffectsAppend(c: BusChip, xs: seq<BusOp>, ys: seq<BusOp>)
    requires c.Valid() && OpsFit(xs) && OpsFit(ys)
    ensures OpsFit(xs + ys) && Effects(c, xs + ys) == Effects(Effects(c, xs), ys)
    decreases |xs|
  {
    if xs == [] {
      assert xs + ys == ys;
    } else {
      assert (xs + ys)[0] == xs[0] && (xs + ys)[1..] == xs[1..] + ys;
      EffectsAppend(Effect(c, xs[0]), xs[1..], ys);
    }
  }

  lemma {:induction false} EffectsFirst(c: BusChip, op: BusOp, rest: seq<BusOp>)
    requires c.Valid() && OpFits(op) && OpsFit(rest)
    ensures OpsFit([op] + rest) && Effects(c, [op] + rest) == Effects(Effect(c, op), rest)
  {
  }

  lemma {:induction false} AllOpsAppend(ss: seq<Section>, ts: seq<Section>)
    requires Proper(ss) && Proper(ts)
    ensures Proper(ss + ts) && AllOps(ss + ts) == AllOps(ss) + AllOps(ts)
    decreases |ss|
  {
    forall k, m | 0 <= k < |ss + ts| && 0 <= m < |(ss + ts)[k].ops|
      ensures OpFits((ss + ts)[k].ops[m]) && ((ss + ts)[k].ops[m].Load? ==> (ss + ts)[k].mode == Exclusive)
    {
      assert (ss + ts)[k] == if k < |ss| then ss[k] else ts[k - |ss|];
    }
    if ss == [] {
      assert ss + ts == ts;
    } else {
      ProperRest(ss);
      assert (ss + ts)[0] == ss[0] && (ss + ts)[1..] == ss[1..] + ts;
      AllOpsAppend(ss[1..], ts);
      assert ss[0].ops + (AllOps(ss[1..]) + AllOps(ts)) == (ss[0].ops + AllOps(ss[1..])) + AllOps(ts);
    }
  }

  lemma {:induction false} OneSection(mode: Mode, ops: seq<BusOp>)
    requires OpsFit(ops) && (NoLoad(ops) || mode == Exclusive)
    ensures Proper([Section(mode, ops)]) && AllOps([Section(mode, ops)]) == ops
  {
  }

  ghost predicate NoLoad(ops: seq<BusOp>) {
    forall k | 0 <= k < |ops| :: !ops[k].Load?
  }

  // reading

  lemma {:induction false} PageChunk(mem: seq<byte>, offset: nat, n: nat)
    requires |mem| == TOTAL && offset + n <= TOTAL && 0 < n && offset % PAGE_SIZ + n <= PAGE_SIZ
    ensures var page, col := offset / PAGE_SIZ, offset % PAGE_SIZ;
            page < CHIP_PAGES && mem[page * PAGE_SIZ..(page + 1) * PAGE_SIZ][col..col + n] == mem[offset..offset + n]
  {
  }

  lemma {:induction false} ReadsFit(offset: nat, length: nat)
    requires offset + length <= TOTAL
    ensures OpsFit(ReadOps(offset, length)) && NoLoad(ReadOps(offset, length))
    decreases length
  {
    if length > 0 {
      var n := ChunkAt(offset, length);
      ReadsFit(offset + n, length - n);
    }
  }

  lemma {:induction false} ReadsFlat(c: BusChip, offset: nat, length: nat)
    requires c.Valid() && offset + length <= TOTAL
    ensures OpsFit(ReadOps(offset, length))
    ensures Shows(Effects(c, ReadOps(offset, length)), c.mem, c.log + c.mem[offset..offset + length])
    decreases length
  {
    if length > 0 {
      var n := ChunkAt(offset, length);
      var op, rest := ReadPage(offset / PAGE_SIZ, offset % PAGE_SIZ, n), ReadOps(offset + n, length - n);
      PageChunk(c.mem, offset, n);
      var d := Effect(c, op);
      assert Shows(d, c.mem, c.log + c.mem[offset..offset + n]);
      ReadsFlat(d, offset + n, length - n);
      EffectsFirst(c, op, rest);
      LogAppend(c.log, c.mem, offset, n, length - n);
    }
  }

  lemma {:induction false} LogAppend(log: seq<byte>, mem: seq<byte>, offset: nat, n: nat, m: nat)
    requires offset + n + m <= |mem|
    ensures log + mem[offset..offset + n] + mem[offset + n..offset + n + m] == log + mem[offset..offset + (n + m)]
  {
  }

  // writing

  /** Loading and committing a chunk programs exactly the chunk. */
  lemma {:induction false} LoadAndCommit(c: BusChip, offset: nat, data: seq<byte>)
    requires c.Valid() && offset + |data| <= TOTAL && 0 < |data| && offset % PAGE_SIZ + |data| <= PAGE_SIZ
    ensures offset / PAGE_SIZ < CHIP_PAGES
    ensures var d := Effect(Effect(c, Load(offset % PAGE_SIZ, data)), Commit(offset / PAGE_SIZ));
            Shows(d, Program(c.mem, offset, data), c.log)
  {
    var page, col := offset / PAGE_SIZ, offset % PAGE_SIZ;
    var f, g := Program(c.mem, page * PAGE_SIZ, BufferWith(col, data)), Program(c.mem, offset, data);
    forall a | 0 <= a < TOTAL ensures f[a] == g[a] {
      ProgramAt(c.mem, page * PAGE_SIZ, BufferWith(col, data), a);
      ProgramAt(c.mem, offset, data, a);
      AndErased(c.mem[a]);
    }
  }

  lemma {:induction false} ProgramTwice(mem: seq<byte>, offset: nat, x: seq<byte>, y: seq<byte>)
    requires offset + |x| + |y| <= |mem|
    ensures Program(Program(mem, offset, x), offset + |x|, y) == Program(mem, offset, x + y)
  {
    var f, g := Program(Program(mem, offset, x), offset + |x|, y), Program(mem, offset, x + y);
    forall a | 0 <= a < |mem| ensures f[a] == g[a] {
    }
  }

  lemma {:induction false} WritesProper(offset: nat, data: seq<byte>)
    requires offset + |data| <= TOTAL
    ensures Proper(WriteSections(offset, data))
    decreases |data|
  {
    if data != [] {
      var n := ChunkAt(offset, |data|);
      WritesProper(offset + n, data[n..]);
      assert offset / PAGE_SIZ < CHIP_PAGES;
      TwoSections(Load(offset % PAGE_SIZ, data[..n]), Commit(offset / PAGE_SIZ), WriteSections(offset + n, data[n..]));
    }
  }

  /** The first chunk, and then the rest of the data. */
  lemma {:induction false} FirstChunk(c: BusChip, r: BusChip, offset: nat, data: seq<byte>, n: nat)
    requires c.Valid() && offset + |data| <= TOTAL && n == ChunkAt(offset, |data|) > 0 && offset / PAGE_SIZ < CHIP_PAGES
    requires var d := Effect(Effect(c, Load(offset % PAGE_SIZ, data[..n])), Commit(offset / PAGE_SIZ));
             Shows(r, Program(d.mem, offset + n, data[n..]), d.log)
    ensures Shows(r, Program(c.mem, offset, data), c.log)
  {
    LoadAndCommit(c, offset, data[..n]);
    ProgramTwice(c.mem, offset, data[..n], data[n..]);
    assert data[..n] + data[n..] == data;
  }

  lemma {:induction false} WritesFlat(c: BusChip, offset: nat, data: seq<byte>)
    requires c.Valid() && offset + |data| <= TOTAL && Proper(WriteSections(offset, data))
    ensures Shows(Effects(c, AllOps(WriteSections(offset, data))), Program(c.mem, offset, data), c.log)
    decreases |data|
  {
    if data == [] {
      ProgramNothing(c.mem, offset);
    } else {
      var n := ChunkAt(offset, |data|);
      var load, commit := Load(offset % PAGE_SIZ, data[..n]), Commit(offset / PAGE_SIZ);
      var rest := WriteSections(offset + n, data[n..]);
      WritesProper(offset + n, data[n..]);
      WritesFlat(Effect(Effect(c, load), commit), offset + n, data[n..]);
      TwoThenRest(c, load, commit, rest);
      FirstChunk(c, Effects(c, AllOps(WriteSections(offset, data))), offset, data, n);
    }
  }

  lemma {:induction false} TwoSections(load: BusOp, commit: BusOp, rest: seq<Section>)
    requires OpFits(load) && OpFits(commit) && !commit.Load? && Proper(rest)
    ensures var ss := [Section(Exclusive, [load]), Section(Shared, [commit])] + rest;
            Proper(ss) && AllOps(ss) == [load] + ([commit] + AllOps(rest))
  {
  }

  lemma {:induction false} TwoThenRest(c: BusChip, load: BusOp, commit: BusOp, rest: seq<Section>)
    requires c.Valid() && OpFits(load) && OpFits(commit) && !commit.Load? && Proper(rest)
    ensures var ss := [Section(Exclusive, [load]), Section(Shared, [commit])] + rest;
            Proper(ss) && Effects(c, AllOps(ss)) == Effects(Effect(Effect(c, load), commit), AllOps(rest))
  {
  }

  // erasing

  lemma {:induction false} ErasesFit(offset: nat, blocks: nat)
    requires offset + blocks * BLOCK <= TOTAL
    ensures OpsFit(EraseOps(offset, blocks)) && NoLoad(EraseOps(offset, blocks))
    decreases blocks
  {
    if blocks > 0 {
      ErasesFit(offset + BLOCK, blocks - 1);
    }
  }

  /** The first block, and then the rest. */
  lemma {:induction false} FirstBlock(c: BusChip, r: BusChip, offset: nat, blocks: nat)
    requires c.Valid() && offset % BLOCK == 0 && blocks > 0 && offset + blocks * BLOCK <= TOTAL
    requires var d := Effect(c, EraseBlock(offset / PAGE_SIZ));
             Shows(r, Wiped(d.mem, offset + BLOCK, (blocks - 1) * BLOCK), d.log)
    ensures Shows(r, Wiped(c.mem, offset, blocks * BLOCK), c.log)
  {
    assert offset / PAGE_SIZ / BLOCK_PAGES * BLOCK == offset;
    WipedTwice(c.mem, offset, BLOCK, (blocks - 1) * BLOCK);
  }

  lemma {:induction false} ErasesFlat(c: BusChip, offset: nat, blocks: nat)
    requires c.Valid() && offset % BLOCK == 0 && offset + blocks * BLOCK <= TOTAL && OpsFit(EraseOps(offset, blocks))
    ensures Shows(Effects(c, EraseOps(offset, blocks)), Wiped(c.mem, offset, blocks * BLOCK), c.log)
    decreases blocks
  {
    hide Wiped, Effect;
    if blocks == 0 {
      WipedNothing(c.mem, offset);
    } else {
      var op, rest := EraseBlock(offset / PAGE_SIZ), EraseOps(offset + BLOCK, blocks - 1);
      ErasesFit(offset + BLOCK, blocks - 1);
      ErasesFlat(Effect(c, op), offset + BLOCK, blocks - 1);
      EffectsFirst(c, op, rest);
      FirstBlock(c, Effects(c, EraseOps(offset, blocks)), offset, blocks);
    }
  }

  // any call, and all calls

  lemma {:induction false} EraseIsFlat(c: BusChip, offset: nat, blocks: nat)
    requires c.Valid() && offset % BLOCK == 0 && offset + blocks * BLOCK <= TOTAL
    ensures var ss := [Section(Shared, EraseOps(offset, blocks))];
            Proper(ss) && Shows(Effects(c, AllOps(ss)), Wiped(c.mem, offset, blocks * BLOCK), c.log)
  {
    ErasesFit(offset, blocks);
    ErasesFlat(c, offset, blocks);
    OneSection(Shared, EraseOps(offset, blocks));
  }

  lemma {:induction false} ReadIsFlat(c: BusChip, offset: nat, length: nat)
    requires c.Valid() && offset + length <= TOTAL
    ensures var ss := [Section(Shared, ReadOps(offset, length))];
            Proper(ss) && Shows(Effects(c, AllOps(ss)), c.mem, c.log + c.mem[offset..offset + length])
  {
    ReadsFit(offset, length);
    ReadsFlat(c, offset, length);
    OneSection(Shared, ReadOps(offset, length));
  }

  lemma {:induction false} WriteIsFlat(c: BusChip, offset: nat, data: seq<byte>)
    requires c.Valid() && offset + |data| <= TOTAL
    ensures Proper(WriteSections(offset, data))
    ensures Shows(Effects(c, AllOps(WriteSections(offset, data))), Program(c.mem, offset, data), c.log)
  {
    WritesProper(offset, data);
    WritesFlat(c, offset, data);
  }

  lemma {:induction false} CallIsFlat(c: BusChip, x: Access)
    requires c.Valid() && x.InRange(TOTAL)
    ensures Proper(SectionsOf(x))
    ensures var r := FlatCall(c.mem, x); Shows(Effects(c, AllOps(SectionsOf(x))), r.0, c.log + r.1)
  {
    assert c.log + [] == c.log;
    match x {
      case ReadAt(offset, length) =>
        ReadIsFlat(c, offset, length);
      case WriteAt(offset, data) =>
        WriteIsFlat(c, offset, data);
      case EraseAt(offset, length) =>
        if offset % BLOCK == 0 && length % BLOCK == 0 {
          assert length / BLOCK * BLOCK == length;
          EraseIsFlat(c, offset, length / BLOCK);
        }
    }
  }

  lemma {:induction false} CallsAreFlat(c: BusChip, xs: seq<Access>)
    requires c.Valid() && AllInRange(xs, TOTAL)
    ensures Proper(SectionsOfAll(xs))
    ensures var r := FlatCalls(c.mem, c.log, xs); Shows(Effects(c, AllOps(SectionsOfAll(xs))), r.0, r.1)
    decreases |xs|
  {
    if xs != [] {
      CallIsFlat(c, xs[0]);
      var d := Effects(c, AllOps(SectionsOf(xs[0])));
      CallsAreFlat(d, xs[1..]);
      AllOpsAppend(SectionsOf(xs[0]), SectionsOfAll(xs[1..]));
      EffectsAppend(c, AllOps(SectionsOf(xs[0])), AllOps(SectionsOfAll(xs[1..])));
    }
  }

  lemma {:induction false} StartIsSafe(s: System, xs: seq<seq<Access>>)
    requires AtStart(s, xs)
    ensures Safe(s)
  {
    forall i | 0 <= i < |s| ensures WorkerOk(s[i]) {
      CallsAreFlat(s[i].chip, xs[i]);
    }
  }

  /** Whatever the interleaving, a worker that has made all its calls leaves its chip, and has
      read from it, exactly as if it had been alone. */
  lemma {:induction false} EachChipAlone(tr: seq<System>, moves: seq<nat>, xs: seq<seq<Access>>, k: nat, i: nat)
    requires Interleaving(tr, moves) && AtStart(tr[0], xs) && k < |tr| && i < |xs|
    ensures |tr[k]| == |xs|
    ensures tr[k][i].script == [] ==> var r := FlatCalls(tr[0][i].chip.mem, [], xs[i]); Shows(tr[k][i].chip, r.0, r.1)
  {
    StartIsSafe(tr[0], xs);
    RunIsSafe(tr, moves, k);
    CallsAreFlat(tr[0][i].chip, xs[i]);
    assert Finish(tr[k][i]) == Finish(tr[0][i]);
  }

  /** At no moment of any interleaving does a load overlap a bus operation of another worker. */
  lemma {:induction false} LoadsNeverOverlap(tr: seq<System>, moves: seq<nat>, xs: seq<seq<Access>>, k: nat, i: nat,
      j: nat)
    requires Interleaving(tr, moves) && AtStart(tr[0], xs) && k < |tr| && i < |xs| && j < |xs| && i != j
    ensures |tr[k]| == |xs| && !(tr[k][i].Loading() && tr[k][j].OnBus())
  {
    StartIsSafe(tr[0], xs);
    RunIsSafe(tr, moves, k);
    if tr[k][i].Loading() {
      LoadsAreAlone(tr[k], i, j);
    }
  }

  // ----- every interleaving comes to an end, with everything done

  /** Acquiring and releasing every section, beginning and ending every operation. */
  function StepsOf(ss: seq<Section>): nat {
    if ss == [] then 0 else 2 + 2 * |ss[0].ops| + StepsOf(ss[1..])
  }

  /** The steps a worker has still to make. */
  function StepsLeft(w: Worker): int {
    StepsOf(w.script) - (if w.holding then 1 else 0) - if w.busy then 1 else 0
  }

  function AllStepsLeft(s: System): int {
    if s == [] then 0 else StepsLeft(s[0]) + AllStepsLeft(s[1..])
  }

  lemma {:induction false} OneStepLess(s: System, t: System, i: nat)
    requires |s| == |t| && i < |s| && OthersSame(s, t, i) && StepsLeft(t[i]) == StepsLeft(s[i]) - 1
    ensures AllStepsLeft(t) == AllStepsLeft(s) - 1
  {
    if i == 0 {
      assert s[1..] == t[1..];
    } else {
      OneStepLess(s[1..], t[1..], i - 1);
    }
  }

  /** Every step, of whatever kind, is one step less to make. */
  lemma {:induction false} StepCounts(s: System, t: System, i: nat)
    requires Safe(s) && BusStep(s, t, i)
    ensures AllStepsLeft(t) == AllStepsLeft(s) - 1
  {
    MoverOk(s, t, i);
    OneStepLess(s, t, i);
  }

  lemma {:induction false} StepsLeftOf(s: System)
    requires forall i | 0 <= i < |s| :: WorkerOk(s[i])
    ensures AllStepsLeft(s) >= 0
    ensures AllStepsLeft(s) == 0 <==> forall i | 0 <= i < |s| :: s[i].script == []
  {
    if s != [] {
      StepsLeftOf(s[1..]);
      assert WorkerOk(s[0]);
      assert StepsLeft(s[0]) >= 0 && (StepsLeft(s[0]) == 0 <==> s[0].script == []);
      assert forall i | 0 < i < |s| :: s[i] == s[1..][i - 1];
      assert forall i | 0 <= i < |s| - 1 :: s[1..][i] == s[i + 1];
    }
  }

  /** A worker that holds the lock can always go on. */
  lemma {:induction false} HolderMoves(s: System, i: nat) returns (t: System)
    requires Safe(s) && i < |s| && s[i].holding
    ensures BusStep(s, t, i)
  {
    var w := s[i];
    assert WorkerOk(w);
    if w.busy {
      t := s[i := w.(busy := false, disturbed := false, chip := Effect(w.chip, w.Op()),
                     script := w.script[0 := Section(w.script[0].mode, w.script[0].ops[1..])])];
      assert End(s, t, i);
    } else if w.script[0].ops != [] {
      t := s[i := w.(busy := true)];
      assert Begin(s, t, i) by {
        forall j | 0 <= j < |s| && j != i ensures !s[j].Loading() && !(w.Op().Load? && s[j].OnBus()) {
          assert Compatible(s[i], s[j]);
        }
      }
    } else {
      t := s[i := w.(holding := false, script := w.script[1..])];
      assert Release(s, t, i);
    }
  }

  /** No deadlock: as long as some worker has not made all its calls, some worker can move. */
  lemma {:induction false} SomeoneMoves(s: System, k: nat) returns (t: System, i: nat)
    requires Safe(s) && k < |s| && s[k].script != []
    ensures BusStep(s, t, i)
  {
    if j :| 0 <= j < |s| && s[j].holding {
      i := j;
      t := HolderMoves(s, j);
    } else {
      i := k;
      t := s[k := s[k].(holding := true)];
      assert Acquire(s, t, k);
    }
  }

  /** A run has made as many steps as are missing at its end; so it makes no more than
      there were at its start, and exactly that many if and only if every call is made. */
  lemma {:induction false} RunLength(tr: seq<System>, moves: seq<nat>)
    requires Interleaving(tr, moves) && Safe(tr[0])
    ensures |moves| <= AllStepsLeft(tr[0])
    ensures |moves| == AllStepsLeft(tr[0]) <==> forall i | 0 <= i < |tr[|moves|]| :: tr[|moves|][i].script == []
  {
    StepsSoFar(tr, moves, |moves|);
    RunIsSafe(tr, moves, |moves|);
    StepsLeftOf(tr[|moves|]);
  }

  lemma {:induction false} StepsSoFar(tr: seq<System>, moves: seq<nat>, k: nat)
    requires Interleaving(tr, moves) && Safe(tr[0]) && k <= |moves|
    ensures AllStepsLeft(tr[k]) == AllStepsLeft(tr[0]) - k
  {
    hide Safe, Step, AllStepsLeft;
    if k > 0 {
      StepsSoFar(tr, moves, k - 1);
      RunIsSafe(tr, moves, k - 1);
      assert BusStep(tr[k - 1], tr[k - 1 + 1], moves[k - 1]);
      StepCounts(tr[k - 1], tr[k], moves[k - 1]);
    }
  }

  /** A run that cannot be continued has made every call of every worker. */
  lemma {:induction false} StuckIsDone(tr: seq<System>, moves: seq<nat>, xs: seq<seq<Access>>)
    requires Interleaving(tr, moves) && AtStart(tr[0], xs)
    requires forall t, i :: !BusStep(tr[|moves|], t, i)
    ensures forall i | 0 <= i < |tr[|moves|]| :: tr[|moves|][i].script == []
  {
    StartIsSafe(tr[0], xs);
    RunIsSafe(tr, moves, |moves|);
    if k :| 0 <= k < |tr[|moves|]| && tr[|moves|][k].script != [] {
      var t, i := SomeoneMoves(tr[|moves|], k);
      assert false;
    }
  }
}
