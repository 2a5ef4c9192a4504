/** How long the bus lock is held, and what may happen at the same time.

    The lock is exclusive for single page loads and for nothing else, so any two operations of
    two workers that are not loads can meet on the bus. */
module BusOverlap {
  import opened Machine
  import opened Microcode
  import opened Spi
  import opened FlatMemory
  import opened BusLock

  // ----- the sections

  /** Exclusive for one load and nothing else, shared for anything but loads. */
  ghost predicate Fine(s: Section) {
    (s.mode == Exclusive <==> |s.ops| == 1 && s.ops[0].Load?) && (s.mode == Shared ==> NoLoad(s.ops))
  }

  ghost predicate AllFine(ss: seq<Section>) {
    forall k | 0 <= k < |ss| :: Fine(ss[k])
  }

  lemma {:induction false} WriteIsFine(offset: nat, data: seq<byte>)
    ensures AllFine(WriteSections(offset, data))
    decreases |data|
  {
    if data != [] {
      var n := ChunkAt(offset, |data|);
      WriteIsFine(offset + n, data[n..]);
    }
  }

  lemma {:induction false} ReadLoadsNothing(offset: nat, length: nat)
    ensures NoLoad(ReadOps(offset, length))
    decreases length
  {
    if length > 0 {
      var n := ChunkAt(offset, length);
      ReadLoadsNothing(offset + n, length - n);
    }
  }

  lemma {:induction false} EraseLoadsNothing(offset: nat, blocks: nat)
    ensures NoLoad(EraseOps(offset, blocks))
    decreases blocks
  {
    if blocks > 0 {
      EraseLoadsNothing(offset + BLOCK, blocks - 1);
    }
  }

  /** In every script of calls a section is exclusive exactly if it is a single load. */
  lemma {:induction false} ExclusiveIsOneLoad(xs: seq<Access>)
    ensures AllFine(SectionsOfAll(xs))
  {
    if xs != [] {
      match xs[0] {
        case ReadAt(offset, length) =>
          ReadLoadsNothing(offset, length);
        case WriteAt(offset, data) =>
          WriteIsFine(offset, data);
        case EraseAt(offset, length) =>
          EraseLoadsNothing(offset, length / BLOCK);
      }
      assert AllFine(SectionsOf(xs[0]));
      ExclusiveIsOneLoad(xs[1..]);
    }
  }

  /** The number of pages that a range touches. */
  function PagesTouched(offset: nat, length: nat): nat {
    if length == 0 then 0 else (offset + length - 1) / PAGE_SIZ - offset / PAGE_SIZ + 1
  }

  /** Where the part of a range on its page number j starts, and where it ends. */
  function PartStart(offset: nat, j: nat): nat {
    if j == 0 then offset else (offset / PAGE_SIZ + j) * PAGE_SIZ
  }

  function PartEnd(offset: nat, length: nat, j: nat): nat {
    var end := (offset / PAGE_SIZ + j + 1) * PAGE_SIZ;
    if offset + length < end then offset + length else end
  }

  /** The part of the data on page number j, loaded alone, and the commit of that page. */
  predicate PairAt(ss: seq<Section>, offset: nat, data: seq<byte>, j: nat)
    requires j < PagesTouched(offset, |data|)
  {
    var start, end := PartStart(offset, j), PartEnd(offset, |data|, j);
    2 * j + 1 < |ss| && offset <= start < end <= offset + |data| &&
    ss[2 * j] == Section(Exclusive, [Load(start % PAGE_SIZ, data[start - offset..end - offset])]) &&
    ss[2 * j + 1] == Section(Shared, [Commit(offset / PAGE_SIZ + j)])
  }

  lemma {:induction false} FirstPart(offset: nat, length: nat)
    requires length > 0
    ensures var n := ChunkAt(offset, length);
            PartEnd(offset, length, 0) == offset + n &&
            PagesTouched(offset + n, length - n) == PagesTouched(offset, length) - 1
    ensures var n := ChunkAt(offset, length);
            n < length ==> offset + n == PartStart(offset, 1) && (offset + n) / PAGE_SIZ == offset / PAGE_SIZ + 1
  {
  }

  /** The pages after the first one are those of the rest. */
  lemma {:induction false} LaterPart(offset: nat, length: nat, j: nat)
    requires length > 0 && ChunkAt(offset, length) < length && j > 0
    ensures var n := ChunkAt(offset, length);
            PartStart(offset + n, j - 1) == PartStart(offset, j) &&
            PartEnd(offset + n, length - n, j - 1) == PartEnd(offset, length, j)
  {
    FirstPart(offset, length);
  }

  lemma {:induction false} LaterPair(rest: seq<Section>, ss: seq<Section>, offset: nat, data: seq<byte>, j: nat)
    requires 0 < j < PagesTouched(offset, |data|)
    requires var n := ChunkAt(offset, |data|);
             n < |data| && |ss| == |rest| + 2 && ss[2..] == rest &&
             PagesTouched(offset + n, |data| - n) == PagesTouched(offset, |data|) - 1 &&
             PairAt(rest, offset + n, data[n..], j - 1)
    ensures PairAt(ss, offset, data, j)
  {
    var n := ChunkAt(offset, |data|);
    FirstPart(offset, |data|);
    LaterPart(offset, |data|, j);
    var start, end := PartStart(offset, j), PartEnd(offset, |data|, j);
    assert data[n..][start - (offset + n)..end - (offset + n)] == data[start - offset..end - offset];
    assert ss[2 * j] == ss[2..][2 * (j - 1)] && ss[2 * j + 1] == ss[2..][2 * (j - 1) + 1];
  }

  /** A write has two sections for every page that it touches: page after page the load of the
      part on that page, alone, and then its commit. */
  lemma {:induction false} WriteByPages(offset: nat, data: seq<byte>)
    ensures |WriteSections(offset, data)| == 2 * PagesTouched(offset, |data|)
    ensures forall j: nat | j < PagesTouched(offset, |data|) :: PairAt(WriteSections(offset, data), offset, data, j)
    decreases |data|
  {
    if data != [] {
      var n, ss := ChunkAt(offset, |data|), WriteSections(offset, data);
      var rest := WriteSections(offset + n, data[n..]);
      WriteByPages(offset + n, data[n..]);
      FirstPart(offset, |data|);
      assert ss[2..] == rest;
      forall j: nat | j < PagesTouched(offset, |data|) ensures PairAt(ss, offset, data, j) {
        if j > 0 {
          LaterPair(rest, ss, offset, data, j);
        }
      }
    }
  }

  // ----- what can be reached

  /** Some interleaving leads from s to t. */
  ghost predicate Leads(s: System, t: System) {
    exists tr: seq<System>, moves: seq<nat> :: Interleaving(tr, moves) && tr[0] == s && tr[|moves|] == t
  }

  lemma {:induction false} Start(s: System)
    ensures Leads(s, s)
  {
    var tr: seq<System>, moves: seq<nat> := [s], [];
    assert Interleaving(tr, moves);
  }

  lemma {:induction false} OneMore(s: System, t: System, u: System, i: nat)
    requires Leads(s, t) && BusStep(t, u, i)
    ensures Leads(s, u)
  {
    var tr: seq<System>, moves: seq<nat> :| Interleaving(tr, moves) && tr[0] == s && tr[|moves|] == t;
    var tr', moves' := tr + [u], moves + [i];
    assert Interleaving(tr', moves') by {
      forall k | 0 <= k < |moves'| ensures BusStep(tr'[k], tr'[k + 1], moves'[k]) {
        if k < |moves| {
          assert BusStep(tr[k], tr[k + 1], moves[k]);
        }
      }
    }
  }

  /** Safe, and reachable from s0. */
  ghost predicate Reached(s0: System, s: System) {
    Leads(s0, s) && Safe(s)
  }

  lemma {:induction false} Then(s0: System, s: System, t: System, i: nat)
    requires Reached(s0, s) && BusStep(s, t, i)
    ensures Reached(s0, t)
  {
    OneMore(s0, s, t, i);
    StepIsSafe(s, t, i);
  }

  lemma {:induction false} TakeLock(s0: System, s: System, i: nat) returns (t: System)
    requires Reached(s0, s) && i < |s| && !s[i].holding && s[i].script != []
    requires forall j | 0 <= j < |s| && j != i && s[j].holding && s[j].script != [] ::
               s[i].script[0].mode == Shared && s[j].script[0].mode == Shared
    ensures Reached(s0, t) && t == s[i := s[i].(holding := true)]
  {
    t := s[i := s[i].(holding := true)];
    assert Acquire(s, t, i);
    Then(s0, s, t, i);
  }

  lemma {:induction false} LetGo(s0: System, s: System, i: nat) returns (t: System)
    requires Reached(s0, s) && i < |s| && s[i].holding && !s[i].busy && s[i].script != [] && s[i].script[0].ops == []
    ensures Reached(s0, t) && t == s[i := s[i].(holding := false, script := s[i].script[1..])]
  {
    t := s[i := s[i].(holding := false, script := s[i].script[1..])];
    assert Release(s, t, i);
    Then(s0, s, t, i);
  }

  lemma {:induction false} StartOp(s0: System, s: System, i: nat) returns (t: System)
    requires Reached(s0, s) && i < |s| && s[i].HasOp() && !s[i].busy
    ensures Reached(s0, t) && t == s[i := s[i].(busy := true)]
  {
    t := s[i := s[i].(busy := true)];
    assert WorkerOk(s[i]);
    assert Begin(s, t, i) by {
      forall j | 0 <= j < |s| && j != i ensures !s[j].Loading() && !(s[i].Op().Load? && s[j].OnBus()) {
        assert Compatible(s[i], s[j]);
      }
    }
    Then(s0, s, t, i);
  }

  /** The script without its first m operations. */
  function After(ss: seq<Section>, m: nat): seq<Section>
    requires ss != [] && m <= |ss[0].ops|
  {
    ss[0 := Section(ss[0].mode, ss[0].ops[m..])]
  }

  lemma {:induction false} DoOp(s0: System, s: System, i: nat) returns (t: System)
    requires Reached(s0, s) && i < |s| && s[i].HasOp() && !s[i].busy
    ensures Reached(s0, t) && i < |t| && t == s[i := s[i].(chip := t[i].chip, script := After(s[i].script, 1))]
  {
    var u := StartOp(s0, s, i);
    var w := u[i];
    assert WorkerOk(w) && WorkerOk(s[i]);
    t := u[i := w.(busy := false, disturbed := false, chip := Effect(w.chip, w.Op()), script := After(w.script, 1))];
    assert End(u, t, i);
    Then(s0, u, t, i);
  }

  /** The first m operations of the current section. */
  lemma {:induction false} DoOps(s0: System, s: System, i: nat, m: nat) returns (t: System)
    requires Reached(s0, s) && i < |s| && s[i].holding && !s[i].busy && s[i].script != []
    requires m <= |s[i].script[0].ops|
    ensures Reached(s0, t) && i < |t| && t == s[i := s[i].(chip := t[i].chip, script := After(s[i].script, m))]
  {
    if m == 0 {
      t := s;
      assert After(s[i].script, 0) == s[i].script;
    } else {
      var u := DoOps(s0, s, i, m - 1);
      t := DoOp(s0, u, i);
      assert After(After(s[i].script, m - 1), 1) == After(s[i].script, m);
    }
  }

  ghost predicate Quiet(w: Worker) {
    !w.holding && !w.busy
  }

  ghost predicate AllQuiet(s: System) {
    forall j | 0 <= j < |s| :: Quiet(s[j])
  }

  /** While all others are quiet a worker can go through its first k sections. */
  lemma {:induction false} SkipSections(s0: System, s: System, i: nat, k: nat) returns (t: System)
    requires Reached(s0, s) && AllQuiet(s) && i < |s| && k <= |s[i].script|
    ensures Reached(s0, t) && i < |t| && t == s[i := s[i].(chip := t[i].chip, script := s[i].script[k..])]
    ensures AllQuiet(t)
  {
    if k == 0 {
      t := s;
      assert s[i].script[0..] == s[i].script;
    } else {
      var u := SkipSections(s0, s, i, k - 1);
      t := SkipSection(s0, u, i);
      assert s[i].script[k - 1..][1..] == s[i].script[k..];
    }
  }

  lemma {:induction false} SkipSection(s0: System, s: System, i: nat) returns (t: System)
    requires Reached(s0, s) && AllQuiet(s) && i < |s| && s[i].script != []
    ensures Reached(s0, t) && i < |t| && t == s[i := s[i].(chip := t[i].chip, script := s[i].script[1..])]
    ensures AllQuiet(t)
  {
    var u := TakeLock(s0, s, i);
    var v := DoOps(s0, u, i, |u[i].script[0].ops|);
    t := LetGo(s0, v, i);
  }

  /** A worker begins operation m of its next section, which is shared, beside others in shared
      sections. */
  lemma {:induction false} GoOnBus(s0: System, s: System, i: nat, m: nat) returns (t: System)
    requires Reached(s0, s) && i < |s| && Quiet(s[i]) && s[i].script != [] && m < |s[i].script[0].ops|
    requires s[i].script[0].mode == Shared
    requires forall j | 0 <= j < |s| && s[j].holding && s[j].script != [] :: s[j].script[0].mode == Shared
    ensures Reached(s0, t) && i < |t|
    ensures t == s[i := s[i].(holding := true, busy := true, chip := t[i].chip, script := After(s[i].script, m))]
    ensures t[i].OnBus() && t[i].Op() == s[i].script[0].ops[m]
  {
    var u := TakeLock(s0, s, i);
    var v := DoOps(s0, u, i, m);
    t := StartOp(s0, v, i);
  }

  /** Worker i is in the middle of operation m of section k of this script. */
  ghost predicate Doing(w: Worker, ss: seq<Section>, k: nat, m: nat)
    requires k < |ss| && m < |ss[k].ops|
  {
    w.OnBus() && w.Op() == ss[k].ops[m] && w.script == After(ss[k..], m)
  }

  /** Any two operations of two workers that are not loads meet on the bus in some interleaving. */
  lemma {:induction false} OperationsMeet(s: System, xs: seq<seq<Access>>, i: nat, k: nat, m: nat, j: nat, l: nat,
      n: nat)
    requires AtStart(s, xs) && i < |xs| && j < |xs| && i != j
    requires k < |s[i].script| && m < |s[i].script[k].ops| && !s[i].script[k].ops[m].Load?
    requires l < |s[j].script| && n < |s[j].script[l].ops| && !s[j].script[l].ops[n].Load?
    ensures exists t :: Leads(s, t) && |t| == |xs| && Doing(t[i], s[i].script, k, m) && Doing(t[j], s[j].script, l, n)
  {
    ExclusiveIsOneLoad(xs[i]);
    ExclusiveIsOneLoad(xs[j]);
    assert Fine(s[i].script[k]) && Fine(s[j].script[l]);
    StartIsSafe(s, xs);
    Start(s);
    var s1 := SkipSections(s, s, i, k);
    var s2 := SkipSections(s, s1, j, l);
    var s3 := GoOnBus(s, s2, i, m);
    var t := GoOnBus(s, s3, j, n);
    assert Leads(s, t) && Doing(t[i], s[i].script, k, m) && Doing(t[j], s[j].script, l, n);
  }

  /** In particular one chip is read while another one programs. */
  lemma {:induction false} ReadDuringCommit(s: System, offset: nat, data: seq<byte>, from: nat, length: nat)
    requires AtStart(s, [[WriteAt(offset, data)], [ReadAt(from, length)]]) && data != [] && length > 0
    ensures exists t: System :: Leads(s, t) && |t| == 2 && t[0].OnBus() && t[0].Op() == Commit(offset / PAGE_SIZ) &&
                                t[1].OnBus() && t[1].Op().ReadPage?
  {
    var xs := [[WriteAt(offset, data)], [ReadAt(from, length)]];
    assert xs[0][1..] == [] && xs[1][1..] == [];
    assert SectionsOfAll(xs[0]) == WriteSections(offset, data);
    assert SectionsOfAll(xs[1]) == [Section(Shared, ReadOps(from, length))];
    OperationsMeet(s, xs, 0, 1, 0, 1, 0, 0);
  }
}
