/** Runs of many rounds: results, pages and erases of every round. */
module Levelling {
  import opened Bits
  import opened Circuit
  import opened Cells
  import opened Microcode
  import opened Machine
  import opened Runs
  import opened RoundPlan
  import opened Round
  import opened Wear

  /** Between two rounds only the input registers are set. */
  ghost predicate NextRound(t: State, s: State) {
    s == t.(inA := s.inA, inB := s.inB)
  }

  /** A run of |rs| rounds of n instructions each. */
  ghost predicate Rounds(rs: seq<seq<State>>, n: nat, good: set<nat>) {
    (forall k | 0 <= k < |rs| :: |rs[k]| == n + 1 && FaultyRun(rs[k], good)) &&
    forall k {:trigger rs[k]} | 0 < k < |rs| :: NextRound(rs[k - 1][n], rs[k][0])
  }

  /** The machine as it comes out of its constructor. */
  ghost predicate Fresh(s: State, ops: seq<Micro>, good: set<nat>)
    requires Loadable(ops)
  {
    Between(s, ops, good) && s.pageOffset == 0
  }

  /** The device is not so large that the page after its last one is beyond 32 bits. */
  predicate SafeSize(nandSize: nat)
    requires RAM <= nandSize
  {
    RAM + (Pages(nandSize) + 1) * PAGE_SIZ < U32
  }

  /** The sizes that flash devices have. */
  predicate WholeBlocks(nandSize: nat) {
    nandSize % BLOCK == 0
  }

  /** The arithmetic works for all sizes that leave a page below 2^32... */
  lemma {:induction false} ArithmeticLimit(nandSize: nat)
    requires RAM <= nandSize
    ensures SafeSize(nandSize) <==> nandSize < U32 - PAGE_SIZ
  {
  }

  /** ... and so for every device. */
  lemma {:induction false} BlocksAreSafe(nandSize: nat)
    requires RAM <= nandSize < U32 && WholeBlocks(nandSize)
    ensures SafeSize(nandSize)
  {
  }

  lemma {:induction false} NextQuotient(k: nat, p: nat)
    requires p > 0
    ensures (k + 1) % p == if k % p == p - 1 then 0 else k % p + 1
    ensures (k + 1) / p == if k % p == p - 1 then k / p + 1 else k / p
  {
    if k % p == p - 1 {
      assert k + 1 == (k / p) * p + p == (k / p + 1) * p;
      DivisionIsUnique(k + 1, p, k / p + 1, 0);
    } else {
      DivisionIsUnique(k + 1, p, k / p, k % p + 1);
    }
  }

  /** Setting the inputs keeps the invariant. */
  lemma {:induction false} InputsKeepBetween(t: State, s: State, ops: seq<Micro>, good: set<nat>)
    requires Loadable(ops) && Between(t, ops, good) && NextRound(t, s) && s.Valid()
    ensures Between(s, ops, good)
  {
  }

  /** Where round k works, and how often the area has been erased by then. */
  ghost predicate Levelled(s: State, first: State, k: nat)
    requires RAM + PAGE_SIZ <= first.nandSize
  {
    s.nandSize == first.nandSize && s.pageOffset == k % Pages(first.nandSize) * PAGE_SIZ &&
    s.erases == first.erases + k / Pages(first.nandSize)
  }

  lemma {:induction false} LastPage(nandSize: nat, i: nat)
    requires RAM + PAGE_SIZ <= nandSize < U32 && i < Pages(nandSize) && (i < Pages(nandSize) - 1 || SafeSize(nandSize))
    ensures i < Pages(nandSize) - 1 ==> RAM + i * PAGE_SIZ + 2 * PAGE_SIZ <= nandSize
    ensures EraseDue(i * PAGE_SIZ + PAGE_SIZ, nandSize) <==> i == Pages(nandSize) - 1
  {
  }

  lemma {:induction false} LevelledNext(s: State, t: State, first: State, k: nat)
    requires RAM + PAGE_SIZ <= first.nandSize < U32 && Levelled(s, first, k) && Renewed(s, t)
    requires k % Pages(first.nandSize) < Pages(first.nandSize) - 1 || SafeSize(first.nandSize)
    ensures Levelled(t, first, k + 1)
    ensures Current(s) + 2 * PAGE_SIZ <= s.nandSize || EraseDue(s.pageOffset + PAGE_SIZ, s.nandSize)
  {
    var p := Pages(first.nandSize);
    LastPage(first.nandSize, k % p);
    NextQuotient(k, p);
  }

  /** The wear-levelling theorem.  With P pages in the calculation area, round k works on page
      k mod P, and k div P erases have followed the first one. */
  lemma {:induction false} WearLevels(rs: seq<seq<State>>, good: set<nat>, cells: seq<Cell>, qs: seq<Ports>,
      steps: int, k: nat)
    requires Plan(cells, qs, steps) && Loadable(RoundCode(cells, qs, steps))
    requires Rounds(rs, |RoundCode(cells, qs, steps)|, good) && k < |rs|
    requires Fresh(rs[0][0], RoundCode(cells, qs, steps), good)
    requires k < Pages(rs[0][0].nandSize) || SafeSize(rs[0][0].nandSize)
    ensures Between(rs[k][0], RoundCode(cells, qs, steps), good) && Levelled(rs[k][0], rs[0][0], k)
  {
    var ops, first := RoundCode(cells, qs, steps), rs[0][0];
    if k > 0 {
      WearLevels(rs, good, cells, qs, steps, k - 1);
      RoundRenews(rs[k - 1], good, cells, qs, steps);
      var s, t := rs[k - 1][0], rs[k - 1][|ops|];
      assert NextRound(rs[k - 1][|ops|], rs[k][0]);
      if k < Pages(first.nandSize) {
        DivisionIsUnique(k - 1, Pages(first.nandSize), 0, k - 1);
      }
      LevelledNext(s, t, first, k - 1);
      InputsKeepBetween(t, rs[k][0], ops, good);
    } else {
      DivisionIsUnique(0, Pages(first.nandSize), 0, 0);
    }
  }

  /** Every round of every run computes, raises the signal exactly at its end, and leaves the
      ROM as it was installed. */
  lemma {:induction false} EveryRoundComputes(rs: seq<seq<State>>, good: set<nat>, cells: seq<Cell>, qs: seq<Ports>,
      steps: int, k: nat)
    requires Plan(cells, qs, steps) && Loadable(RoundCode(cells, qs, steps)) && |good| >= 5
    requires Rounds(rs, |RoundCode(cells, qs, steps)|, good) && k < |rs|
    requires Fresh(rs[0][0], RoundCode(cells, qs, steps), good) && SafeSize(rs[0][0].nandSize)
    ensures var s, n := rs[k][0], |RoundCode(cells, qs, steps)|;
            var t := rs[k][n];
            s.Valid() && t.Valid() && RomReady(t, RoundCode(cells, qs, steps)) && t.signal && t.pc == 0 &&
            (forall l | 0 <= l < LANES :: LaneResult(s.inA[l], s.inB[l], t.out[l], t.isJmp[l])) &&
            forall i | 0 < i < n :: !rs[k][i].signal
  {
    WearLevels(rs, good, cells, qs, steps, k);
    BetweenIsErased(rs[k][0], RoundCode(cells, qs, steps), good);
    RoundComputes(rs[k], good, cells, qs, steps);
    RoundRenews(rs[k], good, cells, qs, steps);
  }

  lemma {:induction false} SameLevel(s: State, t: State, first: State, j: nat, k: nat)
    requires RAM + PAGE_SIZ <= first.nandSize && Levelled(s, first, j) && Levelled(t, first, k)
    ensures s.erases == t.erases && s.pageOffset == t.pageOffset ==> j == k
  {
  }

  /** Each page serves at most one round between two erases... */
  lemma {:induction false} OneRoundPerPage(rs: seq<seq<State>>, good: set<nat>, cells: seq<Cell>, qs: seq<Ports>,
      steps: int, j: nat, k: nat)
    requires Plan(cells, qs, steps) && Loadable(RoundCode(cells, qs, steps))
    requires Rounds(rs, |RoundCode(cells, qs, steps)|, good) && j < |rs| && k < |rs|
    requires Fresh(rs[0][0], RoundCode(cells, qs, steps), good) && SafeSize(rs[0][0].nandSize)
    ensures rs[j][0].erases == rs[k][0].erases && rs[j][0].pageOffset == rs[k][0].pageOffset ==> j == k
  {
    WearLevels(rs, good, cells, qs, steps, j);
    WearLevels(rs, good, cells, qs, steps, k);
    SameLevel(rs[j][0], rs[k][0], rs[0][0], j, k);
  }

  /** ... and every page serves one, if the run is long enough. */
  lemma {:induction false} EveryPageServes(rs: seq<seq<State>>, good: set<nat>, cells: seq<Cell>, qs: seq<Ports>,
      steps: int, cycle: nat, i: nat)
    requires Plan(cells, qs, steps) && Loadable(RoundCode(cells, qs, steps))
    requires Rounds(rs, |RoundCode(cells, qs, steps)|, good) && |rs| > 0
    requires Fresh(rs[0][0], RoundCode(cells, qs, steps), good) && SafeSize(rs[0][0].nandSize)
    requires i < Pages(rs[0][0].nandSize) && cycle * Pages(rs[0][0].nandSize) + i < |rs|
    ensures var s := rs[cycle * Pages(rs[0][0].nandSize) + i][0];
            s.erases == rs[0][0].erases + cycle && s.pageOffset == i * PAGE_SIZ
  {
    var p := Pages(rs[0][0].nandSize);
    var k := cycle * p + i;
    DivisionIsUnique(k, p, cycle, i);
    WearLevels(rs, good, cells, qs, steps, k);
  }

  lemma {:induction false} RoundMoves(tr: seq<State>, good: set<nat>, cells: seq<Cell>, qs: seq<Ports>, steps: int)
    requires Plan(cells, qs, steps) && Loadable(RoundCode(cells, qs, steps))
    requires FaultyRun(tr, good) && |tr| == |RoundCode(cells, qs, steps)| + 1
    requires Between(tr[0], RoundCode(cells, qs, steps), good)
    ensures OnPage(tr[0]) && Renewed(tr[0], tr[|tr| - 1]) && tr[|tr| - 1].Valid()
  {
    RoundRenews(tr, good, cells, qs, steps);
  }

  lemma {:induction false} LastHandsOver(s: State, t: State, first: State)
    requires RAM + PAGE_SIZ <= first.nandSize && Levelled(s, first, Pages(first.nandSize) - 1)
    requires Renewed(s, t) && OnPage(s) && t.Valid()
    ensures OnPage(t) <==> SafeSize(first.nandSize)
  {
    var size := first.nandSize;
    DivisionIsUnique(Pages(size) - 1, Pages(size), 0, Pages(size) - 1);
    assert RAM + Pages(size) * PAGE_SIZ <= size < RAM + (Pages(size) + 1) * PAGE_SIZ;
    assert s.pageOffset == (Pages(size) - 1) * PAGE_SIZ;
  }

  /** The round that uses the last page hands over to a page inside the device exactly when
      the size is safe. */
  lemma {:induction false} LevellingNeedsSafeSize(rs: seq<seq<State>>, good: set<nat>, cells: seq<Cell>,
      qs: seq<Ports>, steps: int, k: nat)
    requires Plan(cells, qs, steps) && Loadable(RoundCode(cells, qs, steps))
    requires Rounds(rs, |RoundCode(cells, qs, steps)|, good) && k < |rs|
    requires Fresh(rs[0][0], RoundCode(cells, qs, steps), good) && k == Pages(rs[0][0].nandSize) - 1
    ensures OnPage(rs[k][|rs[k]| - 1]) <==> SafeSize(rs[0][0].nandSize)
  {
    WearLevels(rs, good, cells, qs, steps, k);
    RoundMoves(rs[k], good, cells, qs, steps);
    LastHandsOver(rs[k][0], rs[k][|rs[k]| - 1], rs[0][0]);
  }

  /** On a device of whole blocks every round of every run computes, on page k mod P and after
      k div P erases. */
  lemma {:induction false} BlockDeviceComputes(rs: seq<seq<State>>, good: set<nat>, cells: seq<Cell>, qs: seq<Ports>,
      steps: int, k: nat)
    requires Plan(cells, qs, steps) && Loadable(RoundCode(cells, qs, steps)) && |good| >= 5
    requires Rounds(rs, |RoundCode(cells, qs, steps)|, good) && k < |rs|
    requires Fresh(rs[0][0], RoundCode(cells, qs, steps), good) && WholeBlocks(rs[0][0].nandSize)
    ensures Levelled(rs[k][0], rs[0][0], k)
    ensures var s, n := rs[k][0], |RoundCode(cells, qs, steps)|;
            var t := rs[k][n];
            t.Valid() && t.signal && t.pc == 0 &&
            (forall l | 0 <= l < LANES :: LaneResult(s.inA[l], s.inB[l], t.out[l], t.isJmp[l])) &&
            forall i | 0 < i < n :: !rs[k][i].signal
  {
    assert OnPage(rs[0][0]);
    BlocksAreSafe(rs[0][0].nandSize);
    WearLevels(rs, good, cells, qs, steps, k);
    EveryRoundComputes(rs, good, cells, qs, steps, k);
  }
}
