/** Schedules: which step writes which source into which cell.

    A source may be read only after the step that settles it, and a cell takes at most one
    write per step.  The greedy order of ROM.cpp (earliest settled source first, one step
    after the other) is such a schedule, and no other one settles any cell earlier. */
module Schedule {
  import opened Graph
  import opened Cells

  /** What `schedule` asserts about its netlist on entry, and that sources exist. */
  ghost predicate Wellformed(cells: seq<Cell>) {
    forall c | 0 <= c < |cells| ::
      (if cells[c].ins == [] then cells[c].complete == 1 else cells[c].complete < 0) &&
      forall j | 0 <= j < |cells[c].ins| :: cells[c].ins[j].src.cell < |cells|
  }

  /** The same cells with the same sources, in whatever order, at the same addresses. */
  ghost predicate SameNetlist(cells: seq<Cell>, cells': seq<Cell>) {
    |cells| == |cells'| &&
    forall c | 0 <= c < |cells| ::
      cells[c].addr == cells'[c].addr &&
      multiset(Sources(cells[c].ins)) == multiset(Sources(cells'[c].ins))
  }

  /** When a cell may rely on its source: source d is settled before step t. */
  predicate SettledBefore(cells: seq<Cell>, d: nat, t: int) {
    d < |cells| && 1 <= cells[d].complete < t
  }

  /** A schedule that respects both constraints. */
  ghost predicate FeasibleCell(cells: seq<Cell>, c: nat)
    requires c < |cells|
  {
    var ins := cells[c].ins;
    (ins == [] ==> cells[c].complete == 1) &&
    (forall j | 0 <= j < |ins| ::
      SettledBefore(cells, ins[j].src.cell, ins[j].step) && ins[j].step <= cells[c].complete) &&
    forall i, j | 0 <= i < j < |ins| :: ins[i].step != ins[j].step
  }

  ghost predicate Feasible(cells: seq<Cell>) {
    forall c | 0 <= c < |cells| :: FeasibleCell(cells, c)
  }

  function Completions(cells: seq<Cell>): (r: seq<int>)
    ensures |r| == |cells| && forall c | 0 <= c < |cells| :: r[c] == cells[c].complete
  {
    seq(|cells|, c requires 0 <= c < |cells| => cells[c].complete)
  }

  /** Write j comes one step after the later of its source settling and the write before. */
  predicate WrittenAtOnce(ins: seq<Write>, complete: seq<int>, j: nat) {
    j < |ins| && ins[j].src.cell < |complete| &&
    ins[j].step == 1 + Max(complete[ins[j].src.cell], if j == 0 then 1 else ins[j - 1].step)
  }

  /** The greedy rule of one cell: sources by the step that settles them, each written at once. */
  ghost predicate GreedyCell(cells: seq<Cell>, c: nat)
    requires c < |cells|
  {
    var ins := cells[c].ins;
    ins != [] &&
    (forall j | 0 <= j < |ins| :: ins[j].src.cell < |cells| && 1 <= cells[ins[j].src.cell].complete) &&
    (forall i, j | 0 <= i < j < |ins| :: cells[ins[i].src.cell].complete <= cells[ins[j].src.cell].complete) &&
    (forall j {:trigger WrittenAtOnce(ins, Completions(cells), j)} | 0 <= j < |ins| ::
      WrittenAtOnce(ins, Completions(cells), j)) &&
    cells[c].complete == ins[|ins| - 1].step
  }

  function Max(x: int, y: int): (m: int)
    ensures m >= x && m >= y && (m == x || m == y)
  {
    if x >= y then x else y
  }

  ghost predicate Greedy(cells: seq<Cell>) {
    forall c | 0 <= c < |cells| ::
      if cells[c].ins == [] then cells[c].complete == 1 else GreedyCell(cells, c)
  }

  // ----- the greedy schedule is feasible

  lemma {:induction false} GreedySteps(cells: seq<Cell>, c: nat, i: nat, j: nat)
    requires c < |cells| && GreedyCell(cells, c) && i < j < |cells[c].ins|
    ensures cells[c].ins[i].step < cells[c].ins[j].step
  {
    assert WrittenAtOnce(cells[c].ins, Completions(cells), j);
    if i < j - 1 {
      GreedySteps(cells, c, i, j - 1);
    }
  }

  lemma {:induction false} GreedyCellIsFeasible(cells: seq<Cell>, c: nat)
    requires c < |cells| && GreedyCell(cells, c)
    ensures FeasibleCell(cells, c)
  {
    var ins := cells[c].ins;
    forall i, j | 0 <= i < j < |ins| ensures ins[i].step < ins[j].step {
      GreedySteps(cells, c, i, j);
    }
    forall j | 0 <= j < |ins|
      ensures SettledBefore(cells, ins[j].src.cell, ins[j].step) && ins[j].step <= cells[c].complete
    {
      assert WrittenAtOnce(ins, Completions(cells), j);
      assert j == |ins| - 1 || ins[j].step < ins[|ins| - 1].step;
    }
  }

  /** Every write comes after its source is settled, and no two share a step. */
  lemma {:induction false} GreedyIsFeasible(cells: seq<Cell>)
    requires Greedy(cells)
    ensures Feasible(cells)
  {
    forall c | 0 <= c < |cells| ensures FeasibleCell(cells, c) {
      if cells[c].ins != [] {
        GreedyCellIsFeasible(cells, c);
      }
    }
  }

  // ----- and no feasible schedule is earlier

  /** How many of xs are settled at step r or later. */
  function CountLate(xs: seq<Sig>, complete: seq<int>, r: int): nat {
    if xs == [] then 0
    else (if Late(xs[0], complete, r) then 1 else 0) + CountLate(xs[1..], complete, r)
  }

  predicate Late(x: Sig, complete: seq<int>, r: int) {
    x.cell < |complete| && complete[x.cell] >= r
  }

  lemma {:induction false} CountLateAppend(xs: seq<Sig>, ys: seq<Sig>, complete: seq<int>, r: int)
    ensures CountLate(xs + ys, complete, r) == CountLate(xs, complete, r) + CountLate(ys, complete, r)
  {
    if xs == [] {
      assert xs + ys == ys;
    } else {
      assert (xs + ys)[1..] == xs[1..] + ys;
      CountLateAppend(xs[1..], ys, complete, r);
    }
  }

  lemma {:induction false} CountLatePermuted(xs: seq<Sig>, ys: seq<Sig>, complete: seq<int>, r: int)
    requires multiset(xs) == multiset(ys)
    ensures CountLate(xs, complete, r) == CountLate(ys, complete, r)
  {
    assert |multiset(xs)| == |multiset(ys)|;
    if xs != [] {
      var x := xs[0];
      assert x in multiset(ys);
      var k :| 0 <= k < |ys| && ys[k] == x;
      var rest := ys[..k] + ys[k + 1..];
      assert xs == [x] + xs[1..];
      assert ys == ys[..k] + ([x] + ys[k + 1..]);
      assert multiset(ys) == multiset(ys[..k]) + (multiset{x} + multiset(ys[k + 1..]));
      assert multiset(xs) == multiset{x} + multiset(xs[1..]);
      assert multiset(rest) == multiset(ys) - multiset{x};
      assert multiset(xs[1..]) == multiset(rest);
      CountLatePermuted(xs[1..], rest, complete, r);
      CountLateAppend(ys[..k], [x] + ys[k + 1..], complete, r);
      CountLateAppend(ys[..k], ys[k + 1..], complete, r);
      assert ([x] + ys[k + 1..])[1..] == ys[k + 1..];
    }
  }

  lemma {:induction false} AllLate(xs: seq<Sig>, complete: seq<int>, r: int)
    requires forall j | 0 <= j < |xs| :: Late(xs[j], complete, r)
    ensures CountLate(xs, complete, r) == |xs|
  {
    if xs != [] {
      AllLate(xs[1..], complete, r);
    }
  }

  /** The steps of the writes whose source is settled at step r or later. */
  function LateSteps(ins: seq<Write>, complete: seq<int>, r: int): (steps: seq<int>)
    ensures forall t | t in steps :: exists j | 0 <= j < |ins| :: t == ins[j].step && Late(ins[j].src, complete, r)
  {
    if ins == [] then []
    else
      var rest := LateSteps(ins[1..], complete, r);
      assert forall j | 0 <= j < |ins| - 1 :: ins[1..][j] == ins[j + 1];
      if Late(ins[0].src, complete, r) then [ins[0].step] + rest else rest
  }

  lemma {:induction false} LateStepsCount(ins: seq<Write>, complete: seq<int>, r: int)
    ensures |LateSteps(ins, complete, r)| == CountLate(Sources(ins), complete, r)
  {
    if ins != [] {
      assert Sources(ins)[1..] == Sources(ins[1..]);
      LateStepsCount(ins[1..], complete, r);
    }
  }

  lemma {:induction false} LateStepsDistinct(ins: seq<Write>, complete: seq<int>, r: int)
    requires forall i, j | 0 <= i < j < |ins| :: ins[i].step != ins[j].step
    ensures forall a, b | 0 <= a < b < |LateSteps(ins, complete, r)| ::
              LateSteps(ins, complete, r)[a] != LateSteps(ins, complete, r)[b]
  {
    if ins != [] {
      assert forall j | 0 <= j < |ins| - 1 :: ins[1..][j] == ins[j + 1];
      LateStepsDistinct(ins[1..], complete, r);
      var rest := LateSteps(ins[1..], complete, r);
      forall b | 0 <= b < |rest| ensures rest[b] != ins[0].step {
        assert rest[b] in rest;
      }
    }
  }

  /** Pigeonhole: different steps in (lo, hi] are at most hi - lo many. */
  lemma {:induction false} DistinctFit(xs: seq<int>, lo: int, hi: int)
    requires lo <= hi && forall x | x in xs :: lo < x <= hi
    requires forall a, b | 0 <= a < b < |xs| :: xs[a] != xs[b]
    ensures |xs| <= hi - lo
    decreases hi - lo
  {
    if xs == [] {
      return;
    }
    assert xs[0] in xs;
    if k :| 0 <= k < |xs| && xs[k] == hi {
      var rest := xs[..k] + xs[k + 1..];
      forall x | x in rest ensures lo < x <= hi - 1 {
        assert x in xs;
      }
      DistinctFit(rest, lo, hi - 1);
    } else {
      DistinctFit(xs, lo, hi - 1);
    }
  }

  /** The greedy completion is tight: from some source on, one write per step. */
  lemma {:induction false} GreedyIsTight(cells: seq<Cell>, c: nat, j: nat) returns (i: nat)
    requires c < |cells| && GreedyCell(cells, c) && j < |cells[c].ins|
    ensures i <= j && cells[c].ins[j].step == cells[cells[c].ins[i].src.cell].complete + (j - i + 1)
  {
    var ins := cells[c].ins;
    assert WrittenAtOnce(ins, Completions(cells), j);
    if j == 0 || cells[ins[j].src.cell].complete >= ins[j - 1].step {
      i := j;
    } else {
      i := GreedyIsTight(cells, c, j - 1);
    }
  }

  predicate SettledNoEarlier(greedy: seq<Cell>, other: seq<Cell>, d: nat) {
    d < |greedy| == |other| && greedy[d].complete <= other[d].complete
  }

  /** If no source of cell c settles earlier than in the greedy schedule, then every source
      that settles at r or later there costs the cell a step of its own after r. */
  lemma {:induction false} LateWritesFit(greedy: seq<Cell>, other: seq<Cell>, c: nat, r: int)
    requires c < |other| && FeasibleCell(other, c)
    requires forall j | 0 <= j < |other[c].ins| :: SettledNoEarlier(greedy, other, other[c].ins[j].src.cell)
    requires CountLate(Sources(other[c].ins), Completions(greedy), r) > 0
    ensures r + CountLate(Sources(other[c].ins), Completions(greedy), r) <= other[c].complete
  {
    var ins, done := other[c].ins, Completions(greedy);
    LateStepsCount(ins, done, r);
    LateStepsDistinct(ins, done, r);
    var steps := LateSteps(ins, done, r);
    forall t | t in steps ensures r < t <= other[c].complete {
      var j :| 0 <= j < |ins| && t == ins[j].step && Late(ins[j].src, done, r);
      assert SettledBefore(other, ins[j].src.cell, t) && SettledNoEarlier(greedy, other, ins[j].src.cell);
    }
    assert steps[0] in steps;
    DistinctFit(steps, r, other[c].complete);
  }

  /** The step of the induction: one cell, given its sources. */
  lemma {:induction false} EarliestGivenSources(greedy: seq<Cell>, other: seq<Cell>, c: nat)
    requires SameNetlist(greedy, other) && c < |greedy| && GreedyCell(greedy, c) && FeasibleCell(other, c)
    requires forall j | 0 <= j < |other[c].ins| :: SettledNoEarlier(greedy, other, other[c].ins[j].src.cell)
    ensures greedy[c].complete <= other[c].complete
  {
    var ins := greedy[c].ins;
    var i := GreedyIsTight(greedy, c, |ins| - 1);
    var r := greedy[ins[i].src.cell].complete;
    LateSuffix(greedy, c, i);
    CountLatePermuted(Sources(ins), Sources(other[c].ins), Completions(greedy), r);
    LateWritesFit(greedy, other, c, r);
  }

  /** Optimality: no schedule of the same netlist settles cell c earlier. */
  lemma {:induction false} GreedyIsEarliest(greedy: seq<Cell>, other: seq<Cell>, c: nat)
    requires Greedy(greedy) && Feasible(other) && SameNetlist(greedy, other) && c < |greedy|
    ensures greedy[c].complete <= other[c].complete
    decreases greedy[c].complete
  {
    if greedy[c].ins == [] {
      EmptySources(greedy[c].ins, other[c].ins);
      assert FeasibleCell(other, c);
    } else {
      forall j | 0 <= j < |other[c].ins| ensures SettledNoEarlier(greedy, other, other[c].ins[j].src.cell) {
        SourceIsEarlier(greedy, other, c, j);
        GreedyIsEarliest(greedy, other, other[c].ins[j].src.cell);
      }
      EarliestGivenSources(greedy, other, c);
    }
  }

  lemma {:induction false} EmptySources(ins: seq<Write>, ins': seq<Write>)
    requires multiset(Sources(ins)) == multiset(Sources(ins'))
    ensures ins == [] <==> ins' == []
  {
  }

  /** From source i on, a greedy cell has only sources that settle no earlier than source i. */
  lemma {:induction false} LateSuffix(cells: seq<Cell>, c: nat, i: nat)
    requires c < |cells| && GreedyCell(cells, c) && i < |cells[c].ins|
    ensures var ins := cells[c].ins;
            CountLate(Sources(ins), Completions(cells), cells[ins[i].src.cell].complete) >= |ins| - i
  {
    var ins := cells[c].ins;
    var xs, done, r := Sources(ins), Completions(cells), cells[ins[i].src.cell].complete;
    assert xs == xs[..i] + xs[i..];
    CountLateAppend(xs[..i], xs[i..], done, r);
    forall j | 0 <= j < |xs[i..]| ensures Late(xs[i..][j], done, r) {
      assert xs[i..][j] == ins[i + j].src;
    }
    AllLate(xs[i..], done, r);
  }

  /** Source j of the other schedule's cell c is a source of the greedy one, settled earlier. */
  lemma {:induction false} SourceIsEarlier(greedy: seq<Cell>, other: seq<Cell>, c: nat, j: nat)
    requires Greedy(greedy) && SameNetlist(greedy, other) && c < |greedy| && j < |other[c].ins|
    ensures other[c].ins[j].src.cell < |greedy|
    ensures 1 <= greedy[other[c].ins[j].src.cell].complete < greedy[c].complete
  {
    var xs, ys := Sources(greedy[c].ins), Sources(other[c].ins);
    assert ys[j] in multiset(xs);
    var k :| 0 <= k < |xs| && xs[k] == ys[j];
    GreedyIsFeasible(greedy);
    assert FeasibleCell(greedy, c);
  }

  // ----- stable_sort

  /** The order of `stable_sort` by completion: w goes before the first later-or-equal one. */
  function InsertByCompletion(w: Write, ws: seq<Write>, complete: seq<int>): (r: seq<Write>)
    requires w.src.cell < |complete| && forall j | 0 <= j < |ws| :: ws[j].src.cell < |complete|
    ensures multiset(r) == multiset([w] + ws)
  {
    if ws == [] || complete[w.src.cell] <= complete[ws[0].src.cell] then
      [w] + ws
    else
      var r := [ws[0]] + InsertByCompletion(w, ws[1..], complete);
      assert ws == [ws[0]] + ws[1..];
      r
  }

  function StableSort(ws: seq<Write>, complete: seq<int>): (r: seq<Write>)
    requires forall j | 0 <= j < |ws| :: ws[j].src.cell < |complete|
    ensures multiset(r) == multiset(ws) && |r| == |ws|
  {
    if ws == [] then []
    else
      var rest := StableSort(ws[1..], complete);
      InRange(rest, ws[1..], complete);
      assert ws == [ws[0]] + ws[1..];
      var r := InsertByCompletion(ws[0], rest, complete);
      assert |multiset(r)| == |multiset(ws)|;
      r
  }

  lemma {:induction false} InRange(r: seq<Write>, ws: seq<Write>, complete: seq<int>)
    requires multiset(r) == multiset(ws) && forall j | 0 <= j < |ws| :: ws[j].src.cell < |complete|
    ensures forall j | 0 <= j < |r| :: r[j].src.cell < |complete|
  {
    forall j | 0 <= j < |r| ensures r[j].src.cell < |complete| {
      assert r[j] in multiset(ws);
    }
  }

  predicate SortedByCompletion(ws: seq<Write>, complete: seq<int>) {
    (forall j | 0 <= j < |ws| :: ws[j].src.cell < |complete|) &&
    forall i, j | 0 <= i < j < |ws| :: complete[ws[i].src.cell] <= complete[ws[j].src.cell]
  }

  lemma {:induction false} InsertIsSorted(w: Write, ws: seq<Write>, complete: seq<int>)
    requires w.src.cell < |complete| && SortedByCompletion(ws, complete)
    ensures SortedByCompletion(InsertByCompletion(w, ws, complete), complete)
  {
    if ws != [] && complete[w.src.cell] > complete[ws[0].src.cell] {
      InsertIsSorted(w, ws[1..], complete);
      var tail := InsertByCompletion(w, ws[1..], complete);
      forall j | 0 <= j < |tail| ensures complete[ws[0].src.cell] <= complete[tail[j].src.cell] {
        assert tail[j] in multiset([w] + ws[1..]);
        assert tail[j] == w || tail[j] in ws[1..];
      }
      ConsIsSorted(ws[0], tail, complete);
    } else {
      ConsIsSorted(w, ws, complete);
    }
  }

  lemma {:induction false} ConsIsSorted(w: Write, ws: seq<Write>, complete: seq<int>)
    requires w.src.cell < |complete| && SortedByCompletion(ws, complete)
    requires ws == [] || (forall j | 0 <= j < |ws| :: complete[w.src.cell] <= complete[ws[j].src.cell])
    ensures SortedByCompletion([w] + ws, complete)
  {
  }

  lemma {:induction false} SortIsSorted(ws: seq<Write>, complete: seq<int>)
    requires forall j | 0 <= j < |ws| :: ws[j].src.cell < |complete|
    ensures SortedByCompletion(StableSort(ws, complete), complete)
  {
    if ws != [] {
      SortIsSorted(ws[1..], complete);
      InsertIsSorted(ws[0], StableSort(ws[1..], complete), complete);
    }
  }

  /** The writes whose source settles exactly at step r, in order. */
  function At(ws: seq<Write>, complete: seq<int>, r: int): seq<Write>
    requires forall j | 0 <= j < |ws| :: ws[j].src.cell < |complete|
  {
    if ws == [] then []
    else (if complete[ws[0].src.cell] == r then [ws[0]] else []) + At(ws[1..], complete, r)
  }

  lemma {:induction false} AtCons(w: Write, ws: seq<Write>, complete: seq<int>, r: int)
    requires w.src.cell < |complete| && forall j | 0 <= j < |ws| :: ws[j].src.cell < |complete|
    ensures forall j | 0 <= j < |[w] + ws| :: ([w] + ws)[j].src.cell < |complete|
    ensures At([w] + ws, complete, r) == (if complete[w.src.cell] == r then [w] else []) + At(ws, complete, r)
  {
  }

  lemma {:induction false} InsertIsStable(w: Write, ws: seq<Write>, complete: seq<int>, r: int)
    requires w.src.cell < |complete| && SortedByCompletion(ws, complete)
    ensures SortedByCompletion(InsertByCompletion(w, ws, complete), complete)
    ensures At(InsertByCompletion(w, ws, complete), complete, r) ==
            (if complete[w.src.cell] == r then [w] else []) + At(ws, complete, r)
  {
    InsertIsSorted(w, ws, complete);
    if ws == [] || complete[w.src.cell] <= complete[ws[0].src.cell] {
      AtCons(w, ws, complete, r);
    } else {
      InsertIsStable(w, ws[1..], complete, r);
      AtCons(ws[0], InsertByCompletion(w, ws[1..], complete), complete, r);
      PassOver(if complete[w.src.cell] == r then [w] else [], if complete[ws[0].src.cell] == r then [ws[0]] else [],
               At(ws[1..], complete, r));
    }
  }

  lemma {:induction false} PassOver<T>(a: seq<T>, b: seq<T>, rest: seq<T>)
    requires a == [] || b == []
    ensures b + (a + rest) == a + (b + rest)
  {
  }

  /** Writes with equally early sources keep their order. */
  lemma {:induction false} SortIsStable(ws: seq<Write>, complete: seq<int>, r: int)
    requires forall j | 0 <= j < |ws| :: ws[j].src.cell < |complete|
    ensures SortedByCompletion(StableSort(ws, complete), complete)
    ensures At(StableSort(ws, complete), complete, r) == At(ws, complete, r)
  {
    if ws != [] {
      SortIsStable(ws[1..], complete, r);
      InsertIsStable(ws[0], StableSort(ws[1..], complete), complete, r);
    }
  }
}
