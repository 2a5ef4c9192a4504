/** How much code a scheduled netlist takes: every write is emitted exactly once. */
module CodeSize {
  import opened Cells
  import opened Schedule
  import opened Microcode

  /** The writes among the first j of cell c that are due by step s. */
  function DueInCell(ins: seq<Write>, j: nat, s: int): (n: nat)
    requires j <= |ins|
    ensures n <= j
  {
    if j == 0 then 0 else DueInCell(ins, j - 1, s) + (if ins[j - 1].step <= s then 1 else 0)
  }

  function DueByStep(cells: seq<Cell>, n: nat, s: int): nat
    requires n <= |cells|
  {
    if n == 0 then 0 else DueByStep(cells, n - 1, s) + DueInCell(cells[n - 1].ins, |cells[n - 1].ins|, s)
  }

  lemma {:induction false} CellSize(cells: seq<Cell>, c: nat, j: nat, s: int)
    requires SourcesExist(cells) && c < |cells| && j <= |cells[c].ins|
    ensures |EmitCell(cells, c, j, s)| + DueInCell(cells[c].ins, j, s - 1) == DueInCell(cells[c].ins, j, s)
  {
    if j > 0 {
      CellSize(cells, c, j - 1, s);
    }
  }

  lemma {:induction false} CellsSize(cells: seq<Cell>, n: nat, s: int)
    requires SourcesExist(cells) && n <= |cells|
    ensures |EmitCells(cells, n, s)| + DueByStep(cells, n, s - 1) == DueByStep(cells, n, s)
  {
    if n > 0 {
      CellsSize(cells, n - 1, s);
      CellSize(cells, n - 1, |cells[n - 1].ins|, s);
    }
  }

  /** The code of steps 2 to s has one instruction per write due and one per step. */
  lemma {:induction false} StepsSize(cells: seq<Cell>, base: nat, s: int)
    requires SourcesExist(cells) && s >= 1
    ensures |EmitSteps(cells, base, s)| + DueByStep(cells, |cells|, 1) == DueByStep(cells, |cells|, s) + (s - 1)
    decreases s
  {
    if s >= 2 {
      StepsSize(cells, base, s - 1);
      CellsSize(cells, |cells|, s);
    }
  }

  const FAN_IN := 8

  ghost predicate FanIn(cells: seq<Cell>) {
    forall c | 0 <= c < |cells| :: |cells[c].ins| <= FAN_IN
  }

  lemma {:induction false} DueIsBounded(cells: seq<Cell>, n: nat, s: int)
    requires n <= |cells| && FanIn(cells)
    ensures DueByStep(cells, n, s) <= FAN_IN * n
  {
    if n > 0 {
      DueIsBounded(cells, n - 1, s);
      assert |cells[n - 1].ins| <= FAN_IN;
    }
  }

  /** Sources come before their cell, as the builder makes them. */
  ghost predicate Backward(cells: seq<Cell>) {
    forall c, j | 0 <= c < |cells| && 0 <= j < |cells[c].ins| :: cells[c].ins[j].src.cell < c
  }

  /** The depth of a greedy schedule is bounded by the writes below a cell. */
  lemma {:induction false} DepthIsBounded(cells: seq<Cell>, c: nat)
    requires Greedy(cells) && Backward(cells) && FanIn(cells) && c < |cells|
    ensures cells[c].complete <= 1 + FAN_IN * c
  {
    if cells[c].ins != [] {
      var i := GreedyIsTight(cells, c, |cells[c].ins| - 1);
      assert |cells[c].ins| <= FAN_IN;
      DepthIsBounded(cells, cells[c].ins[i].src.cell);
    }
  }
}
