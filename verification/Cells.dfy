/** The cells of a netlist and the logic they denote.

    A cell is one flash byte.  It accumulates the AND of what is written to it, so a gate is
    a cell with one write per source. */
module Cells {
  import opened Graph

  /** One write into a cell; `step` is -1 until the write is scheduled. */
  datatype Write = Write(src: Sig, step: int)

  /** `complete` is the step after which the cell is settled: 1 for an input, -1 while unknown. */
  datatype Cell = Cell(addr: nat, ins: seq<Write>, complete: int)

  function Sources(ins: seq<Write>): (xs: seq<Sig>)
    ensures |xs| == |ins|
    ensures forall j | 0 <= j < |ins| :: xs[j] == ins[j].src
  {
    seq(|ins|, j requires 0 <= j < |ins| => ins[j].src)
  }

  function NodeOf(c: Cell): Node {
    if c.ins == [] && c.complete == 1 then Input else Gate(Sources(c.ins))
  }

  /** The logic of a list of cells, schedule and addresses left out. */
  function GraphOf(cells: seq<Cell>): (g: Graph)
    ensures |g| == |cells|
    ensures forall i | 0 <= i < |cells| :: g[i] == NodeOf(cells[i])
  {
    seq(|cells|, i requires 0 <= i < |cells| => NodeOf(cells[i]))
  }

  /** Cell i as the builder leaves it: no step assigned, sources all older than the cell. */
  ghost predicate BuiltCell(c: Cell, i: nat, base: nat) {
    c.addr == base + i &&
    (if c.ins == [] then c.complete == 1 else c.complete == -1) &&
    forall j | 0 <= j < |c.ins| :: c.ins[j].step == -1 && c.ins[j].src.cell < i
  }

  ghost predicate BuiltCells(cells: seq<Cell>, base: nat) {
    forall i | 0 <= i < |cells| :: BuiltCell(cells[i], i, base)
  }

  /** What the builder makes is ordered, hence without combinational loops. */
  lemma {:induction false} BuiltIsOrdered(cells: seq<Cell>, base: nat)
    requires BuiltCells(cells, base)
    ensures Ordered(GraphOf(cells)) && Closed(GraphOf(cells))
  {
  }

  /** From node `start` on there are only gates, of at most m sources each. */
  ghost predicate NewGates(g: Graph, start: nat, m: nat) {
    forall c | start <= c < |g| :: g[c].Gate? && |g[c].ins| <= m
  }

  /** The writes `wire` makes for the sources xs, in order. */
  function Unscheduled(xs: seq<Sig>): (ws: seq<Write>)
    ensures |ws| == |xs|
    ensures Sources(ws) == xs
  {
    var ws := seq(|xs|, j requires 0 <= j < |xs| => Write(xs[j], -1));
    assert Sources(ws) == xs;
    ws
  }

  lemma {:induction false} GraphSnoc(cells: seq<Cell>, c: Cell)
    ensures GraphOf(cells + [c]) == GraphOf(cells) + [NodeOf(c)]
  {
  }
}
