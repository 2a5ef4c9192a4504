/** Combinational loops, and when a worklist can get stuck. */
module Cycles {
  import opened Cells
  import opened Schedule

  /** Cell c has a write from cell d. */
  predicate Reads(cells: seq<Cell>, c: nat, d: nat) {
    c < |cells| && exists j | 0 <= j < |cells[c].ins| :: cells[c].ins[j].src.cell == d
  }

  /** A walk against the direction of the signals. */
  ghost predicate IsWalk(cells: seq<Cell>, p: seq<nat>) {
    forall i | 0 <= i < |p| - 1 :: Reads(cells, p[i], p[i + 1])
  }

  ghost predicate IsCycle(cells: seq<Cell>, p: seq<nat>) {
    |p| >= 2 && p[0] == p[|p| - 1] && IsWalk(cells, p)
  }

  ghost predicate HasCycle(cells: seq<Cell>) {
    exists p :: IsCycle(cells, p)
  }

  lemma {:induction false} WalkDescends(greedy: seq<Cell>, cells: seq<Cell>, p: seq<nat>, i: nat)
    requires Greedy(greedy) && SameNetlist(greedy, cells) && IsWalk(cells, p)
    requires 0 < i < |p|
    ensures p[0] < |greedy| && p[i] < |greedy| && greedy[p[i]].complete < greedy[p[0]].complete
  {
    assert Reads(cells, p[i - 1], p[i]);
    var j :| 0 <= j < |cells[p[i - 1]].ins| && cells[p[i - 1]].ins[j].src.cell == p[i];
    SourceIsEarlier(greedy, cells, p[i - 1], j);
    if i > 1 {
      WalkDescends(greedy, cells, p, i - 1);
    }
  }

  /** A netlist that has been scheduled completely has no loop. */
  lemma {:induction false} ScheduledHasNoCycle(greedy: seq<Cell>, cells: seq<Cell>)
    requires Greedy(greedy) && SameNetlist(greedy, cells)
    ensures !HasCycle(cells)
  {
    if p :| IsCycle(cells, p) {
      WalkDescends(greedy, cells, p, |p| - 1);
      assert false;
    }
  }

  ghost predicate ReadsFrom(cells: seq<Cell>, c: nat, s: set<nat>) {
    exists d | d in s :: Reads(cells, c, d)
  }

  /** Cells that wait for each other: each has a source among them. */
  ghost predicate Stuck(cells: seq<Cell>, s: set<nat>) {
    s != {} && forall c {:trigger ReadsFrom(cells, c, s)} | c in s :: ReadsFrom(cells, c, s)
  }

  lemma {:induction false} WalkSnoc(cells: seq<Cell>, p: seq<nat>, d: nat)
    requires IsWalk(cells, p) && p != [] && Reads(cells, p[|p| - 1], d)
    ensures IsWalk(cells, p + [d])
  {
  }

  lemma {:induction false} ReturningWalk(cells: seq<Cell>, q: seq<nat>, i: nat)
    requires IsWalk(cells, q) && i < |q| - 1 && q[i] == q[|q| - 1]
    ensures HasCycle(cells)
  {
    var loop := q[i..];
    forall k | 0 <= k < |loop| - 1 ensures Reads(cells, loop[k], loop[k + 1]) {
      assert Reads(cells, q[i + k], q[i + k + 1]);
    }
    assert IsCycle(cells, loop);
  }

  /** A walk inside a stuck set either returns or can be prolonged; since the set is finite it returns. */
  lemma {:induction false} StuckHasCycle(cells: seq<Cell>, s: set<nat>, p: seq<nat>)
    requires Stuck(cells, s) && IsWalk(cells, p) && p != []
    requires forall i | 0 <= i < |p| :: p[i] in s
    requires forall i, j | 0 <= i < j < |p| :: p[i] != p[j]
    ensures HasCycle(cells)
    decreases |s| - |p|
  {
    assert ReadsFrom(cells, p[|p| - 1], s);
    var d :| d in s && Reads(cells, p[|p| - 1], d);
    WalkSnoc(cells, p, d);
    if i :| 0 <= i < |p| && p[i] == d {
      ReturningWalk(cells, p + [d], i);
    } else {
      DistinctInSet(p + [d], s);
      StuckHasCycle(cells, s, p + [d]);
    }
  }

  lemma {:induction false} StuckIsCyclic(cells: seq<Cell>, s: set<nat>)
    requires Stuck(cells, s)
    ensures HasCycle(cells)
  {
    var c :| c in s;
    StuckHasCycle(cells, s, [c]);
  }

  lemma {:induction false} DistinctInSet(p: seq<nat>, s: set<nat>)
    requires forall i | 0 <= i < |p| :: p[i] in s
    requires forall i, j | 0 <= i < j < |p| :: p[i] != p[j]
    ensures |p| <= |s|
  {
    if p != [] {
      var x := p[|p| - 1];
      DistinctInSet(p[..|p| - 1], s - {x});
    }
  }
}
