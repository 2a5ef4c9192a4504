/** The logic a netlist denotes: a list of nodes, each an input or the AND of some
    signals, where a signal is a node read straight or inverted. */
module Graph {

  datatype Sig = Sig(cell: nat, inv: bool)

  datatype Node = Input | Gate(ins: seq<Sig>)

  type Graph = seq<Node>

  function Not(s: Sig): Sig {
    Sig(s.cell, !s.inv)
  }

  function Inverted(xs: seq<Sig>): (ys: seq<Sig>)
    ensures |ys| == |xs|
  {
    seq(|xs|, i requires 0 <= i < |xs| => Not(xs[i]))
  }

  /** What s reads when node c holds v[c]. */
  predicate Read(v: seq<bool>, s: Sig) {
    s.cell < |v| && v[s.cell] != s.inv
  }

  predicate AllRead(v: seq<bool>, xs: seq<Sig>) {
    forall j | 0 <= j < |xs| :: Read(v, xs[j])
  }

  /** v is a state of the circuit: every gate holds the AND of what it reads.  (v may be
      longer than g: a page holds more cells than a netlist uses.) */
  ghost predicate Consistent(v: seq<bool>, g: Graph) {
    |g| <= |v| &&
    forall c {:trigger g[c]} | 0 <= c < |g| && g[c].Gate? :: v[c] == AllRead(v, g[c].ins)
  }

  /** Every source is a node of the graph. */
  ghost predicate Closed(g: Graph) {
    forall c {:trigger g[c]} | 0 <= c < |g| && g[c].Gate? :: forall j | 0 <= j < |g[c].ins| :: g[c].ins[j].cell < |g|
  }

  /** Every source comes before the gate that reads it. */
  ghost predicate Ordered(g: Graph) {
    forall c {:trigger g[c]} | 0 <= c < |g| && g[c].Gate? :: forall j | 0 <= j < |g[c].ins| :: g[c].ins[j].cell < c
  }

  /** The inputs decide everything: an ordered circuit has one state per input. */
  lemma {:induction false} StateIsUnique(g: Graph, v: seq<bool>, w: seq<bool>, n: nat)
    requires Ordered(g) && Consistent(v, g) && Consistent(w, g) && n <= |g|
    requires forall c | 0 <= c < |g| && g[c].Input? :: v[c] == w[c]
    ensures v[..n] == w[..n]
  {
    if n > 0 {
      StateIsUnique(g, v, w, n - 1);
      assert v[n - 1] == w[n - 1] by {
        forall k | 0 <= k < n - 1 ensures v[k] == w[k] {
          assert v[..n - 1][k] == w[..n - 1][k];
        }
        if g[n - 1].Gate? {
          var ins := g[n - 1].ins;
          forall j | 0 <= j < |ins| ensures Read(v, ins[j]) == Read(w, ins[j]) {
          }
        }
      }
    }
  }

  // ----- the shapes the netlist builder produces

  /** s is the AND of xs. */
  predicate IsAnd(g: Graph, s: Sig, xs: seq<Sig>) {
    if |xs| == 1 then s == xs[0] else !s.inv && s.cell < |g| && g[s.cell] == Gate(xs)
  }

  /** s is the OR of xs: an inverted AND of the inverted signals. */
  predicate IsOr(g: Graph, s: Sig, xs: seq<Sig>) {
    s.inv && s.cell < |g| && g[s.cell] == Gate(Inverted(xs))
  }

  /** s is the exclusive or of a and b, made of three gates in a row. */
  predicate IsXor(g: Graph, s: Sig, a: Sig, b: Sig) {
    !s.inv && 2 <= s.cell < |g| &&
    g[s.cell - 2] == Gate([a, b]) &&
    g[s.cell - 1] == Gate([Not(a), Not(b)]) &&
    g[s.cell] == Gate([Sig(s.cell - 2, true), Sig(s.cell - 1, true)])
  }

  lemma {:induction false} AllReadAppend(v: seq<bool>, xs: seq<Sig>, ys: seq<Sig>)
    ensures AllRead(v, xs + ys) == (AllRead(v, xs) && AllRead(v, ys))
  {
    var all := xs + ys;
    if AllRead(v, all) {
      forall j | 0 <= j < |xs| ensures Read(v, xs[j]) {
        assert Read(v, all[j]);
      }
      forall j | 0 <= j < |ys| ensures Read(v, ys[j]) {
        assert Read(v, all[|xs| + j]);
      }
    }
  }

  lemma {:induction false} AllReadOne(v: seq<bool>, x: Sig)
    ensures AllRead(v, [x]) == Read(v, x)
  {
    assert [x][0] == x;
  }

  lemma {:induction false} AllReadTwo(v: seq<bool>, x: Sig, y: Sig)
    ensures AllRead(v, [x, y]) == (Read(v, x) && Read(v, y))
  {
    assert [x, y][0] == x && [x, y][1] == y;
  }

  lemma {:induction false} AndMeans(g: Graph, v: seq<bool>, s: Sig, xs: seq<Sig>)
    requires Consistent(v, g) && IsAnd(g, s, xs)
    ensures Read(v, s) == AllRead(v, xs)
  {
  }

  lemma {:induction false} OrMeans(g: Graph, v: seq<bool>, s: Sig, xs: seq<Sig>)
    requires Closed(g) && Consistent(v, g) && IsOr(g, s, xs)
    ensures Read(v, s) == exists j | 0 <= j < |xs| :: Read(v, xs[j])
  {
    var ys := Inverted(xs);
    assert g[s.cell].ins == ys;
    forall j | 0 <= j < |xs| ensures Read(v, ys[j]) == !Read(v, xs[j]) {
      assert ys[j].cell < |g|;
    }
    if j :| 0 <= j < |xs| && Read(v, xs[j]) {
      assert !Read(v, ys[j]);
    }
  }

  lemma {:induction false} XorMeans(g: Graph, v: seq<bool>, s: Sig, a: Sig, b: Sig)
    requires Closed(g) && Consistent(v, g) && IsXor(g, s, a, b)
    ensures Read(v, s) == (Read(v, a) != Read(v, b))
  {
    assert g[s.cell - 2].ins[0] == a && g[s.cell - 2].ins[1] == b;
    AllReadTwo(v, a, b);
    AllReadTwo(v, Not(a), Not(b));
    AllReadTwo(v, Sig(s.cell - 2, true), Sig(s.cell - 1, true));
  }
}
