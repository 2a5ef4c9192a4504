/** What the lane circuit computes: the theorem `LaneSubtracts`, for every word length
    16 * nsup that the three-level hierarchy supports. */
module Lane {
  import opened Bits
  import opened Borrow
  import opened Graph
  import opened Circuit

  /** The values of some signals. */
  function Values(v: seq<bool>, xs: seq<Sig>): (bs: seq<bool>)
    ensures |bs| == |xs|
  {
    seq(|xs|, i requires 0 <= i < |xs| => Read(v, xs[i]))
  }

  /** The bits held by some cells. */
  function CellBits(v: seq<bool>, cells: seq<nat>): (bs: seq<bool>)
    ensures |bs| == |cells|
  {
    seq(|cells|, i requires 0 <= i < |cells| => Read(v, Sig(cells[i], false)))
  }

  lemma {:induction false} DescendMeans(v: seq<bool>, P: seq<Sig>, hi: nat, lo: nat)
    requires lo <= hi <= |P|
    ensures AllRead(v, Descend(P, hi, lo)) == AllOf(Values(v, P), lo, hi)
    decreases hi - lo
  {
    if lo < hi {
      DescendMeans(v, P, hi - 1, lo);
      AllReadAppend(v, [P[hi - 1]], Descend(P, hi - 1, lo));
      AllReadOne(v, P[hi - 1]);
      AllOfSnoc(Values(v, P), lo, hi);
    }
  }

  lemma {:induction false} AllOfSnoc(p: seq<bool>, lo: nat, hi: nat)
    requires lo < hi <= |p|
    ensures AllOf(p, lo, hi) == (AllOf(p, lo, hi - 1) && p[hi - 1])
  {
  }

  lemma {:induction false} TermMeans(v: seq<bool>, G: seq<Sig>, P: seq<Sig>, k: nat, j: nat)
    requires j < k <= |G| && k <= |P|
    ensures AllRead(v, Term(G, P, k, j)) == (Values(v, G)[j] && AllOf(Values(v, P), j + 1, k))
  {
    DescendMeans(v, P, k, j + 1);
    AllReadAppend(v, Descend(P, k, j + 1), [G[j]]);
    AllReadOne(v, G[j]);
  }

  lemma {:induction false} LastTermMeans(v: seq<bool>, P: seq<Sig>, borIn: Sig, k: nat)
    requires k <= |P|
    ensures AllRead(v, LastTerm(P, borIn, k)) == (Read(v, borIn) && AllOf(Values(v, P), 0, k))
  {
    DescendMeans(v, P, k, 0);
    AllReadAppend(v, Descend(P, k, 0), [borIn]);
    AllReadOne(v, borIn);
  }

  /** The k terms of a sum of products: some term reads 1 exactly when some position
      generates a borrow that is propagated to the top. */
  lemma {:induction false} TermsMean(g: Graph, v: seq<bool>, ins: seq<Sig>, G: seq<Sig>, P: seq<Sig>, k: nat)
    requires k <= |G| && k <= |P| && k <= |ins| && Closed(g) && Consistent(v, g)
    requires forall t | 0 <= t < k :: ins[t].cell < |v|
    requires forall t | 0 <= t < k :: IsAnd(g, Not(ins[t]), Term(G, P, k, k - 1 - t))
    ensures AllRead(v, ins[..k]) == !Lookahead(Values(v, G), Values(v, P), false, k)
  {
    var gs, ps := Values(v, G), Values(v, P);
    forall t | 0 <= t < k ensures Read(v, ins[t]) == !(gs[k - 1 - t] && AllOf(ps, k - 1 - t + 1, k)) {
      AndMeans(g, v, Not(ins[t]), Term(G, P, k, k - 1 - t));
      TermMeans(v, G, P, k, k - 1 - t);
    }
    if AllRead(v, ins[..k]) {
      forall j | 0 <= j < k ensures !(gs[j] && AllOf(ps, j + 1, k)) {
        var t := k - 1 - j;
        assert Read(v, ins[..k][t]);
      }
    } else {
      var t :| 0 <= t < k && !Read(v, ins[..k][t]);
      var j := k - 1 - t;
      assert gs[j] && AllOf(ps, j + 1, k);
    }
  }

  /** claBorrow computes the rippled borrow, at any number of positions. */
  lemma {:induction false} BorrowMeans(g: Graph, v: seq<bool>, s: Sig, G: seq<Sig>, P: seq<Sig>, borIn: Sig, k: nat)
    requires k <= |G| && k <= |P|
    requires Closed(g) && Consistent(v, g) && IsBorrow(g, s, G, P, borIn, k)
    ensures Read(v, s) == Chain(Values(v, G), Values(v, P), Read(v, borIn), k)
  {
    if k > 0 {
      var gs, ps, ins, bin := Values(v, G), Values(v, P), g[s.cell].ins, Read(v, borIn);
      TermsMean(g, v, ins, G, P, k);
      AndMeans(g, v, Not(ins[k]), LastTerm(P, borIn, k));
      LastTermMeans(v, P, borIn, k);
      assert ins == ins[..k] + [ins[k]];
      AllReadAppend(v, ins[..k], [ins[k]]);
      AllReadOne(v, ins[k]);
      assert Read(v, s) == !AllRead(v, ins);
      LookaheadIsChain(gs, ps, bin, k);
      LookaheadIsChain(gs, ps, false, k);
      ChainIsOnePosition(gs, ps, bin, k);
    }
  }

  /** claGroup computes the group generate and propagate. */
  lemma {:induction false} GroupMeans(g: Graph, v: seq<bool>, gg: Sig, gp: Sig, G: seq<Sig>, P: seq<Sig>)
    requires |G| == |P| == 4
    requires Closed(g) && Consistent(v, g) && IsGroup(g, gg, gp, G, P)
    ensures Read(v, gg) == Chain(Values(v, G), Values(v, P), false, 4)
    ensures Read(v, gp) == AllOf(Values(v, P), 0, 4)
  {
    var ins := g[gg.cell].ins;
    TermsMean(g, v, ins, G, P, 4);
    assert ins[..4] == ins;
    LookaheadIsChain(Values(v, G), Values(v, P), false, 4);
    AndMeans(g, v, gp, Descend(P, 4, 0));
    DescendMeans(v, P, 4, 0);
  }

  lemma {:induction false} ValuesOfQuad(v: seq<bool>, xs: seq<Sig>, k: nat)
    requires 4 * k + 4 <= |xs|
    ensures Values(v, FourOf(xs, k)) == Values(v, xs)[4 * k..4 * k + 4]
  {
  }

  /** A whole level of groups. */
  lemma {:induction false} GroupLevelMeans(g: Graph, v: seq<bool>, G: seq<Sig>, P: seq<Sig>, gg: seq<Sig>, gp: seq<Sig>)
    requires Closed(g) && Consistent(v, g) && GroupLevel(g, G, P, gg, gp) && |G| == 4 * |gg|
    ensures Groups(Values(v, G), Values(v, P), Values(v, gg), Values(v, gp))
  {
    forall k | 0 <= k < |gg|
      ensures Values(v, gg)[k] == Chain(Values(v, G)[4 * k..4 * k + 4], Values(v, P)[4 * k..4 * k + 4], false, 4)
      ensures Values(v, gp)[k] == AllOf(Values(v, P)[4 * k..4 * k + 4], 0, 4)
    {
      GroupMeans(g, v, gg[k], gp[k], FourOf(G, k), FourOf(P, k));
      ValuesOfQuad(v, G, k);
      ValuesOfQuad(v, P, k);
    }
  }

  /** One half adder. */
  lemma {:induction false} HalfAdderMeans(g: Graph, v: seq<bool>, x: Sig, gen: Sig, A: Sig, B: Sig)
    requires Closed(g) && Consistent(v, g) && IsXor(g, x, A, B) && IsAnd(g, gen, [A, Not(B)])
    ensures Read(v, x) == (Read(v, A) != Read(v, B))
    ensures Read(v, gen) == (Read(v, A) && !Read(v, B))
  {
    XorMeans(g, v, x, A, B);
    AllReadTwo(v, A, Not(B));
  }

  lemma {:induction false} HalfAddersMean(g: Graph, v: seq<bool>, ain: seq<nat>, bin: seq<nat>, x: seq<Sig>,
      gen: seq<Sig>, p: seq<Sig>)
    requires Closed(g) && Consistent(v, g) && HalfAdders(g, ain, bin, x, gen, p) && |x| == |ain| == |bin|
    ensures Values(v, gen) == Generate(CellBits(v, ain), CellBits(v, bin))
    ensures Values(v, p) == Propagate(CellBits(v, ain), CellBits(v, bin))
    ensures forall i | 0 <= i < |x| :: Read(v, x[i]) == (CellBits(v, ain)[i] != CellBits(v, bin)[i])
  {
    var a, b := CellBits(v, ain), CellBits(v, bin);
    forall i | 0 <= i < |x|
      ensures Read(v, gen[i]) == (a[i] && !b[i]) && Read(v, x[i]) == (a[i] != b[i])
      ensures Read(v, p[i]) == (a[i] == b[i])
    {
      HalfAdderMeans(g, v, x[i], gen[i], Sig(ain[i], false), Sig(bin[i], false));
    }
  }

  lemma {:induction false} ZeroMeans(g: Graph, v: seq<bool>, zero: Sig, cell: nat)
    requires Closed(g) && Consistent(v, g) && IsAnd(g, zero, [Sig(cell, false), Sig(cell, true)])
    ensures !Read(v, zero)
  {
    AllReadTwo(v, Sig(cell, false), Sig(cell, true));
  }

  /** A borrow computed inside group k, from the borrow entering that group. */
  lemma {:induction false} BorrowInGroup(g: Graph, v: seq<bool>, s: Sig, G: seq<Sig>, P: seq<Sig>, borIn: Sig,
      bin: bool, k: nat, t: nat)
    requires |G| == |P| && 4 * k + 4 <= |G| && t < 4
    requires Closed(g) && Consistent(v, g) && IsBorrow(g, s, FourOf(G, k), FourOf(P, k), borIn, t)
    requires Read(v, borIn) == Chain(Values(v, G), Values(v, P), bin, 4 * k)
    ensures Read(v, s) == Chain(Values(v, G), Values(v, P), bin, 4 * k + t)
  {
    BorrowMeans(g, v, s, FourOf(G, k), FourOf(P, k), borIn, t);
    ValuesOfQuad(v, G, k);
    ValuesOfQuad(v, P, k);
    ChainInsideGroup(Values(v, G), Values(v, P), bin, 4 * k, t);
  }

  /** The top level: the borrow into every group of the level below. */
  lemma {:induction false} TopBorrowsMean(g: Graph, v: seq<bool>, G: seq<Sig>, P: seq<Sig>, gg: seq<Sig>,
      gp: seq<Sig>, zero: Sig, bor: seq<Sig>)
    requires Closed(g) && Consistent(v, g) && !Read(v, zero)
    requires GroupLevel(g, G, P, gg, gp) && |G| == 4 * |gg| && TopBorrows(g, gg, gp, zero, bor)
    ensures forall s | 0 <= s < |bor| :: Read(v, bor[s]) == Chain(Values(v, G), Values(v, P), false, 4 * s)
  {
    GroupLevelMeans(g, v, G, P, gg, gp);
    forall s | 0 <= s < |bor| ensures Read(v, bor[s]) == Chain(Values(v, G), Values(v, P), false, 4 * s) {
      BorrowMeans(g, v, bor[s], gg, gp, zero, s);
      ChainOfGroups(Values(v, G), Values(v, P), Values(v, gg), Values(v, gp), false, s);
    }
  }

  /** Borrows into the positions of a level, from the borrows one level up. */
  lemma {:induction false} BorrowLevelMeans(g: Graph, v: seq<bool>, G: seq<Sig>, P: seq<Sig>, up: seq<Sig>,
      bor: seq<Sig>)
    requires Closed(g) && Consistent(v, g) && BorrowLevel(g, G, P, up, bor)
    requires forall s | 0 <= s < |up| :: Read(v, up[s]) == Chain(Values(v, G), Values(v, P), false, 4 * s)
    ensures forall k | 0 <= k < |bor| :: Read(v, bor[k]) == Chain(Values(v, G), Values(v, P), false, k)
  {
    forall k | 0 <= k < |bor| ensures Read(v, bor[k]) == Chain(Values(v, G), Values(v, P), false, k) {
      BorrowInGroup(g, v, bor[k], G, P, up[k / 4], false, k / 4, k % 4);
    }
  }

  /** The middle level: the borrow into every group of four bits. */
  lemma {:induction false} GroupBorrowsMean(g: Graph, v: seq<bool>, ain: seq<nat>, bin: seq<nat>, sum: seq<Sig>,
      w: SumWires, nsup: nat)
    requires SumLogic(g, ain, bin, sum, w, nsup) && Closed(g) && Consistent(v, g)
    ensures forall k | 0 <= k < 4 * nsup ::
              Read(v, w.bgrp[k]) == Chain(Values(v, w.g), Values(v, w.p), false, 4 * k)
  {
    ZeroMeans(g, v, w.zero, bin[0]);
    TopBorrowsMean(g, v, w.gg1, w.gp1, w.gg2, w.gp2, w.zero, w.bsup);
    BorrowLevelMeans(g, v, w.gg1, w.gp1, w.bsup, w.bgrp);
    GroupLevelMeans(g, v, w.g, w.p, w.gg1, w.gp1);
    forall k | 0 <= k < 4 * nsup
      ensures Read(v, w.bgrp[k]) == Chain(Values(v, w.g), Values(v, w.p), false, 4 * k)
    {
      ChainOfGroups(Values(v, w.g), Values(v, w.p), Values(v, w.gg1), Values(v, w.gp1), false, k);
    }
  }

  lemma {:induction false} SumsMean(g: Graph, v: seq<bool>, a: seq<bool>, b: seq<bool>, x: seq<Sig>, bor: seq<Sig>,
      sum: seq<Sig>)
    requires Closed(g) && Consistent(v, g) && Sums(g, x, bor, sum) && |a| == |b| == |sum|
    requires forall i | 0 <= i < |sum| :: Read(v, x[i]) == (a[i] != b[i]) && Read(v, bor[i]) == Ripple(a, b, i)
    ensures Values(v, sum) == Difference(a, b)
  {
    forall i | 0 <= i < |sum| ensures Read(v, sum[i]) == DifferenceBit(a, b, i) {
      if i > 0 {
        XorMeans(g, v, sum[i], x[i], bor[i]);
      }
    }
  }

  /** No bit of d is set. */
  predicate NoBits(d: seq<bool>) {
    forall i | 0 <= i < |d| :: !d[i]
  }

  /** One byte of the zero test. */
  lemma {:induction false} InvertedMeans(v: seq<bool>, xs: seq<Sig>)
    requires forall i | 0 <= i < |xs| :: xs[i].cell < |v|
    ensures AllRead(v, Inverted(xs)) == NoBits(Values(v, xs))
  {
    forall i | 0 <= i < |xs| ensures Read(v, Inverted(xs)[i]) == !Values(v, xs)[i] {
    }
  }

  /** The zero test over all bytes. */
  lemma {:induction false} AllZeroMeans(v: seq<bool>, d: seq<bool>, accs: seq<Sig>)
    requires |d| == 8 * |accs|
    requires forall c | 0 <= c < |accs| :: Read(v, accs[c]) == NoBits(d[8 * c..8 * c + 8])
    ensures AllRead(v, accs) == NoBits(d)
  {
    if AllRead(v, accs) {
      forall i | 0 <= i < |d| ensures !d[i] {
        assert Read(v, accs[i / 8]);
        assert !d[8 * (i / 8)..8 * (i / 8) + 8][i % 8];
      }
    }
  }

  lemma {:induction false} JumpMeans(g: Graph, v: seq<bool>, sum: seq<Sig>, isJmp: Sig, w: JumpWires)
    requires JumpLogic(g, sum, isJmp, w) && Closed(g) && Consistent(v, g)
    ensures Read(v, isJmp) == (NoBits(Values(v, sum)) || Values(v, sum)[|sum| - 1])
  {
    var d := Values(v, sum);
    forall c | 0 <= c < |w.accs| ensures Read(v, w.accs[c]) == NoBits(d[8 * c..8 * c + 8]) {
      var xs := sum[8 * c..8 * c + 8];
      assert IsAnd(g, w.accs[c], Inverted(xs));
      forall i | 0 <= i < 8 ensures xs[i].cell < |v| {
        assert g[w.accs[c].cell].ins[i] == Not(xs[i]);
      }
      InvertedMeans(v, xs);
      assert Values(v, xs) == d[8 * c..8 * c + 8];
    }
    AllZeroMeans(v, d, w.accs);
    var pair := [w.allZero, sum[|sum| - 1]];
    OrMeans(g, v, w.negOrZero, pair);
    assert Read(v, w.negOrZero) == (Read(v, pair[0]) || Read(v, pair[1]));
    AllReadOne(v, w.negOrZero);
  }

  /** What a lane promises in every state of the circuit: the sum signals hold b - a, and
      the jump signal says whether that difference is zero or has its top bit set. */
  ghost predicate Subtracts(v: seq<bool>, q: Ports) {
    SumsDiffer(v, q) && JumpsOnSum(v, q)
  }

  ghost predicate SumsDiffer(v: seq<bool>, q: Ports) {
    |q.sum| == |q.ain| == |q.bin| &&
    Values(v, q.sum) == Difference(CellBits(v, q.ain), CellBits(v, q.bin))
  }

  ghost predicate JumpsOnSum(v: seq<bool>, q: Ports) {
    |q.sum| > 0 &&
    Read(v, q.isJmp) == (NoBits(Values(v, q.sum)) || Values(v, q.sum)[|q.sum| - 1])
  }

  /** Every borrow signal carries the rippled borrow of its position. */
  lemma {:induction false} BorrowsMean(g: Graph, v: seq<bool>, ain: seq<nat>, bin: seq<nat>, sum: seq<Sig>,
      w: SumWires, nsup: nat)
    requires SumLogic(g, ain, bin, sum, w, nsup) && Closed(g) && Consistent(v, g)
    ensures forall i | 0 <= i < 16 * nsup :: Read(v, w.bor[i]) == Ripple(CellBits(v, ain), CellBits(v, bin), i)
  {
    GroupBorrowsMean(g, v, ain, bin, sum, w, nsup);
    BorrowLevelMeans(g, v, w.g, w.p, w.bgrp, w.bor);
    HalfAddersMean(g, v, ain, bin, w.x, w.g, w.p);
  }

  lemma {:induction false} SumLogicMeans(g: Graph, v: seq<bool>, ain: seq<nat>, bin: seq<nat>, sum: seq<Sig>,
      w: SumWires, nsup: nat)
    requires SumLogic(g, ain, bin, sum, w, nsup) && Closed(g) && Consistent(v, g)
    ensures Values(v, sum) == Difference(CellBits(v, ain), CellBits(v, bin))
  {
    HalfAddersMean(g, v, ain, bin, w.x, w.g, w.p);
    BorrowsMean(g, v, ain, bin, sum, w, nsup);
    SumsMean(g, v, CellBits(v, ain), CellBits(v, bin), w.x, w.bor, sum);
  }

  lemma {:induction false} LaneSubtracts(g: Graph, v: seq<bool>, q: Ports, w: SumWires, j: JumpWires, nsup: nat)
    requires LaneShape(g, q, w, j, nsup) && Closed(g) && Consistent(v, g)
    ensures Subtracts(v, q)
  {
    SumLogicMeans(g, v, q.ain, q.bin, q.sum, w, nsup);
    JumpMeans(g, v, q.sum, q.isJmp, j);
  }

  /** In numbers: the lane computes b - a modulo 2^n, and jumps exactly when that result,
      read as a two's complement word, is at most zero. */
  lemma {:induction false} SubtractsMeans(v: seq<bool>, q: Ports)
    requires Subtracts(v, q)
    ensures var n := |q.sum|;
            var a, b, d := ToNat(CellBits(v, q.ain)), ToNat(CellBits(v, q.bin)), ToNat(Values(v, q.sum));
            d == (b - a) % Pow2(n) && Read(v, q.isJmp) == (Signed(d, n) <= 0)
  {
    var a, b := CellBits(v, q.ain), CellBits(v, q.bin);
    DifferenceIsSubtraction(a, b);
    SignedAtMostZero(Difference(a, b));
  }

  /** A w-bit word read as two's complement. */
  function Signed(x: nat, w: nat): (r: int)
    requires w > 0
  {
    if x < Pow2(w - 1) then x else x - Pow2(w)
  }

  lemma {:induction false} SignedAtMostZero(d: seq<bool>)
    requires d != []
    ensures (Signed(ToNat(d), |d|) <= 0) == (NoBits(d) || d[|d| - 1])
  {
    var low, top := d[..|d| - 1], d[|d| - 1];
    assert d == low + [top];
    ToNatSnoc(low, top);
    ZeroMeansNoBits(d);
  }

  lemma {:induction false} ZeroMeansNoBits(d: seq<bool>)
    ensures ToNat(d) == 0 <==> NoBits(d)
  {
    if d != [] {
      ZeroMeansNoBits(d[1..]);
      if NoBits(d[1..]) && !d[0] {
        forall i | 0 <= i < |d| ensures !d[i] {
          assert i > 0 ==> !d[1..][i - 1];
        }
      }
      if NoBits(d) {
        assert !d[0];
        forall i | 0 <= i < |d[1..]| ensures !d[1..][i] {
          assert !d[i + 1];
        }
      }
    }
  }
}
