/** The subtraction circuit of one lane, stated gate by gate.

    `LaneShape` says which gates a lane of 16 * nsup bits consists of and what each of
    them reads.  It says nothing about the order in which the cells were allocated. */
module Circuit {
  import opened Graph

  /** What a lane exposes: the input cells, the sum signals and the jump signal. */
  datatype Ports = Ports(ain: seq<nat>, bin: seq<nat>, sum: seq<Sig>, isJmp: Sig)

  /** The internal signals of the subtractor, level by level. */
  datatype SumWires = SumWires(
    zero: Sig, g: seq<Sig>, p: seq<Sig>, x: seq<Sig>,
    gg1: seq<Sig>, gp1: seq<Sig>, gg2: seq<Sig>, gp2: seq<Sig>,
    bsup: seq<Sig>, bgrp: seq<Sig>, bor: seq<Sig>)

  /** The internal signals of the jump test. */
  datatype JumpWires = JumpWires(accs: seq<Sig>, allZero: Sig, negOrZero: Sig)

  /** xs[hi - 1], ..., xs[lo]. */
  function Descend(xs: seq<Sig>, hi: nat, lo: nat): (ys: seq<Sig>)
    requires lo <= hi <= |xs|
    ensures |ys| == hi - lo
    ensures forall i | 0 <= i < |ys| :: ys[i] == xs[hi - 1 - i]
    decreases hi - lo
  {
    if lo == hi then [] else [xs[hi - 1]] + Descend(xs, hi - 1, lo)
  }

  /** The product term of position j in the borrow out of k positions. */
  function Term(G: seq<Sig>, P: seq<Sig>, k: nat, j: nat): seq<Sig>
    requires j < k <= |G| && k <= |P|
  {
    Descend(P, k, j + 1) + [G[j]]
  }

  /** The product term of the incoming borrow. */
  function LastTerm(P: seq<Sig>, borIn: Sig, k: nat): seq<Sig>
    requires k <= |P|
  {
    Descend(P, k, 0) + [borIn]
  }

  /** s is the borrow out of the first k positions, in sum-of-products form. */
  predicate IsBorrow(g: Graph, s: Sig, G: seq<Sig>, P: seq<Sig>, borIn: Sig, k: nat)
    requires k <= |G| && k <= |P|
  {
    if k == 0 then
      s == borIn
    else
      s.inv && s.cell < |g| && g[s.cell].Gate? &&
      var ins := g[s.cell].ins;
      |ins| == k + 1 &&
      (forall t | 0 <= t < k :: IsAnd(g, Not(ins[t]), Term(G, P, k, k - 1 - t))) &&
      IsAnd(g, Not(ins[k]), LastTerm(P, borIn, k))
  }

  /** gg and gp are the generate and propagate signals of a group of four. */
  predicate IsGroup(g: Graph, gg: Sig, gp: Sig, G: seq<Sig>, P: seq<Sig>)
    requires |G| == |P| == 4
  {
    gg.inv && gg.cell < |g| && g[gg.cell].Gate? &&
    var ins := g[gg.cell].ins;
    |ins| == 4 &&
    (forall t | 0 <= t < 4 :: IsAnd(g, Not(ins[t]), Term(G, P, 4, 3 - t))) &&
    IsAnd(g, gp, Descend(P, 4, 0))
  }

  function FourOf(xs: seq<Sig>, k: nat): (ys: seq<Sig>)
    requires 4 * k + 4 <= |xs|
    ensures |ys| == 4
  {
    xs[4 * k..4 * k + 4]
  }

  /** Bit position i: x is the half sum, gen generates a borrow, p propagates one. */
  ghost predicate HalfAdders(g: Graph, ain: seq<nat>, bin: seq<nat>, x: seq<Sig>, gen: seq<Sig>, p: seq<Sig>) {
    |x| == |gen| == |p| && |x| <= |ain| && |x| <= |bin| &&
    forall i | 0 <= i < |x| ::
      IsXor(g, x[i], Sig(ain[i], false), Sig(bin[i], false)) &&
      IsAnd(g, gen[i], [Sig(ain[i], false), Sig(bin[i], true)]) &&
      p[i] == Not(x[i])
  }

  /** The group signals of one level, from the generate and propagate signals below. */
  ghost predicate GroupLevel(g: Graph, G: seq<Sig>, P: seq<Sig>, gg: seq<Sig>, gp: seq<Sig>) {
    |gg| == |gp| && |G| == |P| && 4 * |gg| <= |G| &&
    forall k | 0 <= k < |gg| :: IsGroup(g, gg[k], gp[k], FourOf(G, k), FourOf(P, k))
  }

  /** The borrows at the top level: each is one sum of products over everything below it. */
  ghost predicate TopBorrows(g: Graph, G: seq<Sig>, P: seq<Sig>, borIn: Sig, bor: seq<Sig>) {
    |bor| <= |G| && |bor| <= |P| &&
    forall s | 0 <= s < |bor| :: IsBorrow(g, bor[s], G, P, borIn, s)
  }

  /** The borrows of one level, each from the borrow entering its group of four. */
  ghost predicate BorrowLevel(g: Graph, G: seq<Sig>, P: seq<Sig>, up: seq<Sig>, bor: seq<Sig>) {
    |G| == |P| == 4 * |up| && |bor| <= |G| &&
    forall k | 0 <= k < |bor| :: IsBorrow(g, bor[k], FourOf(G, k / 4), FourOf(P, k / 4), up[k / 4], k % 4)
  }

  ghost predicate Sums(g: Graph, x: seq<Sig>, bor: seq<Sig>, sum: seq<Sig>) {
    0 < |sum| <= |x| && |sum| <= |bor| && sum[0] == x[0] &&
    forall i | 1 <= i < |sum| :: IsXor(g, sum[i], x[i], bor[i])
  }

  /** One AND cell for every eight sum bits, true when all eight are 0. */
  ghost predicate ZeroBytes(g: Graph, sum: seq<Sig>, accs: seq<Sig>) {
    8 * |accs| <= |sum| &&
    forall c | 0 <= c < |accs| :: IsAnd(g, accs[c], Inverted(sum[8 * c..8 * c + 8]))
  }

  /** The first half of the subtractor: half adders and the two levels of groups. */
  ghost predicate GroupLogic(g: Graph, ain: seq<nat>, bin: seq<nat>, w: SumWires, nsup: nat) {
    |ain| == |bin| == |w.x| == 16 * nsup && |w.gg1| == 4 * nsup && |w.gg2| == nsup &&
    HalfAdders(g, ain, bin, w.x, w.g, w.p) &&
    GroupLevel(g, w.g, w.p, w.gg1, w.gp1) &&
    GroupLevel(g, w.gg1, w.gp1, w.gg2, w.gp2)
  }

  /** The second half: the borrows, from the top level down, and the sums. */
  ghost predicate BorrowLogic(g: Graph, sum: seq<Sig>, w: SumWires) {
    |w.bor| == |w.x| == |sum| &&
    TopBorrows(g, w.gg2, w.gp2, w.zero, w.bsup) &&
    BorrowLevel(g, w.gg1, w.gp1, w.bsup, w.bgrp) &&
    BorrowLevel(g, w.g, w.p, w.bgrp, w.bor) &&
    Sums(g, w.x, w.bor, sum)
  }

  /** From n bits of a and b to n bits of b - a, n = 16 * nsup. */
  ghost predicate SumLogic(g: Graph, ain: seq<nat>, bin: seq<nat>, sum: seq<Sig>, w: SumWires, nsup: nat) {
    1 <= nsup <= 4 && |ain| == |bin| == |sum| == 16 * nsup &&
    |w.gg1| == |w.bgrp| == 4 * nsup && |w.gg2| == |w.bsup| == nsup &&
    IsAnd(g, w.zero, [Sig(bin[0], false), Sig(bin[0], true)]) &&
    GroupLogic(g, ain, bin, w, nsup) && BorrowLogic(g, sum, w)
  }

  /** From the sum to the jump signal: no sum bit set, or the top one set. */
  ghost predicate JumpLogic(g: Graph, sum: seq<Sig>, isJmp: Sig, w: JumpWires) {
    |sum| > 0 && |sum| == 8 * |w.accs| &&
    ZeroBytes(g, sum, w.accs) &&
    IsAnd(g, w.allZero, w.accs) &&
    IsOr(g, w.negOrZero, [w.allZero, sum[|sum| - 1]]) &&
    !isJmp.inv && isJmp.cell < |g| && g[isJmp.cell] == Gate([w.negOrZero])
  }

  /** The lane circuit of ROM.cpp, for a word of 16 * nsup bits. */
  ghost predicate LaneShape(g: Graph, q: Ports, w: SumWires, j: JumpWires, nsup: nat) {
    SumLogic(g, q.ain, q.bin, q.sum, w, nsup) && JumpLogic(g, q.sum, q.isJmp, j)
  }

  // ----- a shape survives when more cells are appended

  lemma {:induction false} ShapesGrow(g: Graph, g': Graph)
    requires g <= g'
    ensures forall s, xs | IsAnd(g, s, xs) :: IsAnd(g', s, xs)
    ensures forall s, xs | IsOr(g, s, xs) :: IsOr(g', s, xs)
    ensures forall s, a, b | IsXor(g, s, a, b) :: IsXor(g', s, a, b)
  {
  }

  lemma {:induction false} BorrowGrows(g: Graph, g': Graph, s: Sig, G: seq<Sig>, P: seq<Sig>, borIn: Sig, k: nat)
    requires g <= g' && k <= |G| && k <= |P| && IsBorrow(g, s, G, P, borIn, k)
    ensures IsBorrow(g', s, G, P, borIn, k)
  {
  }

  lemma {:induction false} HalfAddersGrow(g: Graph, g': Graph, ain: seq<nat>, bin: seq<nat>, x: seq<Sig>,
      gen: seq<Sig>, p: seq<Sig>)
    requires g <= g' && HalfAdders(g, ain, bin, x, gen, p)
    ensures HalfAdders(g', ain, bin, x, gen, p)
  {
  }

  lemma {:induction false} HalfAddersStep(g: Graph, g': Graph, ain: seq<nat>, bin: seq<nat>, x: seq<Sig>,
      gen: seq<Sig>, p: seq<Sig>,
      xi: Sig, gi: Sig)
    requires g <= g' && HalfAdders(g, ain, bin, x, gen, p) && |x| < |ain| && |x| < |bin|
    requires IsXor(g', xi, Sig(ain[|x|], false), Sig(bin[|x|], false))
    requires IsAnd(g', gi, [Sig(ain[|x|], false), Sig(bin[|x|], true)])
    ensures HalfAdders(g', ain, bin, x + [xi], gen + [gi], p + [Not(xi)])
  {
    HalfAddersGrow(g, g', ain, bin, x, gen, p);
  }

  lemma {:induction false} GroupLevelGrows(g: Graph, g': Graph, G: seq<Sig>, P: seq<Sig>, gg: seq<Sig>, gp: seq<Sig>)
    requires g <= g' && GroupLevel(g, G, P, gg, gp)
    ensures GroupLevel(g', G, P, gg, gp)
  {
    forall k | 0 <= k < |gg| ensures IsGroup(g', gg[k], gp[k], FourOf(G, k), FourOf(P, k)) {
      assert IsGroup(g, gg[k], gp[k], FourOf(G, k), FourOf(P, k));
      ShapesGrow(g, g');
    }
  }

  lemma {:induction false} GroupLevelStep(g: Graph, g': Graph, G: seq<Sig>, P: seq<Sig>, gg: seq<Sig>, gp: seq<Sig>,
      a: Sig, b: Sig)
    requires g <= g' && GroupLevel(g, G, P, gg, gp) && 4 * |gg| + 4 <= |G|
    requires IsGroup(g', a, b, FourOf(G, |gg|), FourOf(P, |gg|))
    ensures GroupLevel(g', G, P, gg + [a], gp + [b])
  {
    GroupLevelGrows(g, g', G, P, gg, gp);
    forall k | 0 <= k < |gg| + 1 ensures IsGroup(g', (gg + [a])[k], (gp + [b])[k], FourOf(G, k), FourOf(P, k)) {
      if k < |gg| {
        assert IsGroup(g', gg[k], gp[k], FourOf(G, k), FourOf(P, k));
      }
    }
  }

  lemma {:induction false} TopBorrowsGrow(g: Graph, g': Graph, G: seq<Sig>, P: seq<Sig>, borIn: Sig, bor: seq<Sig>)
    requires g <= g' && TopBorrows(g, G, P, borIn, bor)
    ensures TopBorrows(g', G, P, borIn, bor)
  {
  }

  lemma {:induction false} TopBorrowsStep(g: Graph, g': Graph, G: seq<Sig>, P: seq<Sig>, borIn: Sig, bor: seq<Sig>,
      b: Sig)
    requires g <= g' && TopBorrows(g, G, P, borIn, bor) && |bor| < |G| && |bor| < |P|
    requires IsBorrow(g', b, G, P, borIn, |bor|)
    ensures TopBorrows(g', G, P, borIn, bor + [b])
  {
    TopBorrowsGrow(g, g', G, P, borIn, bor);
  }

  lemma {:induction false} BorrowLevelGrows(g: Graph, g': Graph, G: seq<Sig>, P: seq<Sig>, up: seq<Sig>, bor: seq<Sig>)
    requires g <= g' && BorrowLevel(g, G, P, up, bor)
    ensures BorrowLevel(g', G, P, up, bor)
  {
  }

  lemma {:induction false} BorrowLevelStep(g: Graph, g': Graph, G: seq<Sig>, P: seq<Sig>, up: seq<Sig>, bor: seq<Sig>,
      k: nat, u: nat, b: Sig)
    requires g <= g' && BorrowLevel(g, G, P, up, bor) && |bor| == 4 * k + u < |G| && u < 4
    requires IsBorrow(g', b, FourOf(G, k), FourOf(P, k), up[k], u)
    ensures BorrowLevel(g', G, P, up, bor + [b])
  {
    hide IsBorrow, FourOf;
    BorrowLevelGrows(g, g', G, P, up, bor);
    assert (4 * k + u) / 4 == k && (4 * k + u) % 4 == u;
    var bor' := bor + [b];
    forall i | 0 <= i < |bor'| ensures IsBorrow(g', bor'[i], FourOf(G, i / 4), FourOf(P, i / 4), up[i / 4], i % 4) {
      if i < |bor| {
        assert bor'[i] == bor[i];
      }
    }
  }

  lemma {:induction false} SumsStep(g: Graph, g': Graph, x: seq<Sig>, bor: seq<Sig>, sum: seq<Sig>, b: Sig, s: Sig)
    requires g <= g' && Sums(g, x, bor, sum) && |bor| == |sum| < |x|
    requires IsXor(g', s, x[|sum|], b)
    ensures Sums(g', x, bor + [b], sum + [s])
  {
  }

  lemma {:induction false} SumsGrow(g: Graph, g': Graph, x: seq<Sig>, bor: seq<Sig>, sum: seq<Sig>)
    requires g <= g' && Sums(g, x, bor, sum)
    ensures Sums(g', x, bor, sum)
  {
  }

  lemma {:induction false} ZeroBytesGrow(g: Graph, g': Graph, sum: seq<Sig>, accs: seq<Sig>)
    requires g <= g' && ZeroBytes(g, sum, accs)
    ensures ZeroBytes(g', sum, accs)
  {
  }

  lemma {:induction false} GroupLogicGrows(g: Graph, g': Graph, ain: seq<nat>, bin: seq<nat>, w: SumWires, nsup: nat)
    requires g <= g' && GroupLogic(g, ain, bin, w, nsup)
    ensures GroupLogic(g', ain, bin, w, nsup)
  {
    HalfAddersGrow(g, g', ain, bin, w.x, w.g, w.p);
    GroupLevelGrows(g, g', w.g, w.p, w.gg1, w.gp1);
    GroupLevelGrows(g, g', w.gg1, w.gp1, w.gg2, w.gp2);
  }

  lemma {:induction false} BorrowLogicGrows(g: Graph, g': Graph, sum: seq<Sig>, w: SumWires)
    requires g <= g' && BorrowLogic(g, sum, w)
    ensures BorrowLogic(g', sum, w)
  {
    TopBorrowsGrow(g, g', w.gg2, w.gp2, w.zero, w.bsup);
    BorrowLevelGrows(g, g', w.gg1, w.gp1, w.bsup, w.bgrp);
    BorrowLevelGrows(g, g', w.g, w.p, w.bgrp, w.bor);
    SumsGrow(g, g', w.x, w.bor, sum);
  }

  lemma {:induction false} LaneGrows(g: Graph, g': Graph, q: Ports, w: SumWires, j: JumpWires, nsup: nat)
    requires g <= g' && LaneShape(g, q, w, j, nsup)
    ensures LaneShape(g', q, w, j, nsup)
  {
    SumLogicGrows(g, g', q.ain, q.bin, q.sum, w, nsup);
    JumpLogicGrows(g, g', q.sum, q.isJmp, j);
  }

  lemma {:induction false} SumLogicGrows(g: Graph, g': Graph, ain: seq<nat>, bin: seq<nat>, sum: seq<Sig>,
      w: SumWires, nsup: nat)
    requires g <= g' && SumLogic(g, ain, bin, sum, w, nsup)
    ensures SumLogic(g', ain, bin, sum, w, nsup)
  {
    GroupLogicGrows(g, g', ain, bin, w, nsup);
    BorrowLogicGrows(g, g', sum, w);
  }

  lemma {:induction false} JumpLogicGrows(g: Graph, g': Graph, sum: seq<Sig>, isJmp: Sig, j: JumpWires)
    requires g <= g' && JumpLogic(g, sum, isJmp, j)
    ensures JumpLogic(g', sum, isJmp, j)
  {
  }
}
