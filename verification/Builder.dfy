/** The construction of one lane, as the code runs it: every loop allocates cells one after
    the other.  The contracts say which circuit comes out and how many cells it takes. */
module Builder {
  import opened Graph
  import opened Circuit
  import opened Cells
  import opened Netlist

  /** All of xs are cells below n. */
  ghost predicate Within(xs: seq<Sig>, n: nat) {
    forall i | 0 <= i < |xs| :: xs[i].cell < n
  }

  /** The cells a sum-of-products borrow out of k positions takes. */
  function BorrowCells(k: nat): nat {
    if k == 0 then 0 else k + 1
  }

  /** g grew to g', by n gates of at most m sources. */
  ghost predicate Grown(g: Graph, g': Graph, n: nat, m: nat) {
    g <= g' && |g'| == |g| + n && NewGates(g', |g|, m)
  }

  lemma {:induction false} GrownTwice(g: Graph, g': Graph, g'': Graph, n: nat, n': nat, m: nat, m': nat)
    requires Grown(g, g', n, m) && Grown(g', g'', n', m') && m' <= m
    ensures Grown(g, g'', n + n', m)
  {
  }

  /** The factors P[k-1], ..., P[j+1] of a product term, collected in the order of the code. */
  method Factors(P: seq<Sig>, k: nat, lo: nat) returns (f: seq<Sig>)
    requires lo <= k <= |P|
    ensures f == Descend(P, k, lo)
  {
    f := [];
    for m := k downto lo
      invariant f == Descend(P, k, m)
    {
      f := f + [P[m]];
      assert f == Descend(P, k, m);
    }
  }

  /** The k product terms of a borrow out of k positions, highest position first. */
  method ProductTerms(net: Netlist, G: seq<Sig>, P: seq<Sig>, k: nat) returns (terms: seq<Sig>)
    requires net.Built() && 1 <= k <= |G| && k <= |P|
    requires Within(G, |net.cells|) && Within(P, |net.cells|)
    modifies net`cells, net.counters`calcAddr
    ensures net.Built() && Grown(old(net.Logic()), net.Logic(), k - 1, k)
    ensures |terms| == k && Within(terms, |net.cells|)
    ensures forall t | 0 <= t < k :: IsAnd(net.Logic(), terms[t], Term(G, P, k, k - 1 - t))
  {
    terms := [];
    for j := k downto 0
      invariant net.Built()
      invariant Grown(old(net.Logic()), net.Logic(), if j == k then 0 else k - j - 1, k)
      invariant |terms| == k - j && Within(terms, |net.cells|)
      invariant forall t | 0 <= t < k - j :: IsAnd(net.Logic(), terms[t], Term(G, P, k, k - 1 - t))
    {
      ghost var before := net.Logic();
      var f := Factors(P, k, j + 1);
      f := f + [G[j]];
      assert f == Term(G, P, k, j);
      var t := net.AndOf(f);
      ShapesGrow(before, net.Logic());
      terms := terms + [t];
    }
  }

  /** The borrow into relative position k. */
  method ClaBorrow(net: Netlist, G: seq<Sig>, P: seq<Sig>, borIn: Sig, k: nat) returns (s: Sig)
    requires net.Built() && k <= |G| && k <= |P|
    requires Within(G, |net.cells|) && Within(P, |net.cells|) && borIn.cell < |net.cells|
    modifies net`cells, net.counters`calcAddr
    ensures net.Built() && Grown(old(net.Logic()), net.Logic(), BorrowCells(k), k + 1)
    ensures s.cell < |net.cells| && IsBorrow(net.Logic(), s, G, P, borIn, k)
  {
    if k == 0 {
      return borIn;
    }
    var terms := ProductTerms(net, G, P, k);
    ghost var g1 := net.Logic();
    var f := Factors(P, k, 0);
    f := f + [borIn];
    assert f == LastTerm(P, borIn, k);
    var last := net.AndOf(f);
    ghost var g2 := net.Logic();
    ShapesGrow(g1, g2);
    s := net.OrOf(terms + [last]);
    ShapesGrow(g2, net.Logic());
    BorrowFromTerms(net.Logic(), terms, last, s, G, P, borIn, k);
  }

  lemma {:induction false} BorrowFromTerms(g: Graph, terms: seq<Sig>, last: Sig, s: Sig, G: seq<Sig>, P: seq<Sig>,
      borIn: Sig, k: nat)
    requires 1 <= k <= |G| && k <= |P| && |terms| == k && IsOr(g, s, terms + [last])
    requires forall t | 0 <= t < k :: IsAnd(g, terms[t], Term(G, P, k, k - 1 - t))
    requires IsAnd(g, last, LastTerm(P, borIn, k))
    ensures IsBorrow(g, s, G, P, borIn, k)
  {
  }

  /** Generate and propagate of a group of four. */
  method ClaGroup(net: Netlist, G: seq<Sig>, P: seq<Sig>) returns (gg: Sig, gp: Sig)
    requires net.Built() && |G| == |P| == 4
    requires Within(G, |net.cells|) && Within(P, |net.cells|)
    modifies net`cells, net.counters`calcAddr
    ensures net.Built() && Grown(old(net.Logic()), net.Logic(), 5, 4)
    ensures gg.cell < |net.cells| && gp.cell < |net.cells| && IsGroup(net.Logic(), gg, gp, G, P)
  {
    var terms := ProductTerms(net, G, P, 4);
    ghost var g1 := net.Logic();
    gg := net.OrOf(terms);
    ghost var g2 := net.Logic();
    ShapesGrow(g1, g2);
    assert [P[3], P[2], P[1], P[0]] == Descend(P, 4, 0);
    gp := net.AndOf([P[3], P[2], P[1], P[0]]);
    ShapesGrow(g2, net.Logic());
    GroupFromTerms(net.Logic(), terms, gg, gp, G, P);
  }

  lemma {:induction false} GroupFromTerms(g: Graph, terms: seq<Sig>, gg: Sig, gp: Sig, G: seq<Sig>, P: seq<Sig>)
    requires |G| == |P| == 4 == |terms| && IsOr(g, gg, terms) && IsAnd(g, gp, Descend(P, 4, 0))
    requires forall t | 0 <= t < 4 :: IsAnd(g, terms[t], Term(G, P, 4, 4 - 1 - t))
    ensures IsGroup(g, gg, gp, G, P)
  {
  }

  /** The inputs of a lane: bit i of a and bit i of b, side by side. */
  method MakeInputs(net: Netlist, digit: nat) returns (ain: seq<nat>, bin: seq<nat>)
    requires net.Built()
    modifies net`cells, net.counters`calcAddr
    ensures net.Built() && old(net.Logic()) <= net.Logic() && |net.cells| == |old(net.cells)| + 2 * digit
    ensures InputCells(net.Logic(), |old(net.cells)|, ain, bin) && |ain| == |bin| == digit
  {
    ain, bin := [], [];
    ghost var n0 := |net.cells|;
    for i := 0 to digit
      invariant net.Built() && old(net.Logic()) <= net.Logic() && |net.cells| == n0 + 2 * i
      invariant InputCells(net.Logic(), n0, ain, bin) && |ain| == |bin| == i
    {
      var a := net.NewInput();
      var b := net.NewInput();
      ain, bin := ain + [a], bin + [b];
    }
  }

  /** ain and bin are the input cells of one lane, allocated alternately from n0 on. */
  ghost predicate InputCells(g: Graph, n0: nat, ain: seq<nat>, bin: seq<nat>) {
    |ain| == |bin| && n0 + 2 * |ain| <= |g| &&
    (forall i | 0 <= i < |ain| :: ain[i] == n0 + 2 * i && bin[i] == n0 + 2 * i + 1) &&
    forall c | n0 <= c < n0 + 2 * |ain| :: g[c] == Input
  }

  /** Half adders for all bits. */
  method HalfAdderRow(net: Netlist, ain: seq<nat>, bin: seq<nat>) returns (x: seq<Sig>, gen: seq<Sig>, p: seq<Sig>)
    requires net.Built() && |ain| == |bin|
    requires forall i | 0 <= i < |ain| :: ain[i] < |net.cells| && bin[i] < |net.cells|
    modifies net`cells, net.counters`calcAddr
    ensures net.Built() && Grown(old(net.Logic()), net.Logic(), 4 * |ain|, 2)
    ensures |x| == |ain| && HalfAdders(net.Logic(), ain, bin, x, gen, p)
    ensures Within(x, |net.cells|) && Within(gen, |net.cells|) && Within(p, |net.cells|)
    ensures forall i | 0 <= i < |x| :: !x[i].inv
  {
    x, gen, p := [], [], [];
    for i := 0 to |ain|
      invariant net.Built() && Grown(old(net.Logic()), net.Logic(), 4 * i, 2)
      invariant |x| == i && HalfAdders(net.Logic(), ain, bin, x, gen, p)
      invariant Within(x, |net.cells|) && Within(gen, |net.cells|) && Within(p, |net.cells|)
      invariant forall i | 0 <= i < |x| :: !x[i].inv
    {
      ghost var g0 := net.Logic();
      var A, B := Sig(ain[i], false), Sig(bin[i], false);
      var xi := net.XorOf(A, B);
      ghost var g1 := net.Logic();
      var gi := net.AndOf([A, Not(B)]);
      ShapesGrow(g1, net.Logic());
      HalfAddersStep(g0, net.Logic(), ain, bin, x, gen, p, xi, gi);
      x, gen, p := x + [xi], gen + [gi], p + [Not(xi)];
    }
  }

  /** The groups of one level. */
  method GroupRow(net: Netlist, G: seq<Sig>, P: seq<Sig>, n: nat) returns (gg: seq<Sig>, gp: seq<Sig>)
    requires net.Built() && |G| == |P| == 4 * n
    requires Within(G, |net.cells|) && Within(P, |net.cells|)
    modifies net`cells, net.counters`calcAddr
    ensures net.Built() && Grown(old(net.Logic()), net.Logic(), 5 * n, 4)
    ensures |gg| == n && GroupLevel(net.Logic(), G, P, gg, gp)
    ensures Within(gg, |net.cells|) && Within(gp, |net.cells|)
  {
    gg, gp := [], [];
    for k := 0 to n
      invariant net.Built() && Grown(old(net.Logic()), net.Logic(), 5 * k, 4)
      invariant |gg| == k && GroupLevel(net.Logic(), G, P, gg, gp)
      invariant Within(gg, |net.cells|) && Within(gp, |net.cells|)
    {
      ghost var g0 := net.Logic();
      var ggk, gpk := ClaGroup(net, G[4 * k..4 * k + 4], P[4 * k..4 * k + 4]);
      GroupLevelStep(g0, net.Logic(), G, P, gg, gp, ggk, gpk);
      gg, gp := gg + [ggk], gp + [gpk];
    }
  }

  /** The cells of the borrows into positions 0..n at the top level. */
  function TopBorrowCells(n: nat): nat {
    if n == 0 then 0 else TopBorrowCells(n - 1) + BorrowCells(n - 1)
  }

  /** The borrows of the top level. */
  method TopBorrowRow(net: Netlist, G: seq<Sig>, P: seq<Sig>, borIn: Sig) returns (bor: seq<Sig>)
    requires net.Built() && |G| == |P| <= 4
    requires Within(G, |net.cells|) && Within(P, |net.cells|) && borIn.cell < |net.cells|
    modifies net`cells, net.counters`calcAddr
    ensures net.Built() && Grown(old(net.Logic()), net.Logic(), TopBorrowCells(|G|), 4)
    ensures |bor| == |G| && TopBorrows(net.Logic(), G, P, borIn, bor) && Within(bor, |net.cells|)
  {
    bor := [];
    for s := 0 to |G|
      invariant net.Built() && Grown(old(net.Logic()), net.Logic(), TopBorrowCells(s), 4)
      invariant |bor| == s && TopBorrows(net.Logic(), G, P, borIn, bor) && Within(bor, |net.cells|)
    {
      ghost var g0 := net.Logic();
      var b := ClaBorrow(net, G, P, borIn, s);
      TopBorrowsStep(g0, net.Logic(), G, P, borIn, bor, b);
      bor := bor + [b];
    }
  }

  /** The borrows into the four positions of every group. */
  method BorrowRow(net: Netlist, G: seq<Sig>, P: seq<Sig>, up: seq<Sig>) returns (bor: seq<Sig>)
    requires net.Built() && |G| == |P| == 4 * |up|
    requires Within(G, |net.cells|) && Within(P, |net.cells|) && Within(up, |net.cells|)
    modifies net`cells, net.counters`calcAddr
    ensures net.Built() && Grown(old(net.Logic()), net.Logic(), 9 * |up|, 4)
    ensures |bor| == |G| && BorrowLevel(net.Logic(), G, P, up, bor) && Within(bor, |net.cells|)
  {
    hide IsBorrow;
    bor := [];
    for s := 0 to |up|
      invariant net.Built() && Grown(old(net.Logic()), net.Logic(), 9 * s, 4)
      invariant |bor| == 4 * s && BorrowLevel(net.Logic(), G, P, up, bor) && Within(bor, |net.cells|)
    {
      for t := 0 to 4
        invariant net.Built() && Grown(old(net.Logic()), net.Logic(), 9 * s + TopBorrowCells(t), 4)
        invariant |bor| == 4 * s + t && BorrowLevel(net.Logic(), G, P, up, bor) && Within(bor, |net.cells|)
      {
        ghost var g0 := net.Logic();
        var b := ClaBorrow(net, G[4 * s..4 * s + 4], P[4 * s..4 * s + 4], up[s], t);
        BorrowLevelStep(g0, net.Logic(), G, P, up, bor, s, t, b);
        bor := bor + [b];
      }
      assert TopBorrowCells(4) == 9;
    }
  }

  /** The signals of the first n bits of the result, as far as the loop has come. */
  ghost predicate SumsSoFar(g: Graph, G: seq<Sig>, P: seq<Sig>, x: seq<Sig>, up: seq<Sig>, bor: seq<Sig>,
      sum: seq<Sig>, n: nat) {
    |bor| == |sum| == n && BorrowLevel(g, G, P, up, bor) && (n > 0 ==> Sums(g, x, bor, sum)) &&
    Within(sum, |g|) && forall i | 0 <= i < |sum| :: !sum[i].inv
  }

  /** One bit above bit 0: its borrow and its sum. */
  method SumBit(net: Netlist, G: seq<Sig>, P: seq<Sig>, x: seq<Sig>, up: seq<Sig>, k: nat, u: nat,
      ghost bor: seq<Sig>, ghost sum: seq<Sig>)
    returns (b: Sig, s: Sig)
    requires net.Built() && |G| == |P| == |x| == 4 * |up| && k < |up| && u < 4 && k + u > 0
    requires Within(G, |net.cells|) && Within(P, |net.cells|) && Within(x, |net.cells|) && Within(up, |net.cells|)
    requires SumsSoFar(net.Logic(), G, P, x, up, bor, sum, 4 * k + u)
    modifies net`cells, net.counters`calcAddr
    ensures net.Built() && Grown(old(net.Logic()), net.Logic(), BorrowCells(u) + 3, 4)
    ensures SumsSoFar(net.Logic(), G, P, x, up, bor + [b], sum + [s], 4 * k + u + 1)
  {
    ghost var g0 := net.Logic();
    b := ClaBorrow(net, G[4 * k..4 * k + 4], P[4 * k..4 * k + 4], up[k], u);
    ghost var g1 := net.Logic();
    s := net.XorOf(x[4 * k + u], b);
    GrownTwice(g0, g1, net.Logic(), BorrowCells(u), 3, 4, 2);
    SumsOneMore(g0, g1, net.Logic(), G, P, x, up, bor, sum, k, u, b, s);
  }

  lemma {:induction false} SumsOneMore(g0: Graph, g1: Graph, g2: Graph, G: seq<Sig>, P: seq<Sig>, x: seq<Sig>,
      up: seq<Sig>,
      bor: seq<Sig>, sum: seq<Sig>, k: nat, u: nat, b: Sig, s: Sig)
    requires g0 <= g1 <= g2 && |G| == |P| == |x| == 4 * |up| && k < |up| && u < 4 && k + u > 0
    requires SumsSoFar(g0, G, P, x, up, bor, sum, 4 * k + u)
    requires IsBorrow(g1, b, FourOf(G, k), FourOf(P, k), up[k], u) && IsXor(g2, s, x[4 * k + u], b)
    ensures SumsSoFar(g2, G, P, x, up, bor + [b], sum + [s], 4 * k + u + 1)
  {
    BorrowGrows(g1, g2, b, FourOf(G, k), FourOf(P, k), up[k], u);
    BorrowLevelStep(g0, g2, G, P, up, bor, k, u, b);
    SumsStep(g0, g2, x, bor, sum, b, s);
  }

  /** The cells of bits 4 * k to 4 * k + u of the result; bit 0 takes none. */
  function SumCells(k: nat, u: nat): nat {
    if k + u == 0 then 0 else 21 * k + TopBorrowCells(u) + 3 * u - 3
  }

  /** The borrow into every bit and the final sum; bit 0 has no borrow. */
  method SumRow(net: Netlist, G: seq<Sig>, P: seq<Sig>, x: seq<Sig>, up: seq<Sig>) returns (ghost bor: seq<Sig>,
      sum: seq<Sig>)
    requires net.Built() && |G| == |P| == |x| == 4 * |up| > 0
    requires Within(G, |net.cells|) && Within(P, |net.cells|) && Within(x, |net.cells|) && Within(up, |net.cells|)
    requires forall i | 0 <= i < |x| :: !x[i].inv
    modifies net`cells, net.counters`calcAddr
    ensures net.Built() && Grown(old(net.Logic()), net.Logic(), SumCells(|up|, 0), 4)
    ensures SumsSoFar(net.Logic(), G, P, x, up, bor, sum, |x|)
  {
    bor, sum := [], [];
    for k := 0 to |up|
      invariant net.Built() && Grown(old(net.Logic()), net.Logic(), SumCells(k, 0), 4)
      invariant SumsSoFar(net.Logic(), G, P, x, up, bor, sum, 4 * k)
    {
      for u := 0 to 4
        invariant net.Built() && Grown(old(net.Logic()), net.Logic(), SumCells(k, u), 4)
        invariant SumsSoFar(net.Logic(), G, P, x, up, bor, sum, 4 * k + u)
      {
        ghost var g0 := net.Logic();
        if 4 * k + u == 0 {
          bor, sum := [up[0]], [x[0]];
        } else {
          var b, s := SumBit(net, G, P, x, up, k, u, bor, sum);
          GrownTwice(old(net.Logic()), g0, net.Logic(), SumCells(k, u), BorrowCells(u) + 3, 4, 4);
          bor, sum := bor + [b], sum + [s];
        }
      }
      assert TopBorrowCells(4) == 9;
    }
  }

  /** One cell that is 1 when the sum bits from lo on, eight of them, are all 0. */
  method ZeroByte(net: Netlist, sum: seq<Sig>, lo: nat) returns (acc: Sig)
    requires net.Built() && lo + 8 <= |sum| && Within(sum, |net.cells|)
    modifies net`cells, net.counters`calcAddr
    ensures net.Built() && Grown(old(net.Logic()), net.Logic(), 1, 8)
    ensures acc.cell < |net.cells| && IsAnd(net.Logic(), acc, Inverted(sum[lo..lo + 8]))
  {
    ghost var was := net.cells;
    var t := net.NewCell();
    for i := lo to lo + 8
      invariant net.Allocated()
      invariant net.cells == was + [Cell(net.base + t, Unscheduled(Inverted(sum[lo..i])), -1)]
    {
      net.Wire(t, sum[i], true);
      assert sum[lo..i + 1] == sum[lo..i] + [sum[i]];
      assert Unscheduled(Inverted(sum[lo..i + 1])) == Unscheduled(Inverted(sum[lo..i])) + [Write(Not(sum[i]), -1)];
    }
    GraphSnoc(was, net.cells[t]);
    acc := Sig(t, false);
  }

  method ZeroRow(net: Netlist, sum: seq<Sig>, n: nat) returns (accs: seq<Sig>)
    requires net.Built() && |sum| == 8 * n && Within(sum, |net.cells|)
    modifies net`cells, net.counters`calcAddr
    ensures net.Built() && Grown(old(net.Logic()), net.Logic(), n, 8)
    ensures |accs| == n && ZeroBytes(net.Logic(), sum, accs) && Within(accs, |net.cells|)
  {
    accs := [];
    for c := 0 to n
      invariant net.Built() && Grown(old(net.Logic()), net.Logic(), c, 8)
      invariant |accs| == c && ZeroBytes(net.Logic(), sum, accs) && Within(accs, |net.cells|)
    {
      ghost var g0 := net.Logic();
      var acc := ZeroByte(net, sum, 8 * c);
      ZeroBytesGrow(g0, net.Logic(), sum, accs);
      accs := accs + [acc];
    }
  }

  /** The gates of the first half of the subtractor. */
  function GroupGates(nsup: nat): nat {
    64 * nsup + 25 * nsup
  }

  /** Half adders and both levels of groups. */
  method BuildGroups(net: Netlist, ain: seq<nat>, bin: seq<nat>, nsup: nat, zero: Sig) returns (w: SumWires)
    requires net.Built() && |ain| == |bin| == 16 * nsup
    requires forall i | 0 <= i < |ain| :: ain[i] < |net.cells| && bin[i] < |net.cells|
    modifies net`cells, net.counters`calcAddr
    ensures net.Built() && Grown(old(net.Logic()), net.Logic(), GroupGates(nsup), 4)
    ensures GroupLogic(net.Logic(), ain, bin, w, nsup) && w.zero == zero
    ensures Within(w.x, |net.cells|) && Within(w.g, |net.cells|) && Within(w.p, |net.cells|)
    ensures Within(w.gg1, |net.cells|) && Within(w.gp1, |net.cells|)
    ensures Within(w.gg2, |net.cells|) && Within(w.gp2, |net.cells|)
    ensures forall i | 0 <= i < |w.x| :: !w.x[i].inv
  {
    ghost var g0 := net.Logic();
    var x, g, p := HalfAdderRow(net, ain, bin);
    ghost var g1 := net.Logic();
    var gg1, gp1 := GroupRow(net, g, p, 4 * nsup);
    ghost var g2 := net.Logic();
    var gg2, gp2 := GroupRow(net, gg1, gp1, nsup);
    ghost var g3 := net.Logic();
    GrownTwice(g1, g2, g3, 20 * nsup, 5 * nsup, 4, 4);
    GrownWider(g0, g1, g3, 64 * nsup, 25 * nsup, 2, 4);
    HalfAddersGrow(g1, g3, ain, bin, x, g, p);
    GroupLevelGrows(g2, g3, g, p, gg1, gp1);
    w := SumWires(zero, g, p, x, gg1, gp1, gg2, gp2, [], [], []);
  }

  lemma {:induction false} GrownWider(g: Graph, g': Graph, g'': Graph, n: nat, n': nat, m: nat, m': nat)
    requires Grown(g, g', n, m) && Grown(g', g'', n', m') && m <= m'
    ensures Grown(g, g'', n + n', m')
  {
  }

  /** The gates of the second half of the subtractor. */
  function BorrowGates(nsup: nat): nat {
    TopBorrowCells(nsup) + 9 * nsup + SumCells(4 * nsup, 0)
  }

  /** The borrows, from the top level down to the bits, and the sums. */
  method BuildBorrows(net: Netlist, u: SumWires, nsup: nat, ghost ain: seq<nat>, ghost bin: seq<nat>)
    returns (sum: seq<Sig>, ghost w: SumWires)
    requires net.Built() && 1 <= nsup <= 4 && GroupLogic(net.Logic(), ain, bin, u, nsup)
    requires u.zero.cell < |net.cells|
    requires Within(u.x, |net.cells|) && Within(u.g, |net.cells|) && Within(u.p, |net.cells|)
    requires Within(u.gg1, |net.cells|) && Within(u.gp1, |net.cells|)
    requires Within(u.gg2, |net.cells|) && Within(u.gp2, |net.cells|)
    requires forall i | 0 <= i < |u.x| :: !u.x[i].inv
    modifies net`cells, net.counters`calcAddr
    ensures net.Built() && Grown(old(net.Logic()), net.Logic(), BorrowGates(nsup), 4)
    ensures w == u.(bsup := w.bsup, bgrp := w.bgrp, bor := w.bor)
    ensures |w.bgrp| == 4 * nsup && |w.bsup| == nsup && |sum| == 16 * nsup && BorrowLogic(net.Logic(), sum, w)
    ensures Within(sum, |net.cells|) && forall i | 0 <= i < |sum| :: !sum[i].inv
  {
    ghost var g0 := net.Logic();
    var bsup := TopBorrowRow(net, u.gg2, u.gp2, u.zero);
    ghost var g1 := net.Logic();
    var bgrp := BorrowRow(net, u.gg1, u.gp1, bsup);
    ghost var g2 := net.Logic();
    ghost var bor;
    bor, sum := SumRow(net, u.g, u.p, u.x, bgrp);
    ghost var g3 := net.Logic();
    GrownTwice(g1, g2, g3, 9 * nsup, SumCells(4 * nsup, 0), 4, 4);
    GrownTwice(g0, g1, g3, TopBorrowCells(nsup), 9 * nsup + SumCells(4 * nsup, 0), 4, 4);
    TopBorrowsGrow(g1, g3, u.gg2, u.gp2, u.zero, bsup);
    BorrowLevelGrows(g2, g3, u.gg1, u.gp1, bsup, bgrp);
    w := u.(bsup := bsup, bgrp := bgrp, bor := bor);
  }

  /** The gates of the subtractor. */
  function SumGates(nsup: nat): nat {
    1 + GroupGates(nsup) + BorrowGates(nsup)
  }

  /** The subtractor of a lane, from its inputs to its sum. */
  method BuildSums(net: Netlist, ain: seq<nat>, bin: seq<nat>, nsup: nat) returns (sum: seq<Sig>, ghost w: SumWires)
    requires net.Built() && 1 <= nsup <= 4 && |ain| == |bin| == 16 * nsup
    requires forall i | 0 <= i < |ain| :: ain[i] < |net.cells| && bin[i] < |net.cells|
    modifies net`cells, net.counters`calcAddr
    ensures net.Built() && Grown(old(net.Logic()), net.Logic(), SumGates(nsup), 4)
    ensures SumLogic(net.Logic(), ain, bin, sum, w, nsup)
    ensures Within(sum, |net.cells|) && forall i | 0 <= i < |sum| :: !sum[i].inv
  {
    ghost var g0 := net.Logic();
    var zero := net.AndOf([Sig(bin[0], false), Sig(bin[0], true)]);
    ghost var g1 := net.Logic();
    assert Grown(g0, g1, 1, 4);
    var u := BuildGroups(net, ain, bin, nsup, zero);
    ghost var g2 := net.Logic();
    sum, w := BuildBorrows(net, u, nsup, ain, bin);
    ghost var g3 := net.Logic();
    GrownTwice(g1, g2, g3, GroupGates(nsup), BorrowGates(nsup), 4, 4);
    GrownTwice(g0, g1, g3, 1, GroupGates(nsup) + BorrowGates(nsup), 4, 4);
    ShapesGrow(g1, g3);
    GroupLogicGrows(g2, g3, ain, bin, u, nsup);
    assert GroupLogic(g3, ain, bin, w, nsup);
  }

  /** The jump test: all sum bits 0, or the top one set. */
  method BuildJump(net: Netlist, sum: seq<Sig>, nsup: nat) returns (isJmp: Sig, ghost j: JumpWires)
    requires net.Built() && 1 <= nsup <= 4 && |sum| == 16 * nsup && Within(sum, |net.cells|)
    modifies net`cells, net.counters`calcAddr
    ensures net.Built() && Grown(old(net.Logic()), net.Logic(), 2 * nsup + 3, 8)
    ensures JumpLogic(net.Logic(), sum, isJmp, j) && isJmp.cell < |net.cells|
  {
    ghost var g0 := net.Logic();
    var accs := ZeroRow(net, sum, 2 * nsup);
    ghost var g1 := net.Logic();
    var allZero := net.AndOf(accs);
    ghost var g2 := net.Logic();
    var negOrZero := net.OrOf([allZero, sum[16 * nsup - 1]]);
    ghost var g3 := net.Logic();
    isJmp := net.Buf(negOrZero);
    ghost var g4 := net.Logic();
    GrownTwice(g0, g1, g2, 2 * nsup, 1, 8, 8);
    GrownTwice(g0, g2, g3, 2 * nsup + 1, 1, 8, 2);
    GrownTwice(g0, g3, g4, 2 * nsup + 2, 1, 8, 1);
    ZeroBytesGrow(g1, g4, sum, accs);
    ShapesGrow(g2, g4);
    ShapesGrow(g3, g4);
    j := JumpWires(accs, allZero, negOrZero);
  }

  /** The cells of a whole lane. */
  function LaneCells(nsup: nat): nat {
    32 * nsup + SumGates(nsup) + 2 * nsup + 3
  }

  /** g is before, followed by the cells of one lane: its inputs, then its gates, with all
      outputs readable without inversion. */
  ghost predicate LaneAppended(before: Graph, g: Graph, q: Ports, nsup: nat) {
    before <= g && |g| == |before| + LaneCells(nsup) &&
    InputCells(g, |before|, q.ain, q.bin) && |q.ain| == |q.sum| == 16 * nsup &&
    NewGates(g, |before| + 32 * nsup, 8) &&
    Within(q.sum, |g|) && q.isJmp.cell < |g| && !q.isJmp.inv && forall i | 0 <= i < |q.sum| :: !q.sum[i].inv
  }

  /** One lane: inputs, subtractor, jump test. */
  method BuildLane(net: Netlist, nsup: nat) returns (q: Ports, ghost w: SumWires, ghost j: JumpWires)
    requires net.Built() && 1 <= nsup <= 4
    modifies net`cells, net.counters`calcAddr
    ensures net.Built() && LaneAppended(old(net.Logic()), net.Logic(), q, nsup)
    ensures LaneShape(net.Logic(), q, w, j, nsup)
  {
    ghost var before := net.Logic();
    var ain, bin := MakeInputs(net, 16 * nsup);
    ghost var g0 := net.Logic();
    var sum;
    sum, w := BuildSums(net, ain, bin, nsup);
    ghost var g1 := net.Logic();
    var isJmp;
    isJmp, j := BuildJump(net, sum, nsup);
    ghost var g2 := net.Logic();
    q := Ports(ain, bin, sum, isJmp);
    LaneComplete(before, g0, g1, g2, q, nsup);
    SumLogicGrows(g1, g2, ain, bin, sum, w, nsup);
  }

  lemma {:induction false} LaneComplete(before: Graph, g0: Graph, g1: Graph, g2: Graph, q: Ports, nsup: nat)
    requires before <= g0 && |g0| == |before| + 32 * nsup && InputCells(g0, |before|, q.ain, q.bin)
    requires |q.ain| == |q.sum| == 16 * nsup
    requires Grown(g0, g1, SumGates(nsup), 4) && Within(q.sum, |g1|) && Grown(g1, g2, 2 * nsup + 3, 8)
    requires q.isJmp.cell < |g2| && !q.isJmp.inv && forall i | 0 <= i < |q.sum| :: !q.sum[i].inv
    ensures LaneAppended(before, g2, q, nsup)
  {
  }
}
