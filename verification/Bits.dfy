/** Natural numbers seen as strings of bits, least significant bit first.

    A machine word of width w is a number below 2^w.  The operators of the C++ code on
    such words (`&`, `|`, `~`, `>>`, `<<`) are written out here on the numbers, and the
    lemmas say what each of them does to every single bit. */
module Bits {

  function Pow2(k: nat): (r: nat)
    ensures r >= 1
  {
    if k == 0 then 1 else 2 * Pow2(k - 1)
  }

  /** Bit k of x. */
  predicate BitAt(x: nat, k: nat) {
    if k == 0 then x % 2 == 1 else BitAt(x / 2, k - 1)
  }

  function AndBits(x: nat, y: nat): (r: nat)
    ensures r <= x && r <= y
  {
    if x == 0 then 0 else (x % 2) * (y % 2) + 2 * AndBits(x / 2, y / 2)
  }

  function OrBits(x: nat, y: nat): nat {
    if x == 0 then y else (if x % 2 == 1 || y % 2 == 1 then 1 else 0) + 2 * OrBits(x / 2, y / 2)
  }

  lemma {:induction false} AndBitsAt(x: nat, y: nat, k: nat)
    ensures BitAt(AndBits(x, y), k) == (BitAt(x, k) && BitAt(y, k))
  {
    if x == 0 {
      ZeroHasNoBits(k);
    } else {
      var low, high := (x % 2) * (y % 2), AndBits(x / 2, y / 2);
      assert low == 0 || low == 1;
      assert (low + 2 * high) / 2 == high && (low + 2 * high) % 2 == low;
      if k > 0 {
        AndBitsAt(x / 2, y / 2, k - 1);
      }
    }
  }

  lemma {:induction false} AndWithSelf(x: nat)
    ensures AndBits(x, x) == x
  {
    if x != 0 {
      AndWithSelf(x / 2);
    }
  }

  /** All ones are neutral. */
  lemma {:induction false} AndWithOnes(x: nat, w: nat)
    requires x < Pow2(w)
    ensures AndBits(Pow2(w) - 1, x) == x
  {
    if w != 0 {
      AndWithOnes(x / 2, w - 1);
    }
  }

  lemma {:induction false} AndCommutes(x: nat, y: nat)
    ensures AndBits(x, y) == AndBits(y, x)
  {
    if x != 0 && y != 0 {
      AndCommutes(x / 2, y / 2);
    } else if x == 0 {
      AndWithZero(y);
    } else {
      AndWithZero(x);
    }
  }

  lemma {:induction false} AndWithZero(x: nat)
    ensures AndBits(x, 0) == 0
  {
    if x != 0 {
      AndWithZero(x / 2);
    }
  }

  lemma {:induction false} OrBitsAt(x: nat, y: nat, k: nat)
    ensures BitAt(OrBits(x, y), k) == (BitAt(x, k) || BitAt(y, k))
  {
    if x == 0 {
      ZeroHasNoBits(k);
    } else if k > 0 {
      OrBitsAt(x / 2, y / 2, k - 1);
    }
  }

  lemma {:induction false} ZeroHasNoBits(k: nat)
    ensures !BitAt(0, k)
  {
    if k > 0 {
      ZeroHasNoBits(k - 1);
    }
  }

  /** `~x` on w bits flips each of the w bits. */
  lemma {:induction false} ComplementAt(x: nat, w: nat, k: nat)
    requires x < Pow2(w) && k < w
    ensures BitAt(Pow2(w) - 1 - x, k) == !BitAt(x, k)
  {
    if k > 0 {
      assert (Pow2(w) - 1 - x) / 2 == Pow2(w - 1) - 1 - x / 2;
      ComplementAt(x / 2, w - 1, k - 1);
    }
  }

  /** All w low bits of 2^w - 1 are set. */
  lemma {:induction false} OnesAt(w: nat, k: nat)
    requires k < w
    ensures BitAt(Pow2(w) - 1, k)
  {
    if k > 0 {
      assert (Pow2(w) - 1) / 2 == Pow2(w - 1) - 1;
      OnesAt(w - 1, k - 1);
    }
  }

  /** `x << n` */
  function ShiftLeft(x: nat, n: nat): nat {
    if n == 0 then x else 2 * ShiftLeft(x, n - 1)
  }

  /** `x >> n` */
  function ShiftRight(x: nat, n: nat): nat {
    if n == 0 then x else ShiftRight(x / 2, n - 1)
  }

  /** A left shift moves every bit up by n places and fills with zeros. */
  lemma {:induction false} ShiftLeftAt(x: nat, n: nat, k: nat)
    ensures BitAt(ShiftLeft(x, n), k) == (n <= k && BitAt(x, k - n))
  {
    if n > 0 && k > 0 {
      ShiftLeftAt(x, n - 1, k - 1);
    }
  }

  /** A right shift moves every bit down by n places. */
  lemma {:induction false} ShiftRightAt(x: nat, n: nat, k: nat)
    ensures BitAt(ShiftRight(x, n), k) == BitAt(x, k + n)
  {
    if n > 0 {
      ShiftRightAt(x / 2, n - 1, k);
    }
  }

  lemma {:induction false} DivisionIsUnique(x: nat, d: nat, q: nat, r: nat)
    requires d > 0 && r < d && x == q * d + r
    ensures x / d == q && x % d == r
  {
    var q' := x / d;
    var r' := x % d;
    assert q' * d + r' == q * d + r;
    assert (q' - q) * d == r - r';
    MultipleBeyond(q' - q, d);
  }

  lemma {:induction false} HalfOfRemainder(x: nat, m: nat)
    requires m > 0
    ensures x % (2 * m) == 2 * (x / 2 % m) + x % 2 && x / (2 * m) == x / 2 / m
  {
    var h := x / 2;
    assert h == h / m * m + h % m;
    DivisionIsUnique(x, 2 * m, h / m, 2 * (h % m) + x % 2);
  }

  /** `x & (2^w - 1)` keeps the w low bits. */
  lemma {:induction false} LowBits(x: nat, w: nat, k: nat)
    ensures BitAt(x % Pow2(w), k) == (k < w && BitAt(x, k))
  {
    if w == 0 {
      ZeroHasNoBits(k);
    } else {
      HalfOfRemainder(x, Pow2(w - 1));
      var y := x % Pow2(w);
      assert y % 2 == x % 2 && y / 2 == x / 2 % Pow2(w - 1);
      if k > 0 {
        LowBits(x / 2, w - 1, k - 1);
      }
    }
  }

  /** `x >> n` divides by 2^n. */
  lemma {:induction false} ShiftRightDivides(x: nat, n: nat)
    ensures ShiftRight(x, n) == x / Pow2(n)
  {
    if n > 0 {
      HalfOfRemainder(x, Pow2(n - 1));
      ShiftRightDivides(x / 2, n - 1);
    }
  }

  lemma {:induction false} MultipleBeyond(k: int, d: int)
    requires d > 0
    ensures k >= 1 ==> k * d >= d
    ensures k <= -1 ==> k * d <= -d
  {
  }

  lemma {:induction false} Pow2Byte(k: nat)
    ensures Pow2(k + 8) == 256 * Pow2(k)
  {
    assert Pow2(k + 4) == 2 * Pow2(k + 3) && Pow2(k + 3) == 2 * Pow2(k + 2);
    assert Pow2(k + 2) == 2 * Pow2(k + 1) && Pow2(k + 1) == 2 * Pow2(k);
    assert Pow2(k + 8) == 2 * Pow2(k + 7) && Pow2(k + 7) == 2 * Pow2(k + 6);
    assert Pow2(k + 6) == 2 * Pow2(k + 5) && Pow2(k + 5) == 2 * Pow2(k + 4);
  }

  /** The number written by a string of bits. */
  function ToNat(bs: seq<bool>): (r: nat)
    ensures r < Pow2(|bs|)
  {
    if bs == [] then 0 else (if bs[0] then 1 else 0) + 2 * ToNat(bs[1..])
  }

  /** The w low bits of n. */
  function FromNat(n: nat, w: nat): (bs: seq<bool>)
    ensures |bs| == w
  {
    if w == 0 then [] else [n % 2 == 1] + FromNat(n / 2, w - 1)
  }

  lemma {:induction false} ToFromNat(n: nat, w: nat)
    requires n < Pow2(w)
    ensures ToNat(FromNat(n, w)) == n
  {
    if w > 0 {
      ToFromNat(n / 2, w - 1);
    }
  }

  lemma {:induction false} FromToNat(bs: seq<bool>)
    ensures FromNat(ToNat(bs), |bs|) == bs
  {
    if bs != [] {
      FromToNat(bs[1..]);
    }
  }

  lemma {:induction false} FromNatAt(n: nat, w: nat, k: nat)
    requires k < w
    ensures FromNat(n, w)[k] == BitAt(n, k)
  {
    if k > 0 {
      FromNatAt(n / 2, w - 1, k - 1);
    }
  }

  /** Appending a most significant bit. */
  lemma {:induction false} ToNatSnoc(bs: seq<bool>, b: bool)
    ensures ToNat(bs + [b]) == ToNat(bs) + (if b then Pow2(|bs|) else 0)
  {
    if bs != [] {
      assert (bs + [b])[1..] == bs[1..] + [b];
      ToNatSnoc(bs[1..], b);
    }
  }

  /** A w-bit register shifted right by one with b entering at the top drops its lowest
      bit and keeps the others in order. */
  lemma {:induction false} ShiftIn(n: nat, w: nat, b: bool)
    requires w > 0 && n < Pow2(w)
    ensures n / 2 + (if b then Pow2(w - 1) else 0) < Pow2(w)
    ensures FromNat(n / 2 + (if b then Pow2(w - 1) else 0), w) == FromNat(n, w)[1..] + [b]
  {
    if w > 1 {
      ShiftIn(n / 2, w - 1, b);
    }
  }

  /** Two numbers below 2^w with the same w bits are the same number. */
  lemma {:induction false} SameBits(x: nat, y: nat, w: nat)
    requires x < Pow2(w) && y < Pow2(w)
    requires forall k | 0 <= k < w :: BitAt(x, k) == BitAt(y, k)
    ensures x == y
  {
    if w > 0 {
      assert BitAt(x, 0) == BitAt(y, 0);
      forall k | 0 <= k < w - 1 ensures BitAt(x / 2, k) == BitAt(y / 2, k) {
        assert BitAt(x, k + 1) == BitAt(y, k + 1);
      }
      SameBits(x / 2, y / 2, w - 1);
    }
  }
}
