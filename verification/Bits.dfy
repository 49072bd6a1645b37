/** Bits of natural numbers: and, shifts and masks of any width. */
module Bits {
  function Pow2(n: nat): (r: nat)
    ensures r > 0
  {
    if n == 0 then 1 else 2 * Pow2(n - 1)
  }

  /** Bit i, counted from the lowest. */
  predicate BitAt(n: nat, i: nat)
    decreases i
  {
    if i == 0 then n % 2 == 1 else BitAt(n / 2, i - 1)
  }

  /** The operator & of C. */
  function BitAnd(a: nat, b: nat): nat
    decreases a
  {
    if a == 0 then 0 else (if a % 2 == 1 && b % 2 == 1 then 1 else 0) + 2 * BitAnd(a / 2, b / 2)
  }

  /** The operator >> of C. */
  function Shift(a: nat, k: nat): nat
    decreases k
  {
    if k == 0 then a else Shift(a / 2, k - 1)
  }

  /** The operator << of C, without a limit. */
  function Up(a: nat, k: nat): nat
    decreases k
  {
    if k == 0 then a else 2 * Up(a, k - 1)
  }

  /** p ones followed by w - p zeros. */
  function Mask(p: nat, w: nat): nat
    requires p <= w
    decreases w
  {
    if p == w then Pow2(p) - 1 else 2 * Mask(p, w - 1)
  }

  lemma {:induction false} AndDigit(a: nat, b: nat)
    ensures BitAnd(a, b) == (if a % 2 == 1 && b % 2 == 1 then 1 else 0) + 2 * BitAnd(a / 2, b / 2)
  {}

  lemma LastBit(n: nat, bit: nat, rest: nat)
    requires bit <= 1 && n == bit + 2 * rest
    ensures n % 2 == bit && n / 2 == rest
  {}

  lemma {:induction false} AndHalves(a: nat, b: nat)
    ensures BitAnd(a, b) % 2 == 1 <==> a % 2 == 1 && b % 2 == 1
    ensures BitAnd(a, b) / 2 == BitAnd(a / 2, b / 2)
  {
    AndDigit(a, b);
    LastBit(BitAnd(a, b), if a % 2 == 1 && b % 2 == 1 then 1 else 0, BitAnd(a / 2, b / 2));
  }

  /** Every bit of the result is set exactly when it is in both operands. */
  lemma {:induction false} BitAndBits(a: nat, b: nat, i: nat)
    ensures BitAt(BitAnd(a, b), i) <==> BitAt(a, i) && BitAt(b, i)
    decreases i
  {
    AndHalves(a, b);
    if i > 0 {
      BitAndBits(a / 2, b / 2, i - 1);
    }
  }

  /** Numbers of w bits with the same bits are equal. */
  lemma {:induction false} BitsDetermine(a: nat, b: nat, w: nat)
    requires a < Pow2(w) && b < Pow2(w)
    requires forall i :: 0 <= i < w ==> (BitAt(a, i) <==> BitAt(b, i))
    ensures a == b
    decreases w
  {
    if w > 0 {
      assert BitAt(a, 0) <==> BitAt(b, 0);
      forall i | 0 <= i < w - 1 ensures BitAt(a / 2, i) <==> BitAt(b / 2, i) {
        assert BitAt(a, i + 1) <==> BitAt(b, i + 1);
      }
      BitsDetermine(a / 2, b / 2, w - 1);
    }
  }

  lemma {:induction false} AndBound(a: nat, b: nat, w: nat)
    requires b < Pow2(w)
    ensures BitAnd(a, b) < Pow2(w)
    decreases w
  {
    AndDigit(a, b);
    if w == 0 {
      AndZero(a);
    } else {
      AndBound(a / 2, b / 2, w - 1);
    }
  }

  lemma {:induction false} AndZero(a: nat)
    ensures BitAnd(a, 0) == 0
    decreases a
  {
    if a > 0 {
      AndZero(a / 2);
    }
  }

  /** Taking a mask twice is taking it once. */
  lemma {:induction false} AndIdempotent(a: nat, b: nat)
    ensures BitAnd(BitAnd(a, b), b) == BitAnd(a, b)
    decreases a
  {
    if a > 0 {
      var both := BitAnd(a, b);
      AndDigit(a, b);
      AndDigit(both, b);
      assert both / 2 == BitAnd(a / 2, b / 2);
      AndIdempotent(a / 2, b / 2);
    }
  }

  lemma UpDigit(a: nat, c: nat, k: nat)
    requires k > 0
    ensures (Up(a, k) + c) % 2 == c % 2 && (Up(a, k) + c) / 2 == Up(a, k - 1) + c / 2
  {}

  lemma Recombine(n: nat, upper: nat, lower: nat)
    requires n % 2 == lower % 2 && n / 2 == upper + lower / 2
    ensures n == 2 * upper + lower
  {}

  lemma {:induction false} SplitsFrom(a: nat, b: nat, c: nat, d: nat, k: nat)
    requires k > 0
    requires BitAnd(Up(a, k - 1) + c / 2, Up(b, k - 1) + d / 2) == Up(BitAnd(a, b), k - 1) + BitAnd(c / 2, d / 2)
    ensures BitAnd(Up(a, k) + c, Up(b, k) + d) == Up(BitAnd(a, b), k) + BitAnd(c, d)
  {
    UpDigit(a, c, k);
    UpDigit(b, d, k);
    AndHalves(Up(a, k) + c, Up(b, k) + d);
    AndHalves(c, d);
    Recombine(BitAnd(Up(a, k) + c, Up(b, k) + d), Up(BitAnd(a, b), k - 1), BitAnd(c, d));
  }

  /** The and of numbers is that of their upper and lower parts. */
  lemma {:induction false} AndSplits(a: nat, b: nat, c: nat, d: nat, k: nat)
    requires c < Pow2(k) && d < Pow2(k)
    ensures BitAnd(Up(a, k) + c, Up(b, k) + d) == Up(BitAnd(a, b), k) + BitAnd(c, d)
    decreases k
  {
    if k == 0 {
      AndZero(0);
    } else {
      AndSplits(a, b, c / 2, d / 2, k - 1);
      SplitsFrom(a, b, c, d, k);
    }
  }

  // ---------------------------------------------------------------------------------------------
  // Masks
  // ---------------------------------------------------------------------------------------------

  /** The masks of one more bit. */
  lemma MaskStep(p: nat, w: nat)
    requires p <= w
    ensures Mask(p, w + 1) == 2 * Mask(p, w)
    ensures Mask(w + 1, w + 1) == 2 * Mask(w, w) + 1
  {}

  lemma {:induction false} MaskBound(p: nat, w: nat)
    requires p <= w
    ensures Mask(p, w) < Pow2(w)
    decreases w
  {
    if p < w {
      MaskBound(p, w - 1);
      MaskStep(p, w - 1);
    }
  }

  lemma {:induction false} MaskBits(p: nat, w: nat, i: nat)
    requires p <= w && i < w
    ensures BitAt(Mask(p, w), i) <==> i >= w - p
    decreases w
  {
    if p < w {
      MaskStep(p, w - 1);
      if i > 0 {
        MaskBits(p, w - 1, i - 1);
      }
    } else {
      MaskStep(p - 1, w - 1);
      if i > 0 {
        MaskBits(p - 1, w - 1, i - 1);
      }
    }
  }

  /** The upper p of w bits are set and no others. */
  predicate OnesThenZeros(n: nat, p: nat, w: nat) {
    forall i :: 0 <= i < w ==> (BitAt(n, i) <==> i >= w - p)
  }

  /** A number of w bits is a mask exactly when its bits say so. */
  lemma IsMask(n: nat, p: nat, w: nat)
    requires p <= w && n < Pow2(w)
    ensures n == Mask(p, w) <==> OnesThenZeros(n, p, w)
  {
    if n == Mask(p, w) {
      forall i | 0 <= i < w ensures BitAt(n, i) <==> i >= w - p {
        MaskBits(p, w, i);
      }
    }
    if OnesThenZeros(n, p, w) {
      forall i | 0 <= i < w ensures BitAt(n, i) <==> BitAt(Mask(p, w), i) {
        MaskBits(p, w, i);
      }
      MaskBound(p, w);
      BitsDetermine(n, Mask(p, w), w);
    }
  }

  lemma {:induction false} AndOnes(a: nat, w: nat)
    requires a < Pow2(w)
    ensures BitAnd(a, Mask(w, w)) == a
    decreases w
  {
    if w > 0 {
      MaskStep(w - 1, w - 1);
      AndDigit(a, Mask(w, w));
      AndOnes(a / 2, w - 1);
    }
  }

  /** Under the mask of p ones numbers agree exactly when their upper p bits do. */
  lemma {:induction false} MaskedEqual(a: nat, b: nat, p: nat, w: nat)
    requires p <= w && a < Pow2(w) && b < Pow2(w)
    ensures BitAnd(a, Mask(p, w)) == BitAnd(b, Mask(p, w)) <==> Shift(a, w - p) == Shift(b, w - p)
    decreases w
  {
    if p == w {
      AndOnes(a, w);
      AndOnes(b, w);
    } else {
      MaskStep(p, w - 1);
      AndDigit(a, Mask(p, w));
      AndDigit(b, Mask(p, w));
      MaskedEqual(a / 2, b / 2, p, w - 1);
    }
  }

  /** Testing with a single bit. */
  lemma {:induction false} AndPow2(n: nat, i: nat)
    ensures BitAnd(n, Pow2(i)) != 0 <==> BitAt(n, i)
    decreases i
  {
    AndDigit(n, Pow2(i));
    if i == 0 {
      AndZero(n / 2);
    } else {
      AndPow2(n / 2, i - 1);
    }
  }

  lemma Multiples(k: int, d: nat)
    ensures k >= 1 ==> k * d >= d
    ensures k <= -1 ==> k * d + d <= 0
  {}

  lemma DivideUnique(n: nat, d: nat, q: nat, r: nat)
    requires d > 0 && n == q * d + r && r < d
    ensures n / d == q
  {
    var quotient: int := n / d;
    var k: int := quotient - q;
    Multiples(k, d);
    assert quotient * d == q * d + k * d;
  }

  lemma Twice(q: nat, h: nat)
    ensures q * (2 * h) == 2 * (q * h)
  {}

  /** A shift to the right divides. */
  lemma {:induction false} ShiftDivides(a: nat, k: nat)
    ensures Shift(a, k) == a / Pow2(k)
    decreases k
  {
    if k > 0 {
      ShiftDivides(a / 2, k - 1);
      HalfFirst(a, Pow2(k - 1));
    }
  }

  lemma HalfFirst(a: nat, h: nat)
    requires h > 0
    ensures a / 2 / h == a / (2 * h)
  {
    var q, r := a / 2 / h, a / 2 % h;
    Twice(q, h);
    DivideUnique(a, 2 * h, q, 2 * r + a % 2);
  }
}
