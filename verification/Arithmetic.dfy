/** Division, masks and powers of two on naturals. */
module Arithmetic {

  lemma MulMono(a: nat, b: nat, n: nat)
    requires a <= b
    ensures a * n <= b * n
  {
  }

  /** Quotient and remainder are determined by their defining equation. */
  lemma DivUnique(a: nat, n: nat, q: nat, r: nat)
    requires n >= 1 && r < n && a == q * n + r
    ensures a / n == q && a % n == r
  {
    var q', r' := a / n, a % n;
    if q' < q {
      MulMono(q' + 1, q, n);
    } else if q' > q {
      MulMono(q + 1, q', n);
    }
  }

  lemma ModShift(a: nat, n: nat)
    requires n >= 1
    ensures (a + n) % n == a % n
  {
    var q, r := a / n, a % n;
    DivUnique(a + n, n, q + 1, r);
  }

  /** Bitwise conjunction of two naturals, digit by digit. */
  function BitAnd(a: nat, b: nat): nat
    decreases a
  {
    if a == 0 || b == 0 then 0
    else (if a % 2 == 1 && b % 2 == 1 then 1 else 0) + 2 * BitAnd(a / 2, b / 2)
  }

  function Pow(t: nat, h: nat): (p: nat)
    ensures t >= 1 ==> p >= 1
  {
    if h == 0 then 1 else t * Pow(t, h - 1)
  }

  lemma ModOfDouble(pos: nat, half: nat)
    requires half >= 1
    ensures pos % (2 * half) == 2 * ((pos / 2) % half) + pos % 2
  {
    var h := pos / 2;
    var q, r := h / half, h % half;
    DivUnique(pos, 2 * half, q, 2 * r + pos % 2);
  }

  lemma PowStep(t: nat, h: nat)
    ensures Pow(t, 0) == 1 && Pow(t, h + 1) == t * Pow(t, h)
  {
  }

  lemma BitAndZero(a: nat)
    ensures BitAnd(a, 0) == 0 && BitAnd(0, a) == 0
  {
  }

  /** Masking with a power of two less one is the remainder. */
  lemma {:induction false} MaskIsRemainder(a: nat, k: nat)
    ensures BitAnd(a, Pow(2, k) - 1) == a % Pow(2, k)
    decreases k
  {
    hide BitAnd, Pow;
    if k == 0 {
      PowStep(2, 0);
      BitAndZero(a);
    } else if a == 0 {
      BitAndZero(Pow(2, k) - 1);
      DivUnique(0, Pow(2, k), 0, 0);
    } else {
      PowStep(2, k - 1);
      MaskIsRemainder(a / 2, k - 1);
      MaskDouble(a, Pow(2, k - 1), Pow(2, k));
    }
  }

  lemma BitAndStep(a: nat, b: nat)
    requires a > 0 && b % 2 == 1
    ensures BitAnd(a, b) == a % 2 + 2 * BitAnd(a / 2, b / 2)
  {
  }

  lemma MaskDouble(a: nat, half: nat, n: nat)
    requires a > 0 && half >= 1 && n == 2 * half && BitAnd(a / 2, half - 1) == (a / 2) % half
    ensures BitAnd(a, n - 1) == a % n
  {
    hide BitAnd;
    ModOfDouble(a, half);
    assert (n - 1) / 2 == half - 1 && (n - 1) % 2 == 1;
    BitAndStep(a, n - 1);
  }
}
