/** Facts about Euclidean remainder by a positive period, used to state that
    two coordinates denote the same point of a wrapped axis. */
module WrapArith {

  /** `a` and `b` denote the same point on an axis of period `s`. */
  predicate Congruent(a: int, b: int, s: int)
    requires s > 0
  {
    a % s == b % s
  }

  lemma DivMod(x: int, s: int)
    requires s > 0
    ensures x == (x / s) * s + x % s
    ensures 0 <= x % s < s
  {
  }

  lemma MulStep(k: int, s: int)
    ensures (k + 1) * s == k * s + s
  {
  }

  lemma MulSub(a: int, b: int, s: int)
    ensures a * s - b * s == (a - b) * s
  {
  }

  lemma MulAdd(a: int, b: int, s: int)
    ensures a * s + b * s == (a + b) * s
  {
  }

  lemma MulNeg(k: int, s: int)
    ensures (-k) * s == -(k * s)
  {
  }

  /** A positive multiple of a positive period is at least one period. */
  lemma {:induction false} MulAtLeast(k: int, s: int)
    requires k >= 1 && s > 0
    ensures k * s >= s
  {
    if k > 1 {
      MulAtLeast(k - 1, s);
      MulStep(k - 1, s);
    }
  }

  /** Quotient and remainder are determined by any decomposition whose
      remainder lies in `[0, s)`. */
  lemma DivModUnique(x: int, q: int, r: int, s: int)
    requires s > 0 && 0 <= r < s && x == q * s + r
    ensures x % s == r && x / s == q
  {
    DivMod(x, s);
    var k := q - x / s;
    MulSub(q, x / s, s);
    if k >= 1 {
      MulAtLeast(k, s);
    } else if k <= -1 {
      MulAtLeast(-k, s);
      MulNeg(k, s);
    }
  }

  /** A value in `[0, s)` is its own remainder. */
  lemma ModSmall(x: int, s: int)
    requires 0 <= x < s
    ensures x % s == x
  {
    DivModUnique(x, 0, x, s);
  }

  /** Adding any multiple of the period keeps the point. */
  lemma ModAddMultiple(x: int, k: int, s: int)
    requires s > 0
    ensures Congruent(x + k * s, x, s)
  {
    DivMod(x, s);
    MulAdd(x / s, k, s);
    DivModUnique(x + k * s, x / s + k, x % s, s);
  }

  /** Adding or subtracting one period keeps the point. */
  lemma ModAddPeriod(x: int, s: int)
    requires s > 0
    ensures Congruent(x + s, x, s) && Congruent(x - s, x, s)
  {
    ModAddMultiple(x, 1, s);
    ModAddMultiple(x, -1, s);
  }

  /** Congruent values differ by a whole number of periods. */
  lemma CongruentDiff(a: int, b: int, s: int)
    requires s > 0 && Congruent(a, b, s)
    ensures a - b == (a / s - b / s) * s
  {
    DivMod(a, s);
    DivMod(b, s);
    MulSub(a / s, b / s, s);
  }

  /** Subtracting the same value from two congruent values keeps them
      congruent. */
  lemma CongruentSub(a: int, b: int, c: int, s: int)
    requires s > 0 && Congruent(a, b, s)
    ensures Congruent(a - c, b - c, s)
  {
    CongruentDiff(a, b, s);
    ModAddMultiple(b - c, a / s - b / s, s);
  }

  /** Two congruent values closer together than one period are equal. */
  lemma CongruentClose(a: int, b: int, s: int)
    requires s > 0 && Congruent(a, b, s)
    requires a - b < s && b - a < s
    ensures a == b
  {
    CongruentDiff(a, b, s);
    var k := a / s - b / s;
    if k >= 1 {
      MulAtLeast(k, s);
    } else if k <= -1 {
      MulAtLeast(-k, s);
      MulNeg(k, s);
    }
  }
}
