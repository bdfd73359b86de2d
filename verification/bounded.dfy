/** A value kept inside a closed interval (src/bounded.rs). The scalar
    `T: Num` is modelled as `int`; `value()`, `min()` and `max()` are the
    destructors of `Bounded`. */
module BoundedValue {

  datatype Bounded = Bounded(value: int, min: int, max: int)

  /** `clamp_range(lo..=hi)` of the numeric library the source builds on:
      raise to `lo`, then lower to `hi`. */
  function Clamp(v: int, lo: int, hi: int): (r: int)
    ensures lo <= hi ==> lo <= r <= hi
    ensures lo <= v <= hi ==> r == v
    ensures v < lo && lo <= hi ==> r == lo
    ensures v > hi ==> r == hi
  {
    var raised := if v < lo then lo else v;
    if raised > hi then hi else raised
  }

  /** The interval is well formed and holds the value. */
  predicate Valid(b: Bounded) {
    b.min <= b.value <= b.max
  }

  /** `Bounded::normalized`: clamp the value into the interval. */
  function Normalized(b: Bounded): (r: Bounded)
    ensures r.min == b.min && r.max == b.max
    ensures b.min <= b.max ==> Valid(r)
    ensures Valid(b) ==> r == b
    ensures b.value < b.min <= b.max ==> r.value == b.min
    ensures b.value > b.max ==> r.value == b.max
    ensures b.min > b.max ==> r.value == b.max
  {
    b.(value := Clamp(b.value, b.min, b.max))
  }

  /** `Bounded::new(value, min..=max)`. */
  function New(value: int, min: int, max: int): (r: Bounded)
    ensures r.min == min && r.max == max
    ensures min <= max ==> Valid(r)
    ensures min <= value <= max ==> r.value == value
    ensures value < min && min <= max ==> r.value == min
    ensures value > max ==> r.value == max
    ensures min > max ==> r.value == max
  {
    Normalized(Bounded(value, min, max))
  }

  /** `Bounded::new_max`: the interval `0..=value`, starting full. */
  function NewMax(value: int): (r: Bounded)
    ensures r.min == 0 && r.max == value && r.value == value
  {
    New(value, 0, value)
  }

  /** `Bounded::is_max`: a valid value sits on its upper bound. For a
      non-degenerate interval, an out-of-range value is at the maximum
      exactly when normalising it would put it there. */
  function IsMax(b: Bounded): (r: bool)
    ensures Valid(b) ==> (r <==> b.value == b.max)
    ensures b.min < b.max ==> (r <==> Normalized(b).value == b.max)
  {
    b.value >= b.max
  }

  /** `Bounded::is_min`: a valid value sits on its lower bound. */
  function IsMin(b: Bounded): (r: bool)
    ensures Valid(b) ==> (r <==> b.value == b.min)
    ensures b.min < b.max ==> (r <==> Normalized(b).value == b.min)
  {
    b.value <= b.min
  }

  /** `Bounded::is_above_min`: the negation of `is_min`. */
  function IsAboveMin(b: Bounded): (r: bool)
    ensures r <==> !IsMin(b)
    ensures Valid(b) ==> (r <==> b.value != b.min)
  {
    b.value > b.min
  }

  /** `Bounded::change`: add `delta`, then clamp again. The interval is kept;
      the value moves by `delta` unless it would leave the interval, in which
      case it stops at the bound it crossed. */
  function Change(b: Bounded, delta: int): (r: Bounded)
    ensures r.min == b.min && r.max == b.max
    ensures b.min <= b.max ==> Valid(r)
    ensures b.min <= b.value + delta <= b.max ==> r.value == b.value + delta
    ensures b.value + delta > b.max ==> r.value == b.max
    ensures b.value + delta < b.min && b.min <= b.max ==> r.value == b.min
    ensures b.min > b.max ==> r.value == b.max
  {
    Normalized(b.(value := b.value + delta))
  }

  /** A new full value is at its maximum, and above its minimum unless it is
      zero. */
  lemma NewMaxIsMax(value: int)
    requires value >= 0
    ensures Valid(NewMax(value)) && IsMax(NewMax(value))
    ensures IsAboveMin(NewMax(value)) <==> value > 0
  {
  }

  /** Changes that stay inside the interval compose: two steps equal one
      step by the sum. */
  lemma ChangeCompose(b: Bounded, d1: int, d2: int)
    requires Valid(b)
    requires b.min <= b.value + d1 <= b.max
    ensures Change(Change(b, d1), d2) == Change(b, d1 + d2)
  {
  }

  /** A change that stays inside the interval is undone by the opposite
      change. */
  lemma ChangeUndo(b: Bounded, d: int)
    requires Valid(b) && d >= 0
    requires b.value + d <= b.max
    ensures Change(Change(b, d), -d) == b
  {
  }

  /** Changing is monotone in the delta. */
  lemma ChangeMonotone(b: Bounded, d1: int, d2: int)
    requires b.min <= b.max && d1 <= d2
    ensures Change(b, d1).value <= Change(b, d2).value
  {
  }

  /** The trace of the source's `test_bounded` on `[0, 10]`. */
  lemma TestBounded()
    ensures var b0 := New(0, 0, 10);
            var b1 := Change(b0, 5);
            var b2 := Change(b1, 6);
            var b3 := Change(b2, -11);
            b0.value == 0 && b1.value == 5 && b2.value == 10 && b3.value == 0
  {
  }
}
