/** Placing and fitting axis-aligned boxes (src/layout.rs). The source's
    `T: Float` is modelled as `real`, exact rational arithmetic; division by
    zero, the one source of infinities and NaN here, is modelled apart. */
module Layout {

  /** A vector of the layout's float scalar; the torus has its own integer
      `Vec2`, because the two parts of the library use different scalars. */
  datatype Vec2 = Vec2(x: real, y: real) {
    function Plus(o: Vec2): Vec2 { Vec2(x + o.x, y + o.y) }
    function Minus(o: Vec2): Vec2 { Vec2(x - o.x, y - o.y) }
    /** Component-wise product, as `vec2 * vec2` in the source. */
    function Times(o: Vec2): Vec2 { Vec2(x * o.x, y * o.y) }
    function Scale(k: real): Vec2 { Vec2(x * k, y * k) }
    function Negated(): Vec2 { Vec2(-x, -y) }
  }

  /** `Aabb2`: the box between two corners. */
  datatype Aabb = Aabb(min: Vec2, max: Vec2) {
    function Size(): Vec2 { max.Minus(min) }
    function Width(): real { max.x - min.x }
    function Height(): real { max.y - min.y }
    /** Grow by `v` on every side (shrink when `v` is negative). */
    function ExtendSymmetric(v: Vec2): Aabb { Aabb(min.Minus(v), max.Plus(v)) }
  }

  /** `Aabb2::point`: the empty box at `p`. */
  function Point(p: Vec2): Aabb { Aabb(p, p) }

  /** `inner` lies within `outer`. */
  predicate Inside(inner: Aabb, outer: Aabb) {
    && outer.min.x <= inner.min.x && inner.max.x <= outer.max.x
    && outer.min.y <= inner.min.y && inner.max.y <= outer.max.y
  }

  /** Each component of `v` lies in `[0, 1]`. */
  predicate UnitAlign(v: Vec2) { 0.0 <= v.x <= 1.0 && 0.0 <= v.y <= 1.0 }

  /** `aabb_pos`: the point of `aabb` at relative position `align`. */
  function AabbPos(aabb: Aabb, align: Vec2): (r: Vec2)
    ensures align == Vec2(0.0, 0.0) ==> r == aabb.min
    ensures align == Vec2(1.0, 1.0) ==> r == aabb.max
  {
    aabb.min.Plus(aabb.Size().Times(align))
  }

  /** `align_aabb`: a box of the given size, placed inside `aabb` so that the
      free space is split `align : 1 - align` on each axis. Written in closed
      form; `AlignAabbSteps` shows that it is the source's construction. */
  function AlignAabb(size: Vec2, aabb: Aabb, align: Vec2): (r: Aabb)
    ensures r.Size() == size
    ensures r.min.x == aabb.min.x + (aabb.Width() - size.x) * align.x
    ensures r.min.y == aabb.min.y + (aabb.Height() - size.y) * align.y
  {
    var start := Vec2(aabb.min.x + (aabb.Width() - size.x) * align.x,
                      aabb.min.y + (aabb.Height() - size.y) * align.y);
    Aabb(start, start.Plus(size))
  }

  /** The source builds `align_aabb` in three steps: shrink `aabb` by half
      the size on every side, take the aligned point of what remains, and
      grow that point by half the size again. The result is `AlignAabb`. */
  lemma AlignAabbSteps(size: Vec2, aabb: Aabb, align: Vec2)
    ensures
      var half := 0.5;
      var posAabb := aabb.ExtendSymmetric(size.Negated().Scale(half));
      Point(AabbPos(posAabb, align)).ExtendSymmetric(size.Scale(half))
      == AlignAabb(size, aabb, align)
  {
    var half := 0.5;
    var posAabb := aabb.ExtendSymmetric(size.Negated().Scale(half));
    var gx, gy := aabb.Width() - size.x, aabb.Height() - size.y;
    var px, py := gx * align.x, gy * align.y;
    assert posAabb.Size() == Vec2(gx, gy);
    assert AabbPos(posAabb, align)
        == Vec2(aabb.min.x + size.x * half + px, aabb.min.y + size.y * half + py);
  }

  datatype Option<T> = None | Some(value: T)

  /** A floating-point quotient: a finite value, an infinity, or NaN. */
  datatype Quotient = Finite(value: real) | PosInf | NegInf | NaN

  /** Floating-point division `a / b`. Only a zero divisor leaves the finite
      values; it is taken as `+0`. */
  function Divide(a: real, b: real): (q: Quotient)
    ensures q.Finite? <==> b != 0.0
    ensures q.Finite? ==> q.value * b == a
    ensures b == 0.0 ==> (q == NaN <==> a == 0.0) && (q == PosInf <==> a > 0.0)
  {
    if b != 0.0 then Finite(a / b)
    else if a > 0.0 then PosInf
    else if a < 0.0 then NegInf
    else NaN
  }

  /** Floating-point `p < q`: false whenever NaN takes part. */
  predicate Less(p: Quotient, q: Quotient) {
    match (p, q)
    case (Finite(a), Finite(b)) => a < b
    case (NegInf, Finite(_)) => true
    case (NegInf, PosInf) => true
    case (Finite(_), PosInf) => true
    case _ => false
  }

  /** The scale factor of `fit_aabb` is finite: both components of `size`
      are non-zero, or one is zero and the infinite (or, for x, NaN) ratio
      on that axis loses the `<` comparison to the finite one. */
  predicate FitFinite(size: Vec2, aabb: Aabb) {
    || (size.x != 0.0 && size.y != 0.0)
    || (size.x == 0.0 && size.y != 0.0 && aabb.Width() >= 0.0)
    || (size.x != 0.0 && size.y == 0.0 && aabb.Height() > 0.0)
  }

  /** The scale factor of `fit_aabb`: `ratio.x` if `ratio.x < ratio.y`,
      otherwise `ratio.y`, with floating-point division and comparison. */
  function FitRatio(size: Vec2, aabb: Aabb): (k: Quotient)
    ensures k.Finite? <==> FitFinite(size, aabb)
    ensures size.x != 0.0 && size.y != 0.0 ==>
              && (k.value == aabb.Width() / size.x || k.value == aabb.Height() / size.y)
              && k.value <= aabb.Width() / size.x && k.value <= aabb.Height() / size.y
    ensures size.x == 0.0 && size.y != 0.0 && aabb.Width() >= 0.0 ==>
              k.value == aabb.Height() / size.y
    ensures size.x != 0.0 && size.y == 0.0 && aabb.Height() > 0.0 ==>
              k.value == aabb.Width() / size.x
  {
    var rx, ry := Divide(aabb.Width(), size.x), Divide(aabb.Height(), size.y);
    if Less(rx, ry) then rx else ry
  }

  /** `fit_aabb`: scale `size` uniformly to the largest box that fits, and
      align it inside `aabb`. `None` stands for the box with infinite or NaN
      coordinates that the source computes when the scale factor is not
      finite. */
  function FitAabb(size: Vec2, aabb: Aabb, align: Vec2): (r: Option<Aabb>)
    ensures r.Some? <==> FitFinite(size, aabb)
    ensures r.Some? ==> r.value.Width() * size.y == r.value.Height() * size.x
    ensures r.Some? ==> r.value.min.x == aabb.min.x + (aabb.Width() - r.value.Width()) * align.x
    ensures r.Some? ==> r.value.min.y == aabb.min.y + (aabb.Height() - r.value.Height()) * align.y
    ensures size.x > 0.0 && size.y > 0.0 ==>
              && r.Some?
              && r.value.Width() <= aabb.Width() && r.value.Height() <= aabb.Height()
              && (r.value.Width() == aabb.Width() || r.value.Height() == aabb.Height())
    ensures size.x == 0.0 && size.y != 0.0 && aabb.Width() >= 0.0 ==>
              r.Some? && r.value.Width() == 0.0 && r.value.Height() == aabb.Height()
    ensures size.x != 0.0 && size.y == 0.0 && aabb.Height() > 0.0 ==>
              r.Some? && r.value.Height() == 0.0 && r.value.Width() == aabb.Width()
  {
    match FitRatio(size, aabb)
    case Finite(k) =>
      FitScale(size, aabb, k);
      Some(AlignAabb(size.Scale(k), aabb, align))
    case _ => None
  }

  /** `fit_aabb_width`: scale `size` so that its width is the width of
      `aabb`; it spans `aabb` horizontally and is aligned vertically. `None`
      stands for the NaN box a zero `size.x` gives. */
  function FitAabbWidth(size: Vec2, aabb: Aabb, align: real): (r: Option<Aabb>)
    ensures r.Some? <==> size.x != 0.0
    ensures r.Some? ==> r.value.min.x == aabb.min.x && r.value.max.x == aabb.max.x
    ensures r.Some? ==> r.value.Height() * size.x == size.y * aabb.Width()
    ensures r.Some? ==> r.value.min.y == aabb.min.y + (aabb.Height() - r.value.Height()) * align
  {
    match Divide(aabb.Width(), size.x)
    case Finite(ratio) => Some(AlignAabb(size.Scale(ratio), aabb, Vec2(0.0, align)))
    case _ => None
  }

  /** `fit_aabb_height`: scale `size` so that its height is the height of
      `aabb`; it spans `aabb` vertically and is aligned horizontally. `None`
      stands for the NaN box a zero `size.y` gives. */
  function FitAabbHeight(size: Vec2, aabb: Aabb, align: real): (r: Option<Aabb>)
    ensures r.Some? <==> size.y != 0.0
    ensures r.Some? ==> r.value.min.y == aabb.min.y && r.value.max.y == aabb.max.y
    ensures r.Some? ==> r.value.Width() * size.y == size.x * aabb.Height()
    ensures r.Some? ==> r.value.min.x == aabb.min.x + (aabb.Width() - r.value.Width()) * align
  {
    match Divide(aabb.Height(), size.y)
    case Finite(ratio) => Some(AlignAabb(size.Scale(ratio), aabb, Vec2(align, 0.0)))
    case _ => None
  }

  // ---------------------------------------------------------------------
  // Containment

  /** One axis: `lo + w * t` lies in `[lo, lo + w]` for `t` in `[0, 1]`. */
  lemma AxisInside(lo: real, w: real, t: real)
    requires 0.0 <= w && 0.0 <= t <= 1.0
    ensures lo <= lo + w * t
    ensures lo + w * t <= lo + w
  {
    assert w * t <= w * 1.0;
  }

  /** An alignment in `[0, 1]` picks a point of a non-empty box. */
  lemma AabbPosInside(aabb: Aabb, align: Vec2)
    requires aabb.min.x <= aabb.max.x && aabb.min.y <= aabb.max.y
    requires UnitAlign(align)
    ensures Inside(Point(AabbPos(aabb, align)), aabb)
  {
    var r := AabbPos(aabb, align);
    var w, h := aabb.Width(), aabb.Height();
    var px, py := w * align.x, h * align.y;
    assert r == Vec2(aabb.min.x + px, aabb.min.y + py);
    AxisInside(aabb.min.x, w, align.x);
    assert aabb.min.x <= aabb.min.x + px <= aabb.min.x + w;
    AxisInside(aabb.min.y, h, align.y);
    assert aabb.min.y <= aabb.min.y + py <= aabb.min.y + h;
  }

  /** A box no larger than `aabb`, aligned with factors in `[0, 1]`, lies
      within `aabb`. */
  lemma AlignAabbInside(size: Vec2, aabb: Aabb, align: Vec2)
    requires UnitAlign(align)
    requires size.x <= aabb.Width() && size.y <= aabb.Height()
    ensures Inside(AlignAabb(size, aabb, align), aabb)
  {
    var r := AlignAabb(size, aabb, align);
    var gx, gy := aabb.Width() - size.x, aabb.Height() - size.y;
    var px, py := gx * align.x, gy * align.y;
    assert r.min == Vec2(aabb.min.x + px, aabb.min.y + py);
    assert r.max == Vec2(r.min.x + size.x, r.min.y + size.y);
    AxisInside(aabb.min.x, gx, align.x);
    assert aabb.min.x <= aabb.min.x + px <= aabb.min.x + gx;
    AxisInside(aabb.min.y, gy, align.y);
    assert aabb.min.y <= aabb.min.y + py <= aabb.min.y + gy;
  }

  /** The box `fit_aabb` produces for a positive size lies within `aabb`
      when aligned with factors in `[0, 1]`. */
  lemma FitAabbInside(size: Vec2, aabb: Aabb, align: Vec2)
    requires size.x > 0.0 && size.y > 0.0
    requires UnitAlign(align)
    ensures FitAabb(size, aabb, align).Some?
    ensures Inside(FitAabb(size, aabb, align).value, aabb)
  {
    var k := FitRatio(size, aabb).value;
    FitAxis(size.x, aabb.Width(), k);
    FitAxis(size.y, aabb.Height(), k);
    AlignAabbInside(size.Scale(k), aabb, align);
  }

  /** The size `fit_aabb` gives for a finite scale factor `k`: the aspect
      ratio is kept; a positive size fits and matches one side of `aabb`; a
      zero component stays zero while the other side matches `aabb`. */
  lemma FitScale(size: Vec2, aabb: Aabb, k: real)
    requires FitRatio(size, aabb) == Finite(k)
    ensures (size.x * k) * size.y == (size.y * k) * size.x
    ensures size.x > 0.0 && size.y > 0.0 ==>
              && size.x * k <= aabb.Width() && size.y * k <= aabb.Height()
              && (size.x * k == aabb.Width() || size.y * k == aabb.Height())
    ensures size.x == 0.0 ==> size.x * k == 0.0 && size.y * k == aabb.Height()
    ensures size.y == 0.0 ==> size.y * k == 0.0 && size.x * k == aabb.Width()
  {
    if size.x != 0.0 && size.y != 0.0 {
      FitAxis(size.x, aabb.Width(), k);
      FitAxis(size.y, aabb.Height(), k);
    } else if size.x == 0.0 {
      FitAxis(size.y, aabb.Height(), k);
    } else {
      FitAxis(size.x, aabb.Width(), k);
    }
  }

  /** One axis of `fit_aabb`: scaling by a ratio at most `w / s` stays within
      `w`, and the ratio `w / s` itself gives exactly `w`. */
  lemma FitAxis(s: real, w: real, k: real)
    requires s != 0.0
    ensures s > 0.0 && k <= w / s ==> s * k <= w
    ensures k == w / s ==> s * k == w
  {
  }

  /** A unit square fitted into the wide box `[(0, 0), (10, 5)]` becomes a
      5 by 5 square that slides along x with the alignment. */
  lemma FitUnitIntoWide(t: real)
    ensures FitAabb(Vec2(1.0, 1.0), Aabb(Vec2(0.0, 0.0), Vec2(10.0, 5.0)), Vec2(t, t))
            == Some(Aabb(Vec2(5.0 * t, 0.0), Vec2(5.0 * t + 5.0, 5.0)))
  {
    var one, wide := Vec2(1.0, 1.0), Aabb(Vec2(0.0, 0.0), Vec2(10.0, 5.0));
    assert Divide(wide.Width(), one.x) == Finite(10.0);
    assert Divide(wide.Height(), one.y) == Finite(5.0);
    assert FitRatio(one, wide) == Finite(5.0);
    var r := AlignAabb(Vec2(5.0, 5.0), wide, Vec2(t, t));
    assert r.min == Vec2(5.0 * t, 0.0);
  }

  /** A unit square fitted into the tall box `[(0, 0), (5, 10)]` becomes a
      5 by 5 square that slides along y with the alignment. */
  lemma FitUnitIntoTall(t: real)
    ensures FitAabb(Vec2(1.0, 1.0), Aabb(Vec2(0.0, 0.0), Vec2(5.0, 10.0)), Vec2(t, t))
            == Some(Aabb(Vec2(0.0, 5.0 * t), Vec2(5.0, 5.0 * t + 5.0)))
  {
    var one, tall := Vec2(1.0, 1.0), Aabb(Vec2(0.0, 0.0), Vec2(5.0, 10.0));
    assert Divide(tall.Width(), one.x) == Finite(5.0);
    assert Divide(tall.Height(), one.y) == Finite(10.0);
    assert FitRatio(one, tall) == Finite(5.0);
    var r := AlignAabb(Vec2(5.0, 5.0), tall, Vec2(t, t));
    assert r.min == Vec2(0.0, 5.0 * t);
  }

  /** A zero-width size in the wide box `[(0, 0), (10, 5)]`: the x ratio is
      infinite, loses the comparison, and the result is a finite zero-width
      box of full height that slides along x with the alignment. */
  lemma FitZeroWidthIntoWide(t: real)
    ensures FitAabb(Vec2(0.0, 1.0), Aabb(Vec2(0.0, 0.0), Vec2(10.0, 5.0)), Vec2(t, t))
            == Some(Aabb(Vec2(10.0 * t, 0.0), Vec2(10.0 * t, 5.0)))
  {
    var size, wide := Vec2(0.0, 1.0), Aabb(Vec2(0.0, 0.0), Vec2(10.0, 5.0));
    assert Divide(wide.Width(), size.x) == PosInf;
    assert Divide(wide.Height(), size.y) == Finite(5.0);
    assert FitRatio(size, wide) == Finite(5.0);
    assert AlignAabb(Vec2(0.0, 5.0), wide, Vec2(t, t)).min == Vec2(10.0 * t, 0.0);
  }

  /** The comparison treats the axes differently when a box is flat: a
      zero-width size in a zero-width box still fits (NaN loses `<` as the
      left operand), but a zero-height size in a zero-height box does not
      (NaN is then chosen as the right operand). */
  lemma FitFlatAsymmetry()
    ensures FitAabb(Vec2(0.0, 1.0), Aabb(Vec2(0.0, 0.0), Vec2(0.0, 5.0)), Vec2(0.0, 0.0)).Some?
    ensures FitAabb(Vec2(1.0, 0.0), Aabb(Vec2(0.0, 0.0), Vec2(5.0, 0.0)), Vec2(0.0, 0.0)) == None
  {
  }

  /** The vectors of the source's `test_fit_aabb` in the wide box
      `[(0, 0), (10, 5)]`: alignment 0, 0.5 and 1. */
  lemma TestFitAabbWide()
    ensures FitAabb(Vec2(1.0, 1.0), Aabb(Vec2(0.0, 0.0), Vec2(10.0, 5.0)), Vec2(0.0, 0.0))
            == Some(Aabb(Vec2(0.0, 0.0), Vec2(5.0, 5.0)))
    ensures FitAabb(Vec2(1.0, 1.0), Aabb(Vec2(0.0, 0.0), Vec2(10.0, 5.0)), Vec2(0.5, 0.5))
            == Some(Aabb(Vec2(2.5, 0.0), Vec2(7.5, 5.0)))
    ensures FitAabb(Vec2(1.0, 1.0), Aabb(Vec2(0.0, 0.0), Vec2(10.0, 5.0)), Vec2(1.0, 1.0))
            == Some(Aabb(Vec2(5.0, 0.0), Vec2(10.0, 5.0)))
  {
    forall t | t == 0.0 || t == 0.5 || t == 1.0 {
      FitUnitIntoWide(t);
    }
  }

  /** The vectors of the source's `test_fit_aabb` in the tall box
      `[(0, 0), (5, 10)]`: alignment 0, 0.5 and 1. */
  lemma TestFitAabbTall()
    ensures FitAabb(Vec2(1.0, 1.0), Aabb(Vec2(0.0, 0.0), Vec2(5.0, 10.0)), Vec2(0.0, 0.0))
            == Some(Aabb(Vec2(0.0, 0.0), Vec2(5.0, 5.0)))
    ensures FitAabb(Vec2(1.0, 1.0), Aabb(Vec2(0.0, 0.0), Vec2(5.0, 10.0)), Vec2(0.5, 0.5))
            == Some(Aabb(Vec2(0.0, 2.5), Vec2(5.0, 7.5)))
    ensures FitAabb(Vec2(1.0, 1.0), Aabb(Vec2(0.0, 0.0), Vec2(5.0, 10.0)), Vec2(1.0, 1.0))
            == Some(Aabb(Vec2(0.0, 5.0), Vec2(5.0, 10.0)))
  {
    forall t | t == 0.0 || t == 0.5 || t == 1.0 {
      FitUnitIntoTall(t);
    }
  }
}
