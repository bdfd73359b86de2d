/** A position on a torus: a 2D coordinate on a plane that wraps around on
    both axes (src/torus/position.rs). The generic scalar `T: Num` of the
    source is modelled as `int`; `to_world()` and `world_size()` are the
    destructors `pos` and `worldSize` of `Position`. */
module TorusPosition {

  import opened WrapArith

  /** A vector of the torus's integer scalar; the layout has its own `Vec2`
      over `real`. */
  datatype Vec2 = Vec2(x: int, y: int) {
    function Plus(other: Vec2): Vec2 { Vec2(x + other.x, y + other.y) }
    function Minus(other: Vec2): Vec2 { Vec2(x - other.x, y - other.y) }
    function Negated(): Vec2 { Vec2(-x, -y) }
  }

  /** `pos` is the stored coordinate, `worldSize` the period of each axis. */
  datatype Position = Position(pos: Vec2, worldSize: Vec2)

  function Abs(v: int): nat { if v < 0 then -v else v }

  function Signum(v: int): int { if v > 0 then 1 else if v < 0 then -1 else 0 }

  /** Both axes have a strictly positive period. */
  predicate ValidSize(ws: Vec2) { ws.x > 0 && ws.y > 0 }

  /** The normalised range: each coordinate lies in the CLOSED interval
      `[0, worldSize]`, so the upper bound is a legal coordinate too. */
  predicate Canonical(p: Position) {
    0 <= p.pos.x <= p.worldSize.x && 0 <= p.pos.y <= p.worldSize.y
  }

  /** The loop `while v < 0 { v += s }` halts. */
  predicate RaiseHalts(v: int, s: int) { s > 0 || v >= 0 }

  /** The loop `while v > s { v -= s }` halts. */
  predicate LowerHalts(v: int, s: int) { s > 0 || v <= s }

  /** Both loops of one axis halt, one after the other: the period is
      positive, or period and coordinate are both zero. */
  predicate AxisHalts(v: int, s: int) { s > 0 || (v == 0 && s == 0) }

  /** The first loop of one axis of `from_world`: add the period while the
      coordinate is negative. */
  function RaiseAxis(v: int, s: int): (r: int)
    requires RaiseHalts(v, s)
    ensures r >= 0
    ensures s > 0 ==> Congruent(r, v, s)
    ensures v < 0 ==> r < s
    ensures v >= 0 ==> r == v
    decreases -v
  {
    if v < 0 then
      ModAddPeriod(v, s);
      RaiseAxis(v + s, s)
    else
      v
  }

  /** The second loop of one axis of `from_world`: subtract the period while
      the coordinate exceeds it. */
  function LowerAxis(v: int, s: int): (r: int)
    requires LowerHalts(v, s)
    ensures r <= s
    ensures s > 0 ==> Congruent(r, v, s)
    ensures v > s ==> r > 0
    ensures v <= s ==> r == v
    decreases v - s
  {
    if v > s then
      ModAddPeriod(v, s);
      LowerAxis(v - s, s)
    else
      v
  }

  /** One axis of `from_world`: a value in `[0, s]` denoting the same point. */
  function NormAxis(v: int, s: int): (r: int)
    requires AxisHalts(v, s)
    ensures 0 <= r <= s
    ensures s > 0 ==> Congruent(r, v, s)
    ensures 0 <= v <= s ==> r == v
  {
    LowerAxis(RaiseAxis(v, s), s)
  }

  /** `PositionTorus::from_world`: normalise a raw coordinate onto the torus.
      The source normalises y before x; the axes do not interact. */
  function FromWorld(pos: Vec2, ws: Vec2): (r: Position)
    requires AxisHalts(pos.x, ws.x) && AxisHalts(pos.y, ws.y)
    ensures r.worldSize == ws
    ensures Canonical(r)
    ensures ws.x > 0 ==> Congruent(r.pos.x, pos.x, ws.x)
    ensures ws.y > 0 ==> Congruent(r.pos.y, pos.y, ws.y)
    ensures Canonical(Position(pos, ws)) ==> r.pos == pos
  {
    Position(Vec2(NormAxis(pos.x, ws.x), NormAxis(pos.y, ws.y)), ws)
  }

  /** `PositionTorus::zero`. */
  function Zero(ws: Vec2): (r: Position)
    requires ws.x >= 0 && ws.y >= 0
    ensures r.pos == Vec2(0, 0) && r.worldSize == ws
    ensures Canonical(r)
  {
    FromWorld(Vec2(0, 0), ws)
  }

  /** One axis of `delta_to`: if the direct way is strictly longer than half
      the period, go the other way round. */
  function DeltaAxis(d: int, s: int): (r: int)
    ensures s > 0 ==> Congruent(r, d, s)
    ensures Abs(d) <= s ==> Abs(r) * 2 <= s
    ensures Abs(d) * 2 <= s ==> r == d
  {
    if Abs(d) * 2 > s then
      StepBack(d, s);
      d - s * Signum(d)
    else
      d
  }

  /** `PositionTorus::delta_to`: the shortest displacement from `a` to `b`.
      The source panics when the two world sizes differ. */
  function DeltaTo(a: Position, b: Position): (r: Vec2)
    requires a.worldSize == b.worldSize
    ensures a.worldSize.x > 0 ==> Congruent(r.x, b.pos.x - a.pos.x, a.worldSize.x)
    ensures a.worldSize.y > 0 ==> Congruent(r.y, b.pos.y - a.pos.y, a.worldSize.y)
    ensures Canonical(a) && Canonical(b) ==>
              Abs(r.x) * 2 <= a.worldSize.x && Abs(r.y) * 2 <= a.worldSize.y
    ensures Abs(b.pos.x - a.pos.x) * 2 <= a.worldSize.x ==> r.x == b.pos.x - a.pos.x
    ensures Abs(b.pos.y - a.pos.y) * 2 <= a.worldSize.y ==> r.y == b.pos.y - a.pos.y
  {
    var d := b.pos.Minus(a.pos);
    Vec2(DeltaAxis(d.x, a.worldSize.x), DeltaAxis(d.y, a.worldSize.y))
  }

  /** `PositionTorus::as_dir`: the displacement from the zero position. For a
      canonical position a coordinate past the middle maps to its negative
      equivalent. */
  function AsDir(p: Position): (r: Vec2)
    requires p.worldSize.x >= 0 && p.worldSize.y >= 0
    ensures Canonical(p) ==>
              r.x == (if p.pos.x * 2 > p.worldSize.x then p.pos.x - p.worldSize.x else p.pos.x)
    ensures Canonical(p) ==>
              r.y == (if p.pos.y * 2 > p.worldSize.y then p.pos.y - p.worldSize.y else p.pos.y)
  {
    DeltaTo(Zero(p.worldSize), p)
  }

  /** `from_world` can be asked for a shifted coordinate of `p`. */
  predicate CanShift(p: Position, d: Vec2) {
    AxisHalts(p.pos.x + d.x, p.worldSize.x) && AxisHalts(p.pos.y + d.y, p.worldSize.y)
  }

  /** `PositionTorus::shifted`: move by `d` and normalise again. */
  function Shifted(p: Position, d: Vec2): (r: Position)
    requires CanShift(p, d)
    ensures r.worldSize == p.worldSize
    ensures Canonical(r)
    ensures p.worldSize.x > 0 ==> Congruent(r.pos.x, p.pos.x + d.x, p.worldSize.x)
    ensures p.worldSize.y > 0 ==> Congruent(r.pos.y, p.pos.y + d.y, p.worldSize.y)
  {
    FromWorld(p.pos.Plus(d), p.worldSize)
  }

  /** `PositionTorus::shift`: the in-place variant; the updated `self` is
      returned. */
  method Shift(p: Position, d: Vec2) returns (moved: Position)
    requires CanShift(p, d)
    ensures moved == Shifted(p, d)
    ensures moved.worldSize == p.worldSize && Canonical(moved)
  {
    moved := Shifted(p, d);
  }

  // ---------------------------------------------------------------------
  // One axis

  /** Going one period back against the direction of `d` reaches the same
      point. */
  lemma StepBack(d: int, s: int)
    ensures s > 0 ==> Congruent(d - s * Signum(d), d, s)
  {
    if s > 0 {
      ModAddPeriod(d, s);
    }
  }

  /** The value `from_world` produces on one axis, by remainder instead of
      by repeated addition and subtraction: a positive multiple of the
      period goes to the period itself, not to zero. */
  lemma NormAxisByRemainder(v: int, s: int)
    requires s > 0
    ensures NormAxis(v, s) == (if v > 0 && v % s == 0 then s else v % s)
  {
    var r := NormAxis(v, s);
    if r < s {
      ModSmall(r, s);
    } else {
      DivModUnique(s, 1, 0, s);
    }
  }

  /** Canonical coordinates of the same point agree, except that `0` and the
      period itself both stand for the origin of the axis. */
  lemma CanonicalAxisPoint(a: int, b: int, s: int)
    requires s > 0 && 0 <= a <= s && 0 <= b <= s
    requires Congruent(a, b, s)
    ensures a == b || (a == 0 && b == s) || (a == s && b == 0)
  {
    if Abs(a - b) < s {
      CongruentClose(a, b, s);
    }
  }

  /** The one-axis `delta_to` is never longer than any other displacement
      that reaches the same point. */
  lemma DeltaAxisShortest(d: int, s: int, e: int)
    requires s > 0 && Abs(d) <= s
    requires Congruent(e, d, s)
    ensures Abs(DeltaAxis(d, s)) <= Abs(e)
  {
    var r := DeltaAxis(d, s);
    if Abs(e) < Abs(r) {
      CongruentClose(e, r, s);
    }
  }

  // ---------------------------------------------------------------------
  // Properties of positions

  /** Normalising a normalised position changes nothing. */
  lemma FromWorldIdempotent(pos: Vec2, ws: Vec2)
    requires AxisHalts(pos.x, ws.x) && AxisHalts(pos.y, ws.y)
    ensures FromWorld(FromWorld(pos, ws).pos, ws) == FromWorld(pos, ws)
  {
  }

  /** Raw coordinates that denote the same point normalise to the same
      canonical position, up to the `0`/period ambiguity of each axis. */
  lemma FromWorldSamePoint(p: Vec2, q: Vec2, ws: Vec2)
    requires ValidSize(ws)
    requires Congruent(p.x, q.x, ws.x) && Congruent(p.y, q.y, ws.y)
    ensures var a, b := FromWorld(p, ws).pos, FromWorld(q, ws).pos;
            (a.x == b.x || Abs(a.x - b.x) == ws.x) && (a.y == b.y || Abs(a.y - b.y) == ws.y)
  {
    var a, b := FromWorld(p, ws).pos, FromWorld(q, ws).pos;
    CanonicalAxisPoint(a.x, b.x, ws.x);
    CanonicalAxisPoint(a.y, b.y, ws.y);
  }

  /** The delta from `b` to `a` is the delta from `a` to `b` reversed, at an
      exact half-world tie too: the correction `s * signum(d)` follows the
      sign of the difference, whichever way the half-period test breaks. */
  lemma DeltaAntisymmetric(a: Position, b: Position)
    requires a.worldSize == b.worldSize
    ensures DeltaTo(b, a) == DeltaTo(a, b).Negated()
  {
  }

  /** Between canonical positions `delta_to` is a shortest displacement: no
      other vector reaching `b` from `a` is shorter on either axis. */
  lemma DeltaToShortest(a: Position, b: Position, e: Vec2)
    requires a.worldSize == b.worldSize && ValidSize(a.worldSize)
    requires Canonical(a) && Canonical(b)
    requires Congruent(a.pos.x + e.x, b.pos.x, a.worldSize.x)
    requires Congruent(a.pos.y + e.y, b.pos.y, a.worldSize.y)
    ensures Abs(DeltaTo(a, b).x) <= Abs(e.x) && Abs(DeltaTo(a, b).y) <= Abs(e.y)
  {
    var d := b.pos.Minus(a.pos);
    CongruentSub(a.pos.x + e.x, b.pos.x, a.pos.x, a.worldSize.x);
    assert (a.pos.x + e.x) - a.pos.x == e.x;
    CongruentSub(a.pos.y + e.y, b.pos.y, a.pos.y, a.worldSize.y);
    assert (a.pos.y + e.y) - a.pos.y == e.y;
    DeltaAxisShortest(d.x, a.worldSize.x, e.x);
    DeltaAxisShortest(d.y, a.worldSize.y, e.y);
  }

  /** A move shorter than half the world on each axis is recovered exactly by
      `delta_to` from the start to the shifted position. */
  lemma ShiftedDeltaRoundTrip(p: Position, d: Vec2)
    requires ValidSize(p.worldSize) && Canonical(p)
    requires Abs(d.x) * 2 < p.worldSize.x && Abs(d.y) * 2 < p.worldSize.y
    ensures DeltaTo(p, Shifted(p, d)) == d
  {
    var q := Shifted(p, d);
    var r := DeltaTo(p, q);
    var s := p.worldSize;
    CongruentSub(q.pos.x, p.pos.x + d.x, p.pos.x, s.x);
    assert (p.pos.x + d.x) - p.pos.x == d.x;
    CongruentClose(r.x, d.x, s.x);
    CongruentSub(q.pos.y, p.pos.y + d.y, p.pos.y, s.y);
    assert (p.pos.y + d.y) - p.pos.y == d.y;
    CongruentClose(r.y, d.y, s.y);
  }

  /** The zero position and `as_dir`, and the boundary case: the far edge of
      an axis is kept as is, and is zero steps away from the origin. */
  lemma ZeroAndEdge(ws: Vec2)
    requires ValidSize(ws)
    ensures AsDir(Zero(ws)) == Vec2(0, 0)
    ensures FromWorld(ws, ws).pos == ws
    ensures FromWorld(Vec2(-ws.x, -ws.y), ws).pos == Vec2(0, 0)
    ensures AsDir(FromWorld(ws, ws)) == Vec2(0, 0)
  {
    NormAxisByRemainder(-ws.x, ws.x);
    NormAxisByRemainder(-ws.y, ws.y);
  }

  /** The vectors of the source's `test_delta`. */
  lemma TestDelta()
    ensures var ws := Vec2(20, 10);
            var a := FromWorld(Vec2(15, 1), ws);
            var b := FromWorld(Vec2(10, 5), ws);
            var c := FromWorld(Vec2(2, 7), ws);
            && DeltaTo(a, b) == Vec2(-5, 4)
            && DeltaTo(a, c) == Vec2(7, -4)
            && DeltaTo(b, c) == Vec2(-8, 2)
  {
  }
}
