/** A camera living on the torus (src/torus/camera.rs): it projects positions
    into an unwrapped frame around its centre, so that an object close to
    the camera across the wrap seam is drawn next to it. */
module TorusCamera {

  import opened WrapArith
  import opened TorusPosition

  /** `CameraTorus`: `fov` is stored for the projection matrix and `rotation`
      (an angle, here an integer) is stored but never read by the source. */
  datatype Camera = Camera(center: Position, fov: int, rotation: int)

  /** `CameraTorus::new`: a camera at the zero position of the world. */
  function NewCamera(fov: int, ws: Vec2): (c: Camera)
    requires ws.x >= 0 && ws.y >= 0
    ensures c.center.pos == Vec2(0, 0) && c.center.worldSize == ws
    ensures c.fov == fov && c.rotation == 0
  {
    Camera(Zero(ws), fov, 0)
  }

  /** `CameraTorus::project`: the position of `p` in the camera's unwrapped
      frame. The source panics (inside `delta_to`) when `p` is from another
      world. */
  function Project(cam: Camera, p: Position): (r: Vec2)
    requires cam.center.worldSize == p.worldSize
    ensures p.worldSize.x > 0 ==> Congruent(r.x, p.pos.x, p.worldSize.x)
    ensures p.worldSize.y > 0 ==> Congruent(r.y, p.pos.y, p.worldSize.y)
    ensures Canonical(cam.center) && Canonical(p) ==>
              Abs(r.x - cam.center.pos.x) * 2 <= p.worldSize.x
              && Abs(r.y - cam.center.pos.y) * 2 <= p.worldSize.y
    ensures p == cam.center ==> r == cam.center.pos
  {
    var c := cam.center.pos;
    var d := DeltaTo(cam.center, p);
    ProjectSamePoint(c.x, d.x, p.pos.x, p.worldSize.x);
    ProjectSamePoint(c.y, d.y, p.pos.y, p.worldSize.y);
    c.Plus(d)
  }

  /** One axis of `project`: the centre plus a delta that reaches `t` from it
      lands on the same point as `t`. */
  lemma ProjectSamePoint(c: int, d: int, t: int, s: int)
    requires s > 0 ==> Congruent(d, t - c, s)
    ensures s > 0 ==> Congruent(c + d, t, s)
  {
    if s > 0 {
      CongruentSub(d, t - c, -c, s);
      assert d - (-c) == c + d && (t - c) - (-c) == t;
    }
  }

  /** An object a short move away from the camera centre is projected at
      exactly that offset from the centre, whichever seam the move crosses. */
  lemma ProjectShifted(cam: Camera, d: Vec2)
    requires ValidSize(cam.center.worldSize) && Canonical(cam.center)
    requires Abs(d.x) * 2 < cam.center.worldSize.x && Abs(d.y) * 2 < cam.center.worldSize.y
    ensures Project(cam, Shifted(cam.center, d)) == cam.center.pos.Plus(d)
  {
    ShiftedDeltaRoundTrip(cam.center, d);
  }

  /** Projection depends on the centre only: `fov` and `rotation` play no
      part. */
  lemma ProjectIgnoresLens(cam: Camera, fov: int, rotation: int, p: Position)
    requires cam.center.worldSize == p.worldSize
    ensures Project(Camera(cam.center, fov, rotation), p) == Project(cam, p)
  {
  }

  /** An example: world (20, 10), field of view 5, centre moved to
      (15, 1); an object at (2, 7) is drawn at (22, -3), across the seam of
      the x axis. */
  lemma ProjectScenario()
    ensures var ws := Vec2(20, 10);
            var cam := NewCamera(5, ws).(center := FromWorld(Vec2(15, 1), ws));
            Project(cam, FromWorld(Vec2(2, 7), ws)) == Vec2(22, -3)
  {
  }
}
