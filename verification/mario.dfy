/** Mario's state, the floor query and the air step (mario.c).

    Floats are modelled as exact reals: every rounding step of the C code is
    outside the model.  The sine and cosine tables and `incTowardAsymF` live
    in a helper file that is not part of this model; they are the parameters
    collected in `Physics`. */
module Floors {
  import opened Numeric
  import opened Results
  import opened Surfaces

  datatype Vec3r = Vec3r(x: real, y: real, z: real)

  /** `MarioState`: `intendedYaw` and `facingYaw` are `s16` angles. */
  datatype MarioState = MarioState(
    intendedMag: real,
    intendedYaw: int,
    facingYaw: int,
    pos: Vec3r,
    vel: Vec3r,
    hSpeed: real)

  /** The engine helpers the air step calls.  `sins` and `coss` read the
      trigonometric tables at an `s16` angle; `approach(value, target, inc, dec)`
      is `incTowardAsymF`. */
  datatype Physics = Physics(
    sins: int -> real,
    coss: int -> real,
    approach: (real, real, real, real) -> real)

  /** The height `findFloor` reports when it finds no floor. */
  const NoFloorHeight: real := -11000.0

  /** Floors are only searched for strictly inside this square around the origin. */
  const FloorLimit: int := 0x2000

  /** How far below the query point a floor may lie and still be found. */
  const FloorClearance: real := 78.0

  predicate InFloorSquare(x: int, z: int) {
    -FloorLimit < x < FloorLimit && -FloorLimit < z < FloorLimit
  }

  // ---------------------------------------------------------------- point in triangle

  /** One edge test of `findTriFromListBelow`: the 2-D cross product of the
      edge a→b with the offset from the query point to a, before the `s32`
      wrap. */
  function EdgeRaw(a: Vec3i, b: Vec3i, x: int, z: int): int {
    (a.z - z) * (b.x - a.x) - (a.x - x) * (b.z - a.z)
  }

  /** The edge value as the C code computes it, in `s32` arithmetic. */
  function Edge(a: Vec3i, b: Vec3i, x: int, z: int): int {
    S32(EdgeRaw(a, b, x, z))
  }

  /** The point (x, z) passes all three edge tests of the triangle. */
  predicate InsideEdges(s: Surface, x: int, z: int) {
    && Edge(s.vertex1, s.vertex2, x, z) >= 0
    && Edge(s.vertex2, s.vertex3, x, z) >= 0
    && Edge(s.vertex3, s.vertex1, x, z) >= 0
  }

  /** The height of the surface's plane above (x, z).  The C code computes
      `-(x * nx + nz * z + oo) / ny` from the unit normal and the offset
      `oo = -(n . vertex1)`; both are the integer normal divided by its
      length, which cancels, leaving this expression in the integer normal. */
  function PlaneHeight(s: Surface, x: int, z: int): (h: real)
    requires s.normal.y != 0
    ensures var n, v := s.normal, s.vertex1;
      (n.x * (x - v.x) + n.z * (z - v.z)) as real + n.y as real * (h - v.y as real) == 0.0
  {
    var n, v := s.normal, s.vertex1;
    var a, ny := (n.x * (x - v.x) + n.z * (z - v.z)) as real, n.y as real;
    assert ny * (a / ny) == a;
    v.y as real - a / ny
  }

  function Dot(a: Vec3i, b: Vec3i): int {
    a.x * b.x + a.y * b.y + a.z * b.z
  }

  /** `findTriFromListBelow` accepts surface `s` for the point (x, y, z): the
      point is inside the triangle seen from above, the plane is not
      vertical, and the plane lies at most 78 units above y. In integers:
      the point 78 units above (x, y, z) is on the side of the plane the
      normal's y component points to, or on the plane. */
  predicate Qualifies(s: Surface, x: int, y: int, z: int)
    ensures Qualifies(s, x, y, z) <==>
      && InsideEdges(s, x, z)
      && s.normal.y != 0
      && Dot(s.normal, Sub(Vec3i(x, y + 78, z), s.vertex1)) * s.normal.y >= 0
  {
    && InsideEdges(s, x, z)
    && s.normal.y != 0
    && (PlaneAbove(s, x, y, z); (y as real) - (PlaneHeight(s, x, z) - FloorClearance) >= 0.0)
  }

  /** The height test of `Qualifies` without the division. */
  lemma PlaneAbove(s: Surface, x: int, y: int, z: int)
    requires s.normal.y != 0
    ensures (y as real) - (PlaneHeight(s, x, z) - FloorClearance) >= 0.0 <==>
            Dot(s.normal, Sub(Vec3i(x, y + 78, z), s.vertex1)) * s.normal.y >= 0
  {
    var n, v := s.normal, s.vertex1;
    var h := PlaneHeight(s, x, z);
    var ny := n.y as real;
    var d := Dot(n, Sub(Vec3i(x, y + 78, z), v));
    var gap := (y as real) - (h - FloorClearance);
    assert d as real == ny * gap;
    assert (d * n.y) as real == ny * ny * gap;
    assert ny * ny > 0.0;
  }

  /** `findTriFromListBelow` on the list suffix from position `i`: the
      position of the first surface that qualifies. */
  function FindTriFrom(floors: seq<Surface>, i: nat, x: int, y: int, z: int): (r: Option<nat>)
    requires i <= |floors|
    ensures r.Some? ==> i <= r.value < |floors| && Qualifies(floors[r.value], x, y, z)
    ensures r.Some? ==> forall k :: i <= k < r.value ==> !Qualifies(floors[k], x, y, z)
    ensures r.None? <==> forall k :: i <= k < |floors| ==> !Qualifies(floors[k], x, y, z)
    decreases |floors| - i
  {
    if i == |floors| then None
    else if Qualifies(floors[i], x, y, z) then Some(i)
    else FindTriFrom(floors, i + 1, x, y, z)
  }

  /** Surfaces after the one found do not affect the search. */
  lemma {:induction false} FindTriIgnoresTail(a: seq<Surface>, b: seq<Surface>, i: nat, x: int, y: int, z: int)
    requires i <= |a|
    requires FindTriFrom(a, i, x, y, z).Some?
    ensures FindTriFrom(a + b, i, x, y, z) == FindTriFrom(a, i, x, y, z)
    decreases |a| - i
  {
    assert (a + b)[i] == a[i];
    if Qualifies(a[i], x, y, z) {
      assert FindTriFrom(a + b, i, x, y, z) == Some(i);
    } else {
      assert FindTriFrom(a, i, x, y, z) == FindTriFrom(a, i + 1, x, y, z);
      assert FindTriFrom(a + b, i, x, y, z) == FindTriFrom(a + b, i + 1, x, y, z);
      assert FindTriFrom(a + b, i + 1, x, y, z) == FindTriFrom(a, i + 1, x, y, z) by {
        FindTriIgnoresTail(a, b, i + 1, x, y, z);
      }
    }
  }

  // ---------------------------------------------------------------- findFloor

  /** `findFloor`: the first qualifying surface below `pos` and its height,
      or no surface and -11000.  The coordinates are cast to `s16` first. */
  function FindFloor(floors: seq<Surface>, pos: Vec3r): (r: (Option<Surface>, real))
    ensures var x, y, z := TruncS16(pos.x), TruncS16(pos.y), TruncS16(pos.z);
      && (r.0.None? ==> r.1 == NoFloorHeight)
      && (r.0.None? <==> !InFloorSquare(x, z) || forall k :: 0 <= k < |floors| ==> !Qualifies(floors[k], x, y, z))
      && (r.0.Some? ==>
            && InFloorSquare(x, z)
            && Qualifies(r.0.value, x, y, z)
            && r.1 == PlaneHeight(r.0.value, x, z)
            && exists k :: 0 <= k < |floors| && floors[k] == r.0.value
                 && forall j :: 0 <= j < k ==> !Qualifies(floors[j], x, y, z))
  {
    var x, y, z := TruncS16(pos.x), TruncS16(pos.y), TruncS16(pos.z);
    if x <= -FloorLimit || x >= FloorLimit then (None, NoFloorHeight)
    else if z <= -FloorLimit || z >= FloorLimit then (None, NoFloorHeight)
    else
      match FindTriFrom(floors, 0, x, y, z)
      case None => (None, NoFloorHeight)
      case Some(k) => (Some(floors[k]), PlaneHeight(floors[k], x, z))
  }

  /** Once a floor is found, surfaces added after the end of the list do not
      change the answer: the first match wins. */
  lemma FindFloorIgnoresTail(a: seq<Surface>, b: seq<Surface>, pos: Vec3r)
    requires FindFloor(a, pos).0.Some?
    ensures FindFloor(a + b, pos) == FindFloor(a, pos)
  {
    var x, y, z := TruncS16(pos.x), TruncS16(pos.y), TruncS16(pos.z);
    FindTriIgnoresTail(a, b, 0, x, y, z);
  }

  /** `onFloor`: `findFloor` at Mario's position finds a surface, which
      happens exactly when his truncated position is inside the floor
      square and some surface qualifies for it. */
  predicate OnFloor(floors: seq<Surface>, m: MarioState)
    ensures var x, y, z := TruncS16(m.pos.x), TruncS16(m.pos.y), TruncS16(m.pos.z);
      OnFloor(floors, m) <==> InFloorSquare(x, z) && exists s :: s in floors && Qualifies(s, x, y, z)
  {
    LandsIff(floors, m.pos);
    FindFloor(floors, m.pos).0.Some?
  }

  /** The position a quarter of the velocity ahead. */
  function QuarterStep(m: MarioState): Vec3r {
    Vec3r(m.pos.x + m.vel.x / 4.0, m.pos.y + m.vel.y / 4.0, m.pos.z + m.vel.z / 4.0)
  }

  /** `quarterStepLands`: a floor is found at the quarter-step position,
      that is, Mario would be on the floor after moving a quarter of his
      velocity. */
  predicate QuarterStepLands(floors: seq<Surface>, m: MarioState)
    ensures QuarterStepLands(floors, m) <==> OnFloor(floors, m.(pos := QuarterStep(m)))
    ensures var q := QuarterStep(m); var x, y, z := TruncS16(q.x), TruncS16(q.y), TruncS16(q.z);
      QuarterStepLands(floors, m) <==> InFloorSquare(x, z) && exists s :: s in floors && Qualifies(s, x, y, z)
  {
    LandsIff(floors, QuarterStep(m));
    FindFloor(floors, QuarterStep(m)).0.Some?
  }

  /** A point lands on a surface list exactly when it is inside the square
      and some surface of the list qualifies for it. */
  lemma LandsIff(floors: seq<Surface>, pos: Vec3r)
    ensures var x, y, z := TruncS16(pos.x), TruncS16(pos.y), TruncS16(pos.z);
      FindFloor(floors, pos).0.Some? <==> InFloorSquare(x, z) && exists s :: s in floors && Qualifies(s, x, y, z)
  {
    var x, y, z := TruncS16(pos.x), TruncS16(pos.y), TruncS16(pos.z);
    if exists s :: s in floors && Qualifies(s, x, y, z) {
      var s :| s in floors && Qualifies(s, x, y, z);
      var k :| 0 <= k < |floors| && floors[k] == s;
    }
  }

  // ---------------------------------------------------------------- geometry of a found floor

  /** The three raw edge values always add up to the vertical component of
      the triangle's normal, whatever the query point. */
  lemma EdgesSumToNormal(v1: Vec3i, v2: Vec3i, v3: Vec3i, x: int, z: int)
    ensures EdgeRaw(v1, v2, x, z) + EdgeRaw(v2, v3, x, z) + EdgeRaw(v3, v1, x, z)
         == Cross(Sub(v2, v1), Sub(v3, v2)).y
  {
  }

  predicate SmallPoint(x: int, z: int) {
    -0x4000 <= x < 0x4000 && -0x4000 <= z < 0x4000
  }

  /** With vertices and query point inside [-2^14, 2^14) the `s32`
      arithmetic of an edge test cannot overflow. */
  lemma EdgeExact(a: Vec3i, b: Vec3i, x: int, z: int)
    requires Small(a) && Small(b) && SmallPoint(x, z)
    ensures Edge(a, b, x, z) == EdgeRaw(a, b, x, z)
  {
    MulBound(a.z - z, b.x - a.x);
    MulBound(a.x - x, b.z - a.z);
  }

  /** A surface built by `readSurfaceData` from small vertices and found by
      the edge tests faces upward: the edge tests accept only triangles whose
      normal has a positive vertical component. */
  lemma FoundFloorFacesUp(s: Surface, x: int, y: int, z: int)
    requires s.normal == TriangleNormal(s.vertex1, s.vertex2, s.vertex3)
    requires Small(s.vertex1) && Small(s.vertex2) && Small(s.vertex3) && SmallPoint(x, z)
    requires Qualifies(s, x, y, z)
    ensures s.normal.y > 0
  {
    NormalExact(s.vertex1, s.vertex2, s.vertex3);
    EdgeExact(s.vertex1, s.vertex2, x, z);
    EdgeExact(s.vertex2, s.vertex3, x, z);
    EdgeExact(s.vertex3, s.vertex1, x, z);
    EdgesSumToNormal(s.vertex1, s.vertex2, s.vertex3, x, z);
  }

  /** The cross product is orthogonal to both of its factors. */
  lemma CrossOrthogonal(u: Vec3i, w: Vec3i)
    ensures var n := Cross(u, w);
      && n.x * u.x + n.y * u.y + n.z * u.z == 0
      && n.x * w.x + n.y * w.y + n.z * w.z == 0
  {
  }

  /** The plane height formula describes the triangle's plane: at the
      (x, z) of each vertex it gives that vertex's height, provided the normal
      is the exact cross product. */
  lemma PlaneThroughVertices(s: Surface)
    requires s.normal == TriangleNormal(s.vertex1, s.vertex2, s.vertex3)
    requires Small(s.vertex1) && Small(s.vertex2) && Small(s.vertex3)
    requires s.normal.y != 0
    ensures PlaneHeight(s, s.vertex1.x, s.vertex1.z) == s.vertex1.y as real
    ensures PlaneHeight(s, s.vertex2.x, s.vertex2.z) == s.vertex2.y as real
    ensures PlaneHeight(s, s.vertex3.x, s.vertex3.z) == s.vertex3.y as real
  {
    var v1, v2, v3 := s.vertex1, s.vertex2, s.vertex3;
    assert PlaneHeight(s, v1.x, v1.z) == v1.y as real by {
      var n := s.normal;
      assert n.x * (v1.x - v1.x) + n.z * (v1.z - v1.z) == 0;
    }
    NormalExact(v1, v2, v3);
    PlaneThroughEdges(v1, Sub(v2, v1), Sub(v3, v2));
    assert v2.y == v1.y + Sub(v2, v1).y && v3.y == v1.y + Sub(v2, v1).y + Sub(v3, v2).y;
  }

  /** The plane through `v` spanned by `u` and `w`, written with the normal
      u x w, contains v + u and v + u + w. */
  lemma PlaneThroughEdges(v: Vec3i, u: Vec3i, w: Vec3i)
    requires Cross(u, w).y != 0
    ensures var n := Cross(u, w);
      && v.y as real - (n.x * u.x + n.z * u.z) as real / n.y as real == (v.y + u.y) as real
      && v.y as real - (n.x * (u.x + w.x) + n.z * (u.z + w.z)) as real / n.y as real == (v.y + u.y + w.y) as real
  {
    var n := Cross(u, w);
    CrossOrthogonal(u, w);
    PlaneAt(n, v, u);
    var t := Vec3i(u.x + w.x, u.y + w.y, u.z + w.z);
    assert n.x * t.x + n.y * t.y + n.z * t.z == 0;
    PlaneAt(n, v, t);
  }

  /** A step `d` from a point on the plane with normal `n`, orthogonal to
      `n`, stays on the plane. */
  lemma PlaneAt(n: Vec3i, v: Vec3i, d: Vec3i)
    requires n.y != 0
    requires n.x * d.x + n.y * d.y + n.z * d.z == 0
    ensures v.y as real - (n.x * d.x + n.z * d.z) as real / n.y as real == (v.y + d.y) as real
  {
    assert (n.x * d.x + n.z * d.z) as real == (-(n.y * d.y)) as real;
    assert (-(n.y * d.y)) as real / n.y as real == -(d.y as real);
  }

  // ---------------------------------------------------------------- air step

  /** The end of the air step: a speed above 32 loses 1, a speed below -16
      gains 2. */
  function ClampAirSpeed(h: real): (r: real)
    ensures -16.0 <= h <= 32.0 ==> r == h
    ensures h > 32.0 ==> r == h - 1.0
    ensures h < -16.0 ==> r == h + 2.0
  {
    var h1 := if h > 32.0 then h - 1.0 else h;
    if h1 < -16.0 then h1 + 2.0 else h1
  }

  /** The clamp pulls the speed toward [-16, 32] without overshooting, and a
      speed at most one step outside lands inside. */
  lemma ClampTowardBand(h: real)
    ensures var r := ClampAirSpeed(h);
      && (h > 32.0 ==> 32.0 - 1.0 < r < h)
      && (h < -16.0 ==> h < r < -16.0 + 2.0)
      && (-18.0 <= h <= 33.0 ==> -16.0 <= r <= 32.0)
  {
  }

  /** `updateAirWithoutTurn`: decay the speed toward 0, add the forward and
      sideways parts of the input, clamp, and resolve the speed along the
      facing yaw.  Only `hSpeed`, `vel.x` and `vel.z` change. */
  function UpdateAirWithoutTurn(m: MarioState, ph: Physics): (r: MarioState)
    ensures r.intendedMag == m.intendedMag && r.intendedYaw == m.intendedYaw
    ensures r.facingYaw == m.facingYaw && r.pos == m.pos && r.vel.y == m.vel.y
  {
    var h0 := ph.approach(m.hSpeed, 0.0, 0.35, 0.35);
    var (h1, side) :=
      if m.intendedMag != 0.0 then
        var dyaw := S16(m.intendedYaw - m.facingYaw);
        var mag := m.intendedMag / 32.0;
        (h0 + 1.5 * ph.coss(dyaw) * mag, 10.0 * ph.sins(dyaw) * mag)
      else (h0, 0.0);
    var h := ClampAirSpeed(h1);
    var f, fs := S16(m.facingYaw), S16(m.facingYaw + 0x4000);
    m.(hSpeed := h,
       vel := Vec3r(h * ph.sins(f) + side * ph.sins(fs), m.vel.y, h * ph.coss(f) + side * ph.coss(fs)))
  }

  /** The air step reads nothing but the speed, the input and the facing
      yaw: two states that agree on those get the same speed and horizontal
      velocity, and an intended yaw only matters modulo 2^16. */
  lemma AirStepReads(a: MarioState, b: MarioState, ph: Physics)
    requires a.hSpeed == b.hSpeed && a.intendedMag == b.intendedMag && a.facingYaw == b.facingYaw
    requires (a.intendedYaw - b.intendedYaw) % TWO16 == 0
    ensures var ra, rb := UpdateAirWithoutTurn(a, ph), UpdateAirWithoutTurn(b, ph);
      ra.hSpeed == rb.hSpeed && ra.vel.x == rb.vel.x && ra.vel.z == rb.vel.z
  {
    var da, db := a.intendedYaw - a.facingYaw, b.intendedYaw - b.facingYaw;
    S16Congruent(da, db);
  }

  /** The air step overwrites the horizontal velocity without reading it. */
  lemma AirStepIgnoresVelocity(m: MarioState, v: Vec3r, ph: Physics)
    requires v.y == m.vel.y
    ensures UpdateAirWithoutTurn(m.(vel := v), ph) == UpdateAirWithoutTurn(m, ph)
  {
  }

  /** Values congruent modulo 2^16 wrap to the same `s16`. */
  lemma S16Congruent(a: int, b: int)
    requires (a - b) % TWO16 == 0
    ensures S16(a) == S16(b)
  {
    var k := (a - b) / TWO16;
    assert a == b + k * TWO16;
    assert a % TWO16 == b % TWO16;
  }

  /** With no input the velocity points along the facing yaw with the new speed. */
  lemma AirStepWithoutInput(m: MarioState, ph: Physics)
    requires m.intendedMag == 0.0
    ensures var r := UpdateAirWithoutTurn(m, ph);
      && r.hSpeed == ClampAirSpeed(ph.approach(m.hSpeed, 0.0, 0.35, 0.35))
      && r.vel.x == r.hSpeed * ph.sins(S16(m.facingYaw))
      && r.vel.z == r.hSpeed * ph.coss(S16(m.facingYaw))
  {
  }

  /** `a` lies between 0 and `h`: a step toward 0 that does not overshoot. */
  predicate TowardZero(h: real, a: real) {
    if h >= 0.0 then 0.0 <= a <= h else h <= a <= 0.0
  }

  /** Without stick input Mario's air speed only decays: when `approach`
      moves the speed toward 0 without passing it, the clamp that follows
      keeps it on the same side of 0 and no faster than before. */
  lemma AirStepDecays(m: MarioState, ph: Physics)
    requires m.intendedMag == 0.0
    requires TowardZero(m.hSpeed, ph.approach(m.hSpeed, 0.0, 0.35, 0.35))
    ensures TowardZero(m.hSpeed, UpdateAirWithoutTurn(m, ph).hSpeed)
  {
    AirStepWithoutInput(m, ph);
  }

  /** Without stick input the whole speed goes along the facing yaw: when
      the tables give a unit vector there, the horizontal velocity has the
      magnitude of the new speed. */
  lemma AirStepAlongFacing(m: MarioState, ph: Physics)
    requires m.intendedMag == 0.0
    requires var f := S16(m.facingYaw); ph.sins(f) * ph.sins(f) + ph.coss(f) * ph.coss(f) == 1.0
    ensures var r := UpdateAirWithoutTurn(m, ph);
      r.vel.x * r.vel.x + r.vel.z * r.vel.z == r.hSpeed * r.hSpeed
  {
    var r := UpdateAirWithoutTurn(m, ph);
    var f := S16(m.facingYaw);
    var h, sn, cs := r.hSpeed, ph.sins(f), ph.coss(f);
    AirStepWithoutInput(m, ph);
    assert (h * sn) * (h * sn) + (h * cs) * (h * cs) == h * h * (sn * sn + cs * cs);
  }
}
