/** The Tick Tock Clock cog (cog.c): its collision-model data and the
    per-frame speed-mode step.

    `incTowardSymFP`, `randomU16` and `randomUnit` live in a helper file that
    is not part of this model; they are parameters here.  The generator is a
    state value of an arbitrary type `R` threaded through the step, so the
    random calls a frame makes are explicit. */
module Cog {
  import opened Numeric
  import opened Results
  import opened Surfaces
  import opened Descriptor

  // ---------------------------------------------------------------- collision model

  /** An `s16` array initialiser: hex literals above 0x7fff wrap to negative values. */
  function Word(h: int): int { S16(h) }

  const CogModel: seq<int> := [
    Word(0x0040), Word(0x0006),
    Word(0xff67), Word(0x0000), Word(0xfef7),
    Word(0xfece), Word(0x0000), Word(0x0000),
    Word(0xff67), Word(0x0000), Word(0x010a),
    Word(0x009a), Word(0x0000), Word(0x010a),
    Word(0x0133), Word(0x0000), Word(0x0000),
    Word(0x009a), Word(0x0000), Word(0xfef7),
    Word(0x0015), Word(0x0004),
    Word(0x0000), Word(0x0001), Word(0x0002),
    Word(0x0000), Word(0x0002), Word(0x0003),
    Word(0x0000), Word(0x0003), Word(0x0004),
    Word(0x0000), Word(0x0004), Word(0x0005),
    Word(0x0041)
  ]

  /** The cog's outline: a flat hexagon (every local y is 0) cut into a fan
      of four triangles around vertex 0, all of surface type 0x15. */
  const CogDesc: Model := Model(
    0x40,
    [Vec3i(-153, 0, -265), Vec3i(-306, 0, 0), Vec3i(-153, 0, 266),
     Vec3i(154, 0, 266), Vec3i(307, 0, 0), Vec3i(154, 0, -265)],
    [Group(0x15, [Triple(0, 1, 2), Triple(0, 2, 3), Triple(0, 3, 4), Triple(0, 4, 5)])])

  /** The handle of the one cog object. */
  const CogId: ObjectId := 0

  /** The vertex table of `cogModel`, three words per vertex. */
  const CogVertexWords: seq<int> := [
    -153, 0, -265,
    -306, 0, 0,
    -153, 0, 266,
    154, 0, 266,
    307, 0, 0,
    154, 0, -265]

  /** The index triples of the cog's one group. */
  const CogFanWords: seq<int> := [0, 1, 2, 0, 2, 3, 0, 3, 4, 0, 4, 5]

  lemma CogModelWords()
    ensures CogModel == [0x40, 6] + CogVertexWords + [0x15, 4] + CogFanWords + [0x41]
  {
    assert Word(0xff67) == -153 && Word(0xfef7) == -265 && Word(0xfece) == -306;
  }

  lemma CogVerticesEncoding()
    ensures EncodeVertices(CogDesc.vertices) == CogVertexWords
  {
    var vs, w := CogDesc.vertices, EncodeVertices(CogDesc.vertices);
    EncodeVerticesAt(vs, 0);
    EncodeVerticesAt(vs, 1);
    EncodeVerticesAt(vs, 2);
    EncodeVerticesAt(vs, 3);
    EncodeVerticesAt(vs, 4);
    EncodeVerticesAt(vs, 5);
    assert w == CogVertexWords;
  }

  lemma CogTrianglesEncoding()
    ensures EncodeTriples(CogDesc.groups[0].tris) == CogFanWords
  {
    var ts := CogDesc.groups[0].tris;
    var w := CogFanWords;
    assert EncodeTriples(ts[3..]) == w[9..] by { assert ts[3..][1..] == []; }
    assert EncodeTriples(ts[2..]) == w[6..] by { assert ts[2..][1..] == ts[3..]; }
    assert EncodeTriples(ts[1..]) == w[3..] by { assert ts[1..][1..] == ts[2..]; }
  }

  lemma CogModelIsEncoding()
    ensures Encode(CogDesc) == CogModel
  {
    CogModelWords();
    CogVerticesEncoding();
    CogTrianglesEncoding();
    var gs := CogDesc.groups;
    assert gs[1..] == [];
    assert EncodeGroups(gs) == [0x15, 4] + CogFanWords + [];
  }

  /** `cogModel` decodes to six vertices, all at local height 0, and one group
      of type 0x15 holding the fan triangles (0,1,2), (0,2,3), (0,3,4), (0,4,5). */
  lemma CogModelDecodes()
    ensures Parse(CogModel) == Ok(CogDesc)
    ensures forall v :: v in CogDesc.vertices ==> v.y == 0
  {
    CogModelIsEncoding();
    ParseEncode(CogDesc);
  }

  lemma CogIndicesValid(xf: Vec3i -> Vec3i)
    ensures GroupsValid(ModelTable(CogDesc.vertices, xf), CogDesc.groups)
  {
    var table := ModelTable(CogDesc.vertices, xf);
    assert VertexCount(table) == 6;
    var g := CogDesc.groups[0];
    forall h | h in CogDesc.groups
      ensures IndicesValid(table, h.tris)
    {
      assert h == g;
    }
  }

  lemma CogSurfaceCount(xf: Vec3i -> Vec3i)
    ensures |ModelSurfaces(CogDesc, xf, CogId)| <= 4
  {
    OneGroupSurfaces(ModelTable(CogDesc.vertices, xf), CogDesc.groups, CogId);
  }

  /** Loading the cog into an empty list never fails, whatever its transform:
      every index names one of the six vertices and at most four surfaces are
      kept. */
  lemma CogLoads(xf: Vec3i -> Vec3i)
    ensures var r := LoadObjectCollisionModel(CogModel, xf, CogId, ClearSurfaces());
      && r.Ok?
      && r.value.floors == InsertAll([], ModelSurfaces(CogDesc, xf, CogId))
      && |r.value.floors| <= 4
  {
    CogModelDecodes();
    CogIndicesValid(xf);
    CogSurfaceCount(xf);
    LoadReadsModel(CogModel, xf, CogId, ClearSurfaces());
  }

  /** The loaded cog list is ordered, and for every priority it lists the
      cog's surfaces of that priority in model order. */
  lemma CogLoadOrdered(xf: Vec3i -> Vec3i)
    ensures var r := LoadObjectCollisionModel(CogModel, xf, CogId, ClearSurfaces());
      && r.Ok?
      && PoolValid(r.value)
      && |r.value.floors| <= 4
      && forall p :: WithPriority(r.value.floors, p) == WithPriority(ModelSurfaces(CogDesc, xf, CogId), p)
  {
    CogLoads(xf);
    CogModelDecodes();
    var pool := ClearSurfaces();
    var r := LoadObjectCollisionModel(CogModel, xf, CogId, pool).value;
    forall p
      ensures WithPriority(r.floors, p) == WithPriority(ModelSurfaces(CogDesc, xf, CogId), p)
    {
      LoadKeepsPoolValid(CogModel, xf, CogId, pool, p);
      assert WithPriority(pool.floors, p) == [];
    }
    LoadKeepsPoolValid(CogModel, xf, CogId, pool, 0);
  }

  /** `clearSurfaces` followed by `loadObjectCollisionModel(&cog)`: the surface
      list of one frame, ordered and holding exactly the cog's kept triangles. */
  function CogSurfaces(xf: Vec3i -> Vec3i): (pool: SurfacePool)
    ensures PoolValid(pool)
    ensures |pool.floors| <= 4
    ensures forall p :: WithPriority(pool.floors, p) == WithPriority(ModelSurfaces(CogDesc, xf, CogId), p)
  {
    CogLoadOrdered(xf);
    LoadObjectCollisionModel(CogModel, xf, CogId, ClearSurfaces()).value
  }

  // ---------------------------------------------------------------- speed modes

  /** `ttcSpeedSetting`: 0 slow, 1 fast, 2 random, 3 stopped. */
  const InitialSpeedSetting: int := 0

  const CogSpeeds: seq<real> := [200.0, 400.0]

  /** The cog's mutable state: `displayAngle.yaw` (an `s32`), `yawVel` and
      `yawVelTarget` (floats). */
  datatype CogState = CogState(yaw: int, yawVel: real, yawVelTarget: real)

  /** The helpers of the random mode.  `incToward(current, target, step)`
      returns the new value and whether it has reached the target;
      `randomU16` and `randomUnit` draw from the generator state. */
  datatype CogEnv<!R> = CogEnv(
    incToward: (real, real, real) -> (real, bool),
    randomU16: R -> (int, R),
    randomUnit: R -> (real, R))

  /** `randomU16() % 7` on an unsigned 16-bit draw. */
  function Roll(u: int): (q: int)
    ensures 0 <= q < 7
  {
    (u % TWO16) % 7
  }

  /** The target the random mode picks for roll `q` and unit draw `unit`. */
  function Target(q: int, unit: real): real {
    200.0 * q as real * unit
  }

  /** `updateTtcCog`.  C leaves the order of the two random calls in
      `200.0f * (randomU16() % 7) * randomUnit()` unspecified; the model draws
      `randomU16` first. */
  function UpdateTtcCog<R>(setting: int, c: CogState, rng: R, env: CogEnv<R>): (r: (CogState, R))
    ensures setting == 0 ==> r.0.yawVel == 200.0
    ensures setting == 1 ==> r.0.yawVel == 400.0
    ensures setting != 2 ==> r.0.yawVelTarget == c.yawVelTarget && r.1 == rng
    ensures setting != 0 && setting != 1 && setting != 2 ==> r.0.yawVel == c.yawVel
    ensures setting == 2 ==>
      var (v, reached) := env.incToward(c.yawVel, c.yawVelTarget, 50.0);
      && r.0.yawVel == v
      && (!reached ==> r.0.yawVelTarget == c.yawVelTarget && r.1 == rng)
      && (reached ==> r.1 == env.randomUnit(env.randomU16(rng).1).1)
      && (reached ==> exists q :: 0 <= q < 7 && r.0.yawVelTarget == Target(q, env.randomUnit(env.randomU16(rng).1).0))
    ensures r.0.yaw == S32(c.yaw + Trunc(r.0.yawVel))
  {
    var (c1, rng1) :=
      if setting == 0 || setting == 1 then (c.(yawVel := CogSpeeds[setting]), rng)
      else if setting == 2 then
        var (v, reached) := env.incToward(c.yawVel, c.yawVelTarget, 50.0);
        if reached then
          var (u, rng2) := env.randomU16(rng);
          var (unit, rng3) := env.randomUnit(rng2);
          (c.(yawVel := v, yawVelTarget := Target(Roll(u), unit)), rng3)
        else (c.(yawVel := v), rng)
      else (c, rng);
    (c1.(yaw := S32(c1.yaw + Trunc(c1.yawVel))), rng1)
  }

  /** `n` frames of the speed-mode step. */
  function RunCog<R>(n: nat, setting: int, c: CogState, rng: R, env: CogEnv<R>): (CogState, R)
    decreases n
  {
    if n == 0 then (c, rng)
    else
      var (c1, rng1) := UpdateTtcCog(setting, c, rng, env);
      RunCog(n - 1, setting, c1, rng1, env)
  }

  lemma S32Add(a: int, b: int)
    ensures S32(S32(a) + b) == S32(a + b)
  {
    var j := (S32(a) - a) / TWO32;
    assert S32(a) == a + j * TWO32;
    S32Shift(a + b, j);
    assert S32(a) + b == (a + b) + j * TWO32;
  }

  /** The speed, in yaw units per frame, of constant mode `setting`. */
  function ConstantSpeed(setting: int): int {
    if setting == 0 then 200 else 400
  }

  /** One frame in constant mode `setting`, which needs no helpers. */
  function ConstNext(setting: int, c: CogState): CogState
    requires setting == 0 || setting == 1
  {
    c.(yawVel := CogSpeeds[setting], yaw := S32(c.yaw + ConstantSpeed(setting)))
  }

  /** `n` frames of `ConstNext`. */
  function Spin(n: nat, setting: int, c: CogState): CogState
    requires setting == 0 || setting == 1
  {
    if n == 0 then c else Spin(n - 1, setting, ConstNext(setting, c))
  }

  /** One frame in a constant mode is `ConstNext` and draws nothing. */
  lemma ConstantModeStep<R>(setting: int, c: CogState, rng: R, env: CogEnv<R>)
    requires setting == 0 || setting == 1
    ensures UpdateTtcCog(setting, c, rng, env) == (ConstNext(setting, c), rng)
  {
    var r := UpdateTtcCog(setting, c, rng, env);
    assert Trunc(r.0.yawVel) == ConstantSpeed(setting);
  }

  /** In a constant mode the speed-mode loop is `Spin` and leaves the
      generator alone. */
  lemma {:induction false} ConstantRun<R>(n: nat, setting: int, c: CogState, rng: R, env: CogEnv<R>)
    requires setting == 0 || setting == 1
    ensures RunCog(n, setting, c, rng, env) == (Spin(n, setting, c), rng)
    decreases n
  {
    if n > 0 {
      ConstantModeStep(setting, c, rng, env);
      assert RunCog(n - 1, setting, ConstNext(setting, c), rng, env) == (Spin(n - 1, setting, ConstNext(setting, c)), rng) by {
        ConstantRun(n - 1, setting, ConstNext(setting, c), rng, env);
      }
    }
  }

  /** `n` copies of `k` added up. */
  function Times(n: nat, k: int): int {
    if n == 0 then 0 else Times(n - 1, k) + k
  }

  lemma {:induction false} TimesIsProduct(n: nat, k: int)
    ensures Times(n, k) == n * k
  {
    if n > 0 {
      TimesIsProduct(n - 1, k);
      assert n * k == (n - 1) * k + k;
    }
  }

  /** `n` frames of `Spin` turn the yaw by `n` times the speed, wrapped to
      32 bits, and leave the target alone. */
  lemma {:induction false} SpinTurn(n: nat, setting: int, c: CogState)
    requires setting == 0 || setting == 1
    requires InS32(c.yaw)
    ensures Spin(n, setting, c).yawVelTarget == c.yawVelTarget
    ensures Spin(n, setting, c).yaw == S32(c.yaw + Times(n, ConstantSpeed(setting)))
    decreases n
  {
    if n > 0 {
      var speed := ConstantSpeed(setting);
      var c1 := ConstNext(setting, c);
      SpinTurn(n - 1, setting, c1);
      S32Add(c.yaw + speed, Times(n - 1, speed));
    }
  }

  /** In the two constant modes the cog turns at a fixed rate, consumes no
      randomness, and its yaw after `n` frames is the starting yaw plus `n`
      times the speed, as a 32-bit wrap. */
  lemma ConstantModeYaw<R>(n: nat, setting: int, c: CogState, rng: R, env: CogEnv<R>)
    requires setting == 0 || setting == 1
    requires InS32(c.yaw)
    ensures var r := RunCog(n, setting, c, rng, env);
      && r.1 == rng
      && r.0.yawVelTarget == c.yawVelTarget
      && r.0.yaw == S32(c.yaw + n * ConstantSpeed(setting))
  {
    ConstantRun(n, setting, c, rng, env);
    SpinTurn(n, setting, c);
    TimesIsProduct(n, ConstantSpeed(setting));
  }

  /** The game starts in speed setting 0, so until the setting changes the
      cog turns by 200 every frame and draws nothing from the generator. */
  lemma InitialModeYaw<R>(n: nat, c: CogState, rng: R, env: CogEnv<R>)
    requires InS32(c.yaw)
    ensures var r := RunCog(n, InitialSpeedSetting, c, rng, env);
      && r.1 == rng
      && r.0.yawVelTarget == c.yawVelTarget
      && r.0.yaw == S32(c.yaw + n * 200)
      && (n > 0 ==> r.0.yawVel == 200.0)
  {
    ConstantModeYaw(n, InitialSpeedSetting, c, rng, env);
    if n > 0 {
      InitialModeSpeed(n, c, rng, env);
    }
  }

  /** After at least one frame in setting 0 the speed is 200. */
  lemma {:induction false} InitialModeSpeed<R>(n: nat, c: CogState, rng: R, env: CogEnv<R>)
    requires n > 0
    ensures RunCog(n, InitialSpeedSetting, c, rng, env).0.yawVel == 200.0
    decreases n
  {
    var (c1, rng1) := UpdateTtcCog(InitialSpeedSetting, c, rng, env);
    if n > 1 {
      InitialModeSpeed(n - 1, c1, rng1, env);
    }
  }
}
