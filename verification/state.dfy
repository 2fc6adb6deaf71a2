/** The frame controller (state.c): trying an input, the search over
    candidate inputs, and one frame of the simulation. */
module Frame {
  import opened Numeric
  import opened Surfaces
  import opened Floors
  import opened Cog

  // ---------------------------------------------------------------- checkInput

  /** The parts of Mario's state that trying an input neither reads as input
      nor leaves changed: speed, facing yaw, position and vertical velocity. */
  predicate SameBody(a: MarioState, b: MarioState) {
    a.hSpeed == b.hSpeed && a.facingYaw == b.facingYaw && a.pos == b.pos && a.vel.y == b.vel.y
  }

  /** `checkInput`: sets the input, runs the air step, asks whether the
      quarter step lands, and restores the speed.  The velocity and the input
      fields keep the values of the trial; the `f32` yaw is stored into an
      `s16` field. */
  function CheckInput(floors: seq<Surface>, m: MarioState, mag: real, yaw: int, ph: Physics): (r: (bool, MarioState))
    ensures SameBody(r.1, m)
    ensures r.1.intendedMag == mag && r.1.intendedYaw == S16(yaw)
  {
    var m1 := m.(intendedMag := mag, intendedYaw := S16(yaw));
    var m2 := UpdateAirWithoutTurn(m1, ph);
    (QuarterStepLands(floors, m2), m2.(hSpeed := m.hSpeed))
  }

  /** Running the air step again on the state a trial leaves behind lands
      exactly when the trial did: restoring the speed undoes all the trial
      changed that the air step reads. */
  lemma TrialReplays(floors: seq<Surface>, m: MarioState, mag: real, yaw: int, ph: Physics)
    ensures var r := CheckInput(floors, m, mag, yaw, ph);
      r.0 == QuarterStepLands(floors, UpdateAirWithoutTurn(r.1, ph))
  {
    var m1 := m.(intendedMag := mag, intendedYaw := S16(yaw));
    var m2 := UpdateAirWithoutTurn(m1, ph);
    AirStepReads(m2.(hSpeed := m.hSpeed), m1, ph);
  }

  /** Trying an input does not depend on what the previous trial left in the
      input and velocity fields. */
  lemma CheckInputStale(floors: seq<Surface>, a: MarioState, b: MarioState, mag: real, yaw: int, ph: Physics)
    requires SameBody(a, b)
    ensures CheckInput(floors, a, mag, yaw, ph) == CheckInput(floors, b, mag, yaw, ph)
  {
    var a1 := a.(intendedMag := mag, intendedYaw := S16(yaw));
    var b1 := b.(intendedMag := mag, intendedYaw := S16(yaw));
    AirStepReads(a1, b1, ph);
  }

  // ---------------------------------------------------------------- computeOptimalInput

  /** The yaw step of the search and its largest offset, half a turn. */
  const YawStep: int := 0x10
  const MaxOffset: int := 0x8000

  /** The number of candidates: the 0x801 offsets 0, 0x10, ..., 0x8000,
      each tried clockwise and counter-clockwise. */
  const Candidates: nat := 4098

  /** The input magnitude every candidate uses. */
  const FullStick: real := 32.0

  /** The offset of candidate `k` from the facing yaw. */
  function CandidateOffset(k: nat): int {
    0x10 * (k / 2)
  }

  /** The yaw of candidate `k`: even candidates add the offset, odd ones
      subtract it. */
  function CandidateYaw(facing: int, k: nat): int {
    if k % 2 == 0 then facing + CandidateOffset(k) else facing - CandidateOffset(k)
  }

  /** Candidates 2n and 2n + 1 are the offset 0x10 * n added and subtracted. */
  lemma CandidatePair(facing: int, n: nat)
    ensures CandidateYaw(facing, 2 * n) == facing + 0x10 * n
    ensures CandidateYaw(facing, 2 * n + 1) == facing - 0x10 * n
  {
    assert (2 * n) / 2 == n && (2 * n) % 2 == 0;
    assert (2 * n + 1) / 2 == n && (2 * n + 1) % 2 == 1;
  }

  /** Candidate `k` makes the quarter step land. */
  predicate Works(floors: seq<Surface>, m: MarioState, ph: Physics, k: nat) {
    CheckInput(floors, m, FullStick, CandidateYaw(m.facingYaw, k), ph).0
  }

  /** No candidate below `bound` works. */
  predicate NoneBelow(floors: seq<Surface>, m: MarioState, ph: Physics, bound: nat) {
    forall j :: 0 <= j < bound ==> !Works(floors, m, ph, j)
  }

  lemma NoneBelowStep(floors: seq<Surface>, m: MarioState, ph: Physics, bound: nat)
    requires NoneBelow(floors, m, ph, bound) && !Works(floors, m, ph, bound)
    ensures NoneBelow(floors, m, ph, bound + 1)
  {
  }

  /** The search visits offsets in non-decreasing order, and every multiple
      of the step up to half a turn is tried in both directions. */
  lemma CandidateOrder(facing: int, k: nat, j: nat, d: int)
    ensures k <= j ==> CandidateOffset(k) <= CandidateOffset(j)
    ensures 0 <= d <= MaxOffset && d % YawStep == 0 ==>
      && 2 * (d / YawStep) + 1 < Candidates
      && CandidateYaw(facing, 2 * (d / YawStep)) == facing + d
      && CandidateYaw(facing, 2 * (d / YawStep) + 1) == facing - d
  {
    if k <= j {
      assert k / 2 <= j / 2;
    }
  }

  /** What a trial of candidate `k` leaves behind: the body of the starting
      state, full stick, and the candidate's yaw stored as an `s16`. */
  predicate TriedCandidate(a: MarioState, m: MarioState, k: nat) {
    SameBody(a, m) && a.intendedMag == FullStick && a.intendedYaw == S16(CandidateYaw(m.facingYaw, k))
  }

  /** One trial of the search, made from any state with the same body as
      the starting state: it lands exactly when the candidate works. */
  lemma Trial(floors: seq<Surface>, cur: MarioState, m: MarioState, ph: Physics, k: nat)
    requires SameBody(cur, m)
    ensures var r := CheckInput(floors, cur, FullStick, CandidateYaw(m.facingYaw, k), ph);
      r.0 == Works(floors, m, ph, k) && TriedCandidate(r.1, m, k)
  {
    CheckInputStale(floors, cur, m, FullStick, CandidateYaw(m.facingYaw, k), ph);
  }

  /** The `checkInput` call of the search for candidate `k`, whose yaw the
      caller has computed from the facing yaw.  When every earlier candidate
      failed, this one lands exactly when it is the first that works. */
  method TryCandidate(floors: seq<Surface>, cur: MarioState, m: MarioState, ph: Physics, k: nat, yaw: int)
    returns (lands: bool, next: MarioState)
    requires SameBody(cur, m) && yaw == CandidateYaw(m.facingYaw, k)
    requires NoneBelow(floors, m, ph, k)
    ensures lands == Works(floors, m, ph, k)
    ensures !lands ==> NoneBelow(floors, m, ph, k + 1)
    ensures TriedCandidate(next, m, k)
  {
    Trial(floors, cur, m, ph, k);
    var r := CheckInput(floors, cur, FullStick, yaw, ph);
    lands, next := r.0, r.1;
    if !lands {
      NoneBelowStep(floors, m, ph, k);
    }
  }

  /** One pass of the search loop: the offset `dyaw` = 0x10 * n added, then
      subtracted.  Stops at the first of the two that works. */
  method TryPair(floors: seq<Surface>, cur: MarioState, m: MarioState, ph: Physics, n: nat, dyaw: int)
    returns (found: bool, k: nat, next: MarioState)
    requires dyaw == 0x10 * n
    requires SameBody(cur, m) && NoneBelow(floors, m, ph, 2 * n)
    ensures k == 2 * n || k == 2 * n + 1
    ensures TriedCandidate(next, m, k)
    ensures found ==> Works(floors, m, ph, k) && NoneBelow(floors, m, ph, k)
    ensures !found ==> k == 2 * n + 1 && NoneBelow(floors, m, ph, k + 1)
  {
    k := 2 * n;
    assert cur.facingYaw + dyaw == CandidateYaw(m.facingYaw, k) by {
      CandidatePair(m.facingYaw, n);
    }
    found, next := TryCandidate(floors, cur, m, ph, k, cur.facingYaw + dyaw);
    if !found {
      var first := next;
      k := 2 * n + 1;
      assert first.facingYaw - dyaw == CandidateYaw(m.facingYaw, k) by {
        CandidatePair(m.facingYaw, n);
      }
      found, next := TryCandidate(floors, first, m, ph, k, first.facingYaw - dyaw);
    }
  }

  /** `computeOptimalInput`: tries the candidates in order and stops at the
      first that lands.  Returns whether one was found, the index of the last
      candidate tried, and Mario's state after that trial. */
  method ComputeOptimalInput(floors: seq<Surface>, m: MarioState, ph: Physics)
    returns (found: bool, k: nat, m': MarioState)
    ensures k < Candidates
    ensures found ==> Works(floors, m, ph, k)
    ensures found ==> NoneBelow(floors, m, ph, k)
    ensures !found ==> k == Candidates - 1 && NoneBelow(floors, m, ph, Candidates)
    ensures TriedCandidate(m', m, k)
  {
    m' := m;
    var dyaw := 0;
    // `n` counts the offsets tried; candidate 2n adds `dyaw`, 2n + 1 subtracts it.
    var n := 0;
    k := 0;
    while dyaw <= MaxOffset
      invariant 0 <= n <= 0x801 && dyaw == 0x10 * n
      invariant SameBody(m', m)
      invariant NoneBelow(floors, m, ph, 2 * n)
      invariant n > 0 ==> k == 2 * n - 1 && TriedCandidate(m', m, k)
      decreases 0x8010 - dyaw
    {
      found, k, m' := TryPair(floors, m', m, ph, n, dyaw);
      if found {
        return;
      }
      // `dyaw` is a `u16`: the increment wraps modulo 2^16, which never
      // happens below 0x8000 + 0x10.
      dyaw := AddU16(dyaw, YawStep);
      n := n + 1;
    }
    assert n == 0x801;
    return false, k, m';
  }

  /** Applying the air step to the state a trial left gives the same result
      as applying it to a fresh trial of the same candidate: the velocity
      the trial wrote is overwritten. */
  lemma AppliedFromTried(floors: seq<Surface>, a: MarioState, m: MarioState, ph: Physics, k: nat)
    requires TriedCandidate(a, m, k)
    ensures UpdateAirWithoutTurn(a, ph) == Applied(floors, m, ph, k)
  {
    var c := CheckInput(floors, m, FullStick, CandidateYaw(m.facingYaw, k), ph).1;
    assert c == a.(vel := c.vel);
    assert UpdateAirWithoutTurn(a.(vel := c.vel), ph) == UpdateAirWithoutTurn(a, ph) by {
      AirStepIgnoresVelocity(a, c.vel, ph);
    }
  }

  // ---------------------------------------------------------------- frameAdvance

  datatype FrameResult = LandedOnCog | FailedToLand | NotUnderCeiling | SlowedDown | Success

  /** Centre and radius of the circle the quarter step must stay inside. */
  const CeilingX: real := 1215.0
  const CeilingZ: real := -1215.0
  const CeilingRadius: real := 264.0

  /** The quarter step lies within the circle (`sqrtf(dx*dx + dz*dz) <= 264`,
      compared here as squares). */
  predicate UnderCeiling(m: MarioState) {
    var q := QuarterStep(m);
    var dx, dz := q.x - CeilingX, q.z - CeilingZ;
    dx * dx + dz * dz <= CeilingRadius * CeilingRadius
  }

  /** The surfaces of a frame: the cog, placed by the transform of its
      `s16` yaw.  `transform` stands for `buildObjectTransform` and the
      matrix product of `readObjectCollisionVertices`. */
  function FrameFloors(c: CogState, transform: int -> (Vec3i -> Vec3i)): seq<Surface> {
    CogSurfaces(transform(S16(c.yaw))).floors
  }

  /** The state a frame ends in when candidate `k` is applied. */
  function Applied(floors: seq<Surface>, m: MarioState, ph: Physics, k: nat): MarioState {
    UpdateAirWithoutTurn(CheckInput(floors, m, FullStick, CandidateYaw(m.facingYaw, k), ph).1, ph)
  }

  /** `frameAdvance`: rebuild the surfaces for the cog's new yaw, test
      whether Mario already stands on the cog, search for an input, apply it,
      and judge the outcome.  The C code clears the list, advances the cog
      and only then loads its surfaces, so the floors belong to the advanced
      cog. */
  method FrameAdvance<R>(setting: int, cog: CogState, rng: R, mario: MarioState,
                         env: CogEnv<R>, ph: Physics, transform: int -> (Vec3i -> Vec3i))
    returns (res: FrameResult, cog': CogState, rng': R, mario': MarioState)
    ensures (cog', rng') == UpdateTtcCog(setting, cog, rng, env)
    ensures mario'.pos == mario.pos && mario'.facingYaw == mario.facingYaw && mario'.vel.y == mario.vel.y
    ensures var floors := FrameFloors(cog', transform);
      && (res == LandedOnCog <==> OnFloor(floors, mario))
      && (res == LandedOnCog ==> mario' == mario)
      && (res == FailedToLand <==>
            !OnFloor(floors, mario) && forall j :: 0 <= j < Candidates ==> !Works(floors, mario, ph, j))
      && (res == FailedToLand ==> mario'.hSpeed == mario.hSpeed)
      && (res != LandedOnCog && res != FailedToLand ==>
            && QuarterStepLands(floors, mario')
            && exists k :: 0 <= k < Candidates && Works(floors, mario, ph, k)
                 && (forall j :: 0 <= j < k ==> !Works(floors, mario, ph, j))
                 && mario' == Applied(floors, mario, ph, k))
      && (res == NotUnderCeiling <==> res != LandedOnCog && res != FailedToLand && !UnderCeiling(mario'))
      && (res == Success <==>
            res != LandedOnCog && res != FailedToLand && UnderCeiling(mario') && mario'.hSpeed > mario.hSpeed)
  {
    var next := UpdateTtcCog(setting, cog, rng, env);
    cog', rng' := next.0, next.1;
    var floors := FrameFloors(cog', transform);
    if OnFloor(floors, mario) {
      return LandedOnCog, cog', rng', mario;
    }
    var startHSpeed := mario.hSpeed;
    var found, k, m1 := ComputeOptimalInput(floors, mario, ph);
    if !found {
      return FailedToLand, cog', rng', m1;
    }
    mario' := UpdateAirWithoutTurn(m1, ph);
    AppliedFromTried(floors, m1, mario, ph, k);
    TrialReplays(floors, mario, FullStick, CandidateYaw(mario.facingYaw, k), ph);
    if !QuarterStepLands(floors, mario') {
      // The C code reports an internal error and returns fr_failed_to_land;
      // the chosen candidate's own trial landed, so this cannot happen.
      assert false;
    }
    if !UnderCeiling(mario') {
      return NotUnderCeiling, cog', rng', mario';
    }
    if mario'.hSpeed <= startHSpeed {
      return SlowedDown, cog', rng', mario';
    }
    return Success, cog', rng', mario';
  }
}
