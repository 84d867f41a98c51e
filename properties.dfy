/** Per-frame properties of the movement controller. */
module MovementProperties {
  import opened Vectors
  import opened Movement

  /** A clamped horizontal velocity stays parallel to, and on the same side as, the one it replaced. */
  lemma ClampKeepsDirection(root: real -> real, v: Vec3, moveSpeed: real)
    requires IsSqrt(root) && moveSpeed >= 0.0 && SqrFlatSpeed(v) > Sq(moveSpeed)
    ensures var r := Clamp(root, v, moveSpeed);
      && r.x * v.z == r.z * v.x
      && r.x * v.x >= 0.0
      && r.z * v.z >= 0.0
  {
    ClampLimitsFastVelocity(root, v, moveSpeed);
    FlatProportional(Clamp(root, v, moveSpeed), v, Magnitude(root, Flat(v)), moveSpeed);
  }

  /** Horizontal parts related by positive and non-negative factors are parallel and on the same side. */
  lemma FlatProportional(r: Vec3, v: Vec3, m: real, k: real)
    requires m > 0.0 && k >= 0.0 && Scale(Flat(r), m) == Scale(Flat(v), k)
    ensures r.x * v.z == r.z * v.x && r.x * v.x >= 0.0 && r.z * v.z >= 0.0
  {
    assert r.x * m == v.x * k && r.z * m == v.z * k by {
      assert Scale(Flat(r), m).x == Scale(Flat(v), k).x;
      assert Scale(Flat(r), m).z == Scale(Flat(v), k).z;
    }
    ProportionalPlanar(r.x, r.z, v.x, v.z, m, k);
  }

  /** If (a, b) times a positive m equals (c, d) times a non-negative k, the two pairs are parallel and on the same side. */
  lemma ProportionalPlanar(a: real, b: real, c: real, d: real, m: real, k: real)
    requires m > 0.0 && k >= 0.0 && a * m == c * k && b * m == d * k
    ensures a * d == b * c && a * c >= 0.0 && b * d >= 0.0
  {
    assert (a * d) * m == (b * c) * m by {
      assert (a * d) * m == (a * m) * d;
      assert (b * c) * m == (b * m) * c;
    }
    CancelPositive(a * d, b * c, m);
    assert (a * c) * m >= 0.0 by {
      assert (a * c) * m == (c * k) * c;
      SameSideProduct(c, k);
    }
    SignThroughPositive(a * c, m);
    assert (b * d) * m >= 0.0 by {
      assert (b * d) * m == (d * k) * d;
      SameSideProduct(d, k);
    }
    SignThroughPositive(b * d, m);
  }

  lemma SameSideProduct(a: real, k: real)
    requires k >= 0.0
    ensures (a * k) * a >= 0.0
  {
    if a > 0.0 && k > 0.0 {
      MulPositive(a * k, a);
    } else if a < 0.0 && k > 0.0 {
      MulPositive(-(a * k), -a);
      assert (-(a * k)) * (-a) == (a * k) * a;
    }
  }

  /** The clamp's test `flatVel.magnitude > moveSpeed` is the squared test x*x + z*z > moveSpeed*moveSpeed. */
  lemma FlatSpeedExceedsIffSquares(root: real -> real, v: Vec3, moveSpeed: real)
    requires IsSqrt(root) && moveSpeed >= 0.0
    ensures Magnitude(root, Flat(v)) > moveSpeed <==> SqrFlatSpeed(v) > Sq(moveSpeed)
  {
    SqExceeds(Magnitude(root, Flat(v)), moveSpeed);
  }

  /** With no direction pressed there is no force, whatever the engine's square root returns. */
  lemma NoDirectionNoForce(root: real -> real, cfg: Config, grounded: bool, moveSpeed: real)
    ensures MoveForce(root, cfg, grounded, moveSpeed, Zero) == Zero
  {
    if Magnitude(root, Zero) != 0.0 {
      ScaleZero(1.0 / Magnitude(root, Zero));
    }
    ScaleZero(ForceScale(cfg, grounded, moveSpeed));
  }

  /** With neither axis pressed the move direction is zero, and so is the force, whatever the camera's axes. */
  lemma NoInputNoForce(root: real -> real, cfg: Config, grounded: bool, moveSpeed: real, forward: Vec3, right: Vec3)
    ensures MoveDirection(forward, right, 0.0, 0.0) == Zero
    ensures MoveForce(root, cfg, grounded, moveSpeed, MoveDirection(forward, right, 0.0, 0.0)) == Zero
  {
    assert MoveDirection(forward, right, 0.0, 0.0) == Zero by {
      assert Scale(forward, 0.0) == Zero && Scale(right, 0.0) == Zero;
    }
    NoDirectionNoForce(root, cfg, grounded, moveSpeed);
  }

  /** For a non-zero direction the force has length |moveSpeed * 10| on the ground and |moveSpeed * 10 * airMultiplier| in the air. */
  lemma ForceLength(root: real -> real, cfg: Config, grounded: bool, moveSpeed: real, dir: Vec3)
    requires IsSqrt(root) && dir != Zero
    ensures SqrMagnitude(MoveForce(root, cfg, grounded, moveSpeed, dir)) == Sq(ForceScale(cfg, grounded, moveSpeed))
  {
    NormalizedFacts(root, dir);
    SqrMagnitudeScale(Normalized(root, dir), ForceScale(cfg, grounded, moveSpeed));
  }

  /** The force points along the move direction: times |dir| it is the direction times the coefficient. */
  lemma ForceAlongDirection(root: real -> real, cfg: Config, grounded: bool, moveSpeed: real, dir: Vec3)
    requires IsSqrt(root)
    ensures Scale(MoveForce(root, cfg, grounded, moveSpeed, dir), Magnitude(root, dir)) == Scale(dir, ForceScale(cfg, grounded, moveSpeed))
  {
    var n := Normalized(root, dir);
    NormalizedFacts(root, dir);
    ScaleCommutes(n, ForceScale(cfg, grounded, moveSpeed), Magnitude(root, dir));
  }

  /** For the same direction, the force in the air is the force on the ground times `airMultiplier`. */
  lemma AirForceIsGroundForceTimesMultiplier(root: real -> real, cfg: Config, moveSpeed: real, dir: Vec3)
    ensures MoveForce(root, cfg, false, moveSpeed, dir) == Scale(MoveForce(root, cfg, true, moveSpeed, dir), cfg.airMultiplier)
  {
    ScaleTwice(Normalized(root, dir), moveSpeed * 10.0, cfg.airMultiplier);
  }

  /** A jumping frame leaves the same body whatever the vertical velocity was before it. */
  lemma JumpForgetsVerticalSpeed(cfg: Config, root: real -> real, c: Controller, b: Body, f: Frame, y: real)
    requires JumpsOn(c, f)
    ensures TickBody(cfg, root, c, b.(velocity := b.velocity.(y := y)), f) == TickBody(cfg, root, c, b, f)
  {}

  /**
   * A jumping frame from a body with no impulse pending launches it: after
   * the next physics step its vertical velocity is `jumpForce / mass`.
   */
  lemma JumpFrameLaunchesAtNextStep(cfg: Config, root: real -> real, c: Controller, b: Body, f: Frame)
    requires b.mass > 0.0 && b.impulse == Zero && JumpsOn(c, f)
    ensures ImpulseStep(TickBody(cfg, root, c, b, f)).velocity.y == cfg.jumpForce / b.mass
  {
    LaunchAtStep(TickBody(cfg, root, c, b, f), cfg.jumpForce);
  }

  /** A body at rest vertically with one upward impulse pending moves up at impulse / mass after the physics step. */
  lemma LaunchAtStep(r: Body, jumpForce: real)
    requires r.mass > 0.0 && r.velocity.y == 0.0 && r.impulse == Add(Zero, Vec3(0.0, jumpForce, 0.0))
    ensures ImpulseStep(r).velocity.y == jumpForce / r.mass
  {
    assert Scale(r.impulse, 1.0 / r.mass).y == jumpForce * (1.0 / r.mass);
  }

  /** While no jump is ready, holding the jump key changes nothing, on the component or on the body. */
  lemma JumpKeyIgnoredWhileNotReady(cfg: Config, root: real -> real, c: Controller, b: Body, f: Frame)
    requires !c.readyToJump
    ensures Tick(cfg, c, f) == Tick(cfg, c, f.(jumpHeld := false))
    ensures TickBody(cfg, root, c, b, f) == TickBody(cfg, root, c, b, f.(jumpHeld := false))
  {}

  /**
   * Because `SpeedControl` runs before `StateHandler`, a frame that drops
   * from sprinting to walking leaves the horizontal speed at the sprint
   * speed, above the new `moveSpeed`.
   */
  lemma StaleTargetSpeed(root: real -> real)
    requires IsSqrt(root)
    ensures
      var cfg := Config(5.0, 7.0, 4.0, 5.0, 0.25, 0.4);
      var c := Controller(7.0, Sprinting, true, true, 0.0, 1.0, Idle);
      var f := Frame(0.02, true, 0.0, 1.0, false, false);
      var t := Tick(cfg, c, f);
      var b := TickBody(cfg, root, c, Body(Vec3(7.0, 0.0, 0.0), 4.0, 1.0, Zero), f);
      t.state == Walking && t.moveSpeed == 5.0 && SqrFlatSpeed(b.velocity) > Sq(t.moveSpeed)
  {
    ClampKeepsSlowVelocity(root, Vec3(7.0, 0.0, 0.0), 7.0);
  }

  /** Each frame caps the horizontal speed by the `moveSpeed` the previous frame chose. */
  lemma TickCapsFlatSpeed(cfg: Config, root: real -> real, c: Controller, b: Body, f: Frame)
    requires IsSqrt(root) && c.moveSpeed >= 0.0
    ensures SqrFlatSpeed(TickBody(cfg, root, c, b, f).velocity) <= Sq(c.moveSpeed)
  {
    var grounded := GroundCheck(Elapse(c, f.dt), f.hit);
    ClampCapsFlatSpeed(root, InputUpdateBody(cfg, grounded, b, f.jumpHeld).velocity, c.moveSpeed);
  }

  /**
   * `moveSpeed` starts at 0, so the very first frame clamps the horizontal
   * velocity to zero, whatever the body's velocity was at spawn.
   */
  lemma FirstFrameStopsHorizontalMotion(cfg: Config, root: real -> real, b: Body, f: Frame)
    requires IsSqrt(root)
    ensures TickBody(cfg, root, Initial, b, f).velocity.x == 0.0
    ensures TickBody(cfg, root, Initial, b, f).velocity.z == 0.0
  {
    var v := TickBody(cfg, root, Initial, b, f).velocity;
    TickCapsFlatSpeed(cfg, root, Initial, b, f);
    SqNonNegative(0.0);
    SqNonNegative(v.x);
    SqNonNegative(v.z);
  }
}
