/**
 * The per-frame logic of `PlayerMovement` on values: the component's own
 * fields, the rigid body it drives, one function per step of `Update`, the
 * deferred `ResetJump`, and the force `MoveUpdate` applies.
 *
 * No decision of `Update` reads the body's velocity, so the component's
 * fields after a frame are a function of its fields before it and of the
 * frame (`Tick`), and the body after a frame is a function of the body,
 * the component's fields before it and the frame (`TickBody`).
 */
module Movement {
  import opened Vectors

  datatype MovementState = Walking | Sprinting | Air

  /** The tuning a character is given in the inspector. */
  datatype Config = Config(
    walkSpeed: real,
    sprintSpeed: real,
    groundDrag: real,
    jumpForce: real,
    jumpCooldown: real,
    airMultiplier: real)

  /**
   * The parts of the rigid body the controller reads and writes. `impulse`
   * is the sum of the impulses added since the last physics step: the
   * engine applies them to the velocity only at that step (`ImpulseStep`).
   */
  datatype Body = Body(velocity: Vec3, drag: real, mass: real, impulse: Vec3)

  /** The call `Invoke(nameof(ResetJump), jumpCooldown)` leaves pending: none, or the time left until it runs. */
  datatype ResetTimer = Idle | Scheduled(remaining: real)

  /** The fields of a `PlayerMovement` that `Update` reads and writes, with the reset it has scheduled. */
  datatype Controller = Controller(
    moveSpeed: real,
    state: MovementState,
    grounded: bool,
    readyToJump: bool,
    horizontalInput: real,
    verticalInput: real,
    timer: ResetTimer)

  /**
   * What one frame takes from the engine: the time since the previous
   * frame, whether the ground ray hit, the two raw axes, and whether the
   * jump and sprint keys are held.
   */
  datatype Frame = Frame(
    dt: real,
    hit: bool,
    horizontal: real,
    vertical: real,
    jumpHeld: bool,
    sprintHeld: bool)

  /** A component that has never run: `moveSpeed` is the float default 0, the enum default is `walking`, and a jump is ready. */
  const Initial := Controller(0.0, Walking, false, true, 0.0, 0.0, Idle)

  /** The invariant every frame keeps. */
  predicate Inv(cfg: Config, c: Controller) {
    && c.moveSpeed in {0.0, cfg.walkSpeed, cfg.sprintSpeed}
    && (c.readyToJump <==> c.timer.Idle?)
    && (c.timer.Scheduled? ==> c.timer.remaining <= cfg.jumpCooldown)
  }

  // ----- the steps of Update, in the order Update runs them -----

  /** `GroundCheck`, with the ray's answer passed in. */
  function GroundCheck(c: Controller, hit: bool): (r: Controller)
    ensures r.grounded == hit && r.(grounded := c.grounded) == c
  {
    c.(grounded := hit)
  }

  /** `AddForce(impulse, ForceMode.Impulse)`: the impulse waits, with any others, for the next physics step. */
  function AddImpulse(b: Body, impulse: Vec3): (r: Body)
    ensures r.impulse == Add(b.impulse, impulse) && r.(impulse := b.impulse) == b
  {
    b.(impulse := Add(b.impulse, impulse))
  }

  /** The engine's physics step, as far as impulses go: each changes the velocity by impulse / mass, and then none is pending. */
  function ImpulseStep(b: Body): Body
    requires b.mass > 0.0
  {
    b.(velocity := Add(b.velocity, Scale(b.impulse, 1.0 / b.mass)), impulse := Zero)
  }

  /** `Jump`: the vertical velocity is reset to 0, then one upward impulse of `jumpForce` is added. */
  function Jump(cfg: Config, b: Body): (r: Body)
    ensures r.velocity == Vec3(b.velocity.x, 0.0, b.velocity.z)
    ensures r.impulse == Add(b.impulse, Vec3(0.0, cfg.jumpForce, 0.0))
    ensures r.drag == b.drag && r.mass == b.mass
  {
    var reset := b.(velocity := Vec3(b.velocity.x, 0.0, b.velocity.z));
    AddImpulse(reset, Scale(Up, cfg.jumpForce))
  }

  /**
   * A jump from a body with nothing pending leaves, after the next physics
   * step, the horizontal velocity it had and a vertical velocity of
   * `jumpForce / mass`, whatever the vertical velocity was before.
   */
  lemma JumpLaunchesAtNextStep(cfg: Config, b: Body)
    requires b.mass > 0.0 && b.impulse == Zero
    ensures ImpulseStep(Jump(cfg, b)).velocity == Vec3(b.velocity.x, cfg.jumpForce / b.mass, b.velocity.z)
    ensures ImpulseStep(Jump(cfg, b)).impulse == Zero
  {
    var k := 1.0 / b.mass;
    assert Scale(Vec3(0.0, cfg.jumpForce, 0.0), k) == Vec3(0.0, cfg.jumpForce * k, 0.0);
    assert cfg.jumpForce * k == cfg.jumpForce / b.mass;
  }

  /** The condition under which `InputUpdate` jumps: the key is held, a jump is ready and the body is grounded. */
  predicate JumpFires(c: Controller, jumpHeld: bool) {
    jumpHeld && c.readyToJump && c.grounded
  }

  /** `InputUpdate` on the component: store the axes; on a jump, clear readiness and schedule `ResetJump`. */
  function InputUpdate(cfg: Config, c: Controller, horizontal: real, vertical: real, jumpHeld: bool): (r: Controller)
    ensures r.horizontalInput == horizontal && r.verticalInput == vertical
    ensures JumpFires(c, jumpHeld) ==> !r.readyToJump && r.timer == Scheduled(cfg.jumpCooldown)
    ensures !JumpFires(c, jumpHeld) ==> r.readyToJump == c.readyToJump && r.timer == c.timer
    ensures r.moveSpeed == c.moveSpeed && r.state == c.state && r.grounded == c.grounded
  {
    var sampled := c.(horizontalInput := horizontal, verticalInput := vertical);
    if JumpFires(c, jumpHeld) then
      sampled.(readyToJump := false, timer := Scheduled(cfg.jumpCooldown))
    else
      sampled
  }

  /** `InputUpdate` on the body: it jumps exactly when the component does. */
  function InputUpdateBody(cfg: Config, c: Controller, b: Body, jumpHeld: bool): (r: Body)
    ensures JumpFires(c, jumpHeld) ==> r == Jump(cfg, b)
    ensures !JumpFires(c, jumpHeld) ==> r == b
  {
    if JumpFires(c, jumpHeld) then Jump(cfg, b) else b
  }

  /**
   * The velocity `SpeedControl` leaves: when the horizontal speed exceeds
   * `moveSpeed`, the horizontal part is replaced by the unit horizontal
   * direction times `moveSpeed`; the vertical part is kept either way.
   */
  function Clamp(root: real -> real, v: Vec3, moveSpeed: real): (r: Vec3)
    ensures r.y == v.y
  {
    var flat := Flat(v);
    if Magnitude(root, flat) > moveSpeed then
      var limited := Scale(Normalized(root, flat), moveSpeed);
      Vec3(limited.x, v.y, limited.z)
    else
      v
  }

  /** The horizontal speed is the length of the horizontal part. */
  lemma FlatMagnitude(root: real -> real, v: Vec3)
    requires IsSqrt(root)
    ensures SqrMagnitude(Flat(v)) == SqrFlatSpeed(v)
    ensures Magnitude(root, Flat(v)) >= 0.0 && Sq(Magnitude(root, Flat(v))) == SqrFlatSpeed(v)
  {
    SqNonNegative(0.0);
    MagnitudeFacts(root, Flat(v));
  }

  /** A unit vector that, times a positive length, is horizontal is itself horizontal, with horizontal speed 1. */
  lemma UnitOfFlat(n: Vec3, m: real, flat: Vec3)
    requires m > 0.0 && Scale(n, m) == flat && flat.y == 0.0 && SqrMagnitude(n) == 1.0
    ensures n.y == 0.0 && SqrFlatSpeed(n) == 1.0
  {
    assert n.y * m == 0.0 * m;
    CancelPositive(n.y, 0.0, m);
    assert SqrMagnitude(n) == SqrFlatSpeed(n) + Sq(n.y);
  }

  /** A horizontal vector of horizontal speed 1, scaled by `k`, is horizontal with horizontal speed |k|. */
  lemma ScaledFlatUnit(n: Vec3, k: real)
    requires n.y == 0.0 && SqrFlatSpeed(n) == 1.0
    ensures Scale(n, k).y == 0.0 && SqrFlatSpeed(Scale(n, k)) == Sq(k)
  {
    SqrMagnitudeScale(n, k);
    assert SqrMagnitude(n) == SqrFlatSpeed(n) + Sq(n.y);
    assert SqrMagnitude(Scale(n, k)) == SqrFlatSpeed(Scale(n, k)) + Sq(Scale(n, k).y);
  }

  /** The horizontal velocity scaled to length `moveSpeed` lies along it and has exactly that length. */
  lemma LimitedAlongFlat(root: real -> real, flat: Vec3, moveSpeed: real)
    requires IsSqrt(root) && flat.y == 0.0 && Magnitude(root, flat) > moveSpeed >= 0.0
    ensures var limited := Scale(Normalized(root, flat), moveSpeed);
      && limited.y == 0.0
      && SqrFlatSpeed(limited) == Sq(moveSpeed)
      && Scale(limited, Magnitude(root, flat)) == Scale(flat, moveSpeed)
  {
    var n := Normalized(root, flat);
    var m := Magnitude(root, flat);
    MagnitudeFacts(root, flat);
    NormalizedFacts(root, flat);
    UnitOfFlat(n, m, flat);
    ScaledFlatUnit(n, moveSpeed);
    ScaleCommutes(n, moveSpeed, m);
  }

  /**
   * Above the limit, the clamp leaves a horizontal speed of exactly
   * `moveSpeed`, pointing along the old horizontal velocity: the new
   * horizontal part times the old horizontal speed is the old horizontal
   * part times `moveSpeed`.
   */
  lemma ClampLimitsFastVelocity(root: real -> real, v: Vec3, moveSpeed: real)
    requires IsSqrt(root) && moveSpeed >= 0.0 && SqrFlatSpeed(v) > Sq(moveSpeed)
    ensures Magnitude(root, Flat(v)) > moveSpeed
    ensures var r := Clamp(root, v, moveSpeed);
      && SqrFlatSpeed(r) == Sq(moveSpeed)
      && Scale(Flat(r), Magnitude(root, Flat(v))) == Scale(Flat(v), moveSpeed)
  {
    FlatMagnitude(root, v);
    SqExceeds(Magnitude(root, Flat(v)), moveSpeed);
    LimitedAlongFlat(root, Flat(v), moveSpeed);
  }

  /** At or below the limit, the clamp changes nothing. */
  lemma ClampKeepsSlowVelocity(root: real -> real, v: Vec3, moveSpeed: real)
    requires IsSqrt(root) && moveSpeed >= 0.0 && SqrFlatSpeed(v) <= Sq(moveSpeed)
    ensures Clamp(root, v, moveSpeed) == v
  {
    FlatMagnitude(root, v);
    SqExceeds(Magnitude(root, Flat(v)), moveSpeed);
  }

  /** After the clamp the horizontal speed never exceeds `moveSpeed`. */
  lemma ClampCapsFlatSpeed(root: real -> real, v: Vec3, moveSpeed: real)
    requires IsSqrt(root) && moveSpeed >= 0.0
    ensures SqrFlatSpeed(Clamp(root, v, moveSpeed)) <= Sq(moveSpeed)
  {
    if SqrFlatSpeed(v) > Sq(moveSpeed) {
      ClampLimitsFastVelocity(root, v, moveSpeed);
    } else {
      ClampKeepsSlowVelocity(root, v, moveSpeed);
    }
  }

  /**
   * `SpeedControl`: clamp the body's velocity to the component's current
   * `moveSpeed`. Only the horizontal velocity can change; the clamp lemmas
   * above say how.
   */
  function SpeedControl(root: real -> real, c: Controller, b: Body): (r: Body)
    ensures r.velocity.y == b.velocity.y && r.(velocity := b.velocity) == b
  {
    b.(velocity := Clamp(root, b.velocity, c.moveSpeed))
  }

  /** `StateHandler`: sprinting, walking or air, first match wins; the air branch leaves `moveSpeed` alone. */
  function StateHandler(cfg: Config, c: Controller, sprintHeld: bool): (r: Controller)
    ensures r.state == Sprinting <==> c.grounded && sprintHeld
    ensures r.state == Walking <==> c.grounded && !sprintHeld
    ensures r.state == Air <==> !c.grounded
    ensures r.moveSpeed == if !c.grounded then c.moveSpeed else if sprintHeld then cfg.sprintSpeed else cfg.walkSpeed
    ensures r.(state := c.state, moveSpeed := c.moveSpeed) == c
  {
    if c.grounded && sprintHeld then
      c.(state := Sprinting, moveSpeed := cfg.sprintSpeed)
    else if c.grounded then
      c.(state := Walking, moveSpeed := cfg.walkSpeed)
    else
      c.(state := Air)
  }

  /** `HandleDrag`: ground drag on the ground, none in the air. */
  function HandleDrag(cfg: Config, c: Controller, b: Body): (r: Body)
    ensures r.drag == (if c.grounded then cfg.groundDrag else 0.0) && r.(drag := b.drag) == b
  {
    b.(drag := if c.grounded then cfg.groundDrag else 0.0)
  }

  /** `Update` on the component: the steps that change its fields, in the source's order. */
  function Update(cfg: Config, c: Controller, f: Frame): Controller {
    var grounded := GroundCheck(c, f.hit);
    var sampled := InputUpdate(cfg, grounded, f.horizontal, f.vertical, f.jumpHeld);
    StateHandler(cfg, sampled, f.sprintHeld)
  }

  /** `Update` on the body: each step sees the component's fields as the steps before it left them. */
  function UpdateBody(cfg: Config, root: real -> real, c: Controller, b: Body, f: Frame): Body {
    var grounded := GroundCheck(c, f.hit);
    var jumped := InputUpdateBody(cfg, grounded, b, f.jumpHeld);
    var sampled := InputUpdate(cfg, grounded, f.horizontal, f.vertical, f.jumpHeld);
    var clamped := SpeedControl(root, sampled, jumped);
    HandleDrag(cfg, StateHandler(cfg, sampled, f.sprintHeld), clamped)
  }

  // ----- the deferred ResetJump -----

  /** `ResetJump`: only the readiness flag changes. */
  function ResetJump(c: Controller): (r: Controller)
    ensures r.readyToJump && r.(readyToJump := c.readyToJump) == c
  {
    c.(readyToJump := true)
  }

  /** The clock advances by `dt`: a pending reset comes `dt` closer. */
  function Elapse(c: Controller, dt: real): (r: Controller)
    ensures c.timer.Idle? ==> r == c
    ensures c.timer.Scheduled? ==> r == c.(timer := Scheduled(c.timer.remaining - dt))
  {
    match c.timer
    case Idle => c
    case Scheduled(r) => c.(timer := Scheduled(r - dt))
  }

  /** After `Update`, a pending reset whose time has come runs, once. */
  function RunDueInvoke(c: Controller): (r: Controller)
    ensures c.timer.Scheduled? && c.timer.remaining <= 0.0 ==> r == c.(timer := Idle, readyToJump := true)
    ensures !(c.timer.Scheduled? && c.timer.remaining <= 0.0) ==> r == c
  {
    if c.timer.Scheduled? && c.timer.remaining <= 0.0 then
      ResetJump(c.(timer := Idle))
    else
      c
  }

  /** Whether the frame `f` makes a component in state `c` jump: `InputUpdate`'s condition once `GroundCheck` has run. */
  predicate JumpsOn(c: Controller, f: Frame) {
    JumpFires(GroundCheck(c, f.hit), f.jumpHeld)
  }

  /** One frame on the component: time advances, `Update` runs, then a due `ResetJump` runs. */
  function Tick(cfg: Config, c: Controller, f: Frame): (t: Controller)
    // the ray decides grounding, and the axes are stored for `FixedUpdate`
    ensures t.grounded == f.hit
    ensures t.horizontalInput == f.horizontal && t.verticalInput == f.vertical
    // the state is chosen by fixed precedence, exactly one branch firing
    ensures t.state == Sprinting <==> f.hit && f.sprintHeld
    ensures t.state == Walking <==> f.hit && !f.sprintHeld
    ensures t.state == Air <==> !f.hit
    ensures f.hit && f.sprintHeld ==> t.moveSpeed == cfg.sprintSpeed
    ensures f.hit && !f.sprintHeld ==> t.moveSpeed == cfg.walkSpeed
    ensures !f.hit ==> t.moveSpeed == c.moveSpeed
    // a jump clears readiness and schedules exactly one reset, a full cooldown away;
    // a cooldown that is not positive is over at once, so the reset runs in the same frame
    ensures JumpsOn(c, f) && cfg.jumpCooldown > 0.0 ==> !t.readyToJump && t.timer == Scheduled(cfg.jumpCooldown)
    ensures JumpsOn(c, f) && cfg.jumpCooldown <= 0.0 ==> t.readyToJump && t.timer.Idle?
    ensures c.timer.Idle? && !JumpsOn(c, f) ==> t.timer.Idle? && t.readyToJump == c.readyToJump
    ensures c.timer.Scheduled? && !JumpsOn(c, f) ==>
      var left := c.timer.remaining - f.dt;
      && (left <= 0.0 ==> t.timer.Idle? && t.readyToJump)
      && (left > 0.0 ==> t.timer == Scheduled(left) && t.readyToJump == c.readyToJump)
    ensures f.dt >= 0.0 && Inv(cfg, c) ==> Inv(cfg, t)
  {
    RunDueInvoke(Update(cfg, Elapse(c, f.dt), f))
  }

  /**
   * One frame on the body. The clamp uses the `moveSpeed` of the previous
   * frame, because `SpeedControl` runs before `StateHandler`.
   */
  function TickBody(cfg: Config, root: real -> real, c: Controller, b: Body, f: Frame): (r: Body)
    ensures r.mass == b.mass
    // drag follows grounding alone
    ensures r.drag == if f.hit then cfg.groundDrag else 0.0
    // a jump resets the vertical velocity and adds an upward impulse of jumpForce for the next
    // physics step; otherwise both are kept
    ensures JumpsOn(c, f) ==> r.velocity.y == 0.0 && r.impulse == Add(b.impulse, Vec3(0.0, cfg.jumpForce, 0.0))
    ensures !JumpsOn(c, f) ==> r.velocity.y == b.velocity.y && r.impulse == b.impulse
  {
    UpdateBody(cfg, root, Elapse(c, f.dt), b, f)
  }

  // ----- FixedUpdate -----

  /** `orientation.forward * verticalInput + orientation.right * horizontalInput`. */
  function MoveDirection(forward: Vec3, right: Vec3, horizontal: real, vertical: real): Vec3 {
    Add(Scale(forward, vertical), Scale(right, horizontal))
  }

  /** The coefficient `MoveUpdate` multiplies the unit direction by: `moveSpeed * 10`, and in the air also `airMultiplier`. */
  function ForceScale(cfg: Config, grounded: bool, moveSpeed: real): real {
    if grounded then moveSpeed * 10.0 else moveSpeed * 10.0 * cfg.airMultiplier
  }

  /**
   * The force `MoveUpdate` passes to `AddForce(…, ForceMode.Force)`:
   * the normalised move direction times the target speed times 10, and
   * in the air also times `airMultiplier`.
   */
  function MoveForce(root: real -> real, cfg: Config, grounded: bool, moveSpeed: real, dir: Vec3): Vec3 {
    Scale(Normalized(root, dir), ForceScale(cfg, grounded, moveSpeed))
  }
}
