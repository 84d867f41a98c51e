/**
 * The `PlayerMovement` component and the rigid body it drives, as objects
 * whose fields the engine's callbacks update in place. Each method is
 * proved to leave exactly the state the matching function of `Movement`
 * computes from the state before it.
 */
module Behaviour {
  import opened Vectors
  import opened Movement

  /** How `AddForce` applies its vector: as a continuous force, or as an immediate change of momentum. */
  datatype ForceMode = Force | Impulse

  /** The parts of the engine's rigid body that the controller uses. */
  class Rigidbody {
    var velocity: Vec3
    var drag: real
    const mass: real
    /** The impulses added since the last physics step, which applies them to the velocity. */
    var pendingImpulse: Vec3
    /** The forces added since the last physics step, which integrates them. */
    var accumulatedForce: Vec3

    constructor (velocity: Vec3, drag: real, mass: real)
      ensures this.velocity == velocity && this.drag == drag && this.mass == mass
      ensures pendingImpulse == Zero && accumulatedForce == Zero
    {
      this.velocity := velocity;
      this.drag := drag;
      this.mass := mass;
      pendingImpulse := Zero;
      accumulatedForce := Zero;
    }

    /** The body's state as a value. */
    ghost function State(): Body
      reads this
    {
      Body(velocity, drag, mass, pendingImpulse)
    }

    /**
     * `AddForce`: neither mode touches the velocity. A `Force` is
     * accumulated for the physics step to integrate; an `Impulse` waits for
     * the same step, which adds impulse / mass to the velocity.
     */
    method AddForce(f: Vec3, mode: ForceMode)
      modifies this
      ensures mode == Impulse ==> State() == AddImpulse(old(State()), f) && accumulatedForce == old(accumulatedForce)
      ensures mode == Force ==> State() == old(State()) && accumulatedForce == Add(old(accumulatedForce), f)
    {
      if mode == Impulse {
        pendingImpulse := Add(pendingImpulse, f);
      } else {
        accumulatedForce := Add(accumulatedForce, f);
      }
    }
  }

  class PlayerMovement {
    const cfg: Config
    /** The engine's square root, which `magnitude` and `normalized` use. */
    const root: real -> real
    const rigid: Rigidbody

    var moveSpeed: real
    var state: MovementState
    var grounded: bool
    var readyToJump: bool
    var horizontalInput: real
    var verticalInput: real
    var moveDirection: Vec3
    /** The `ResetJump` call `Invoke` has scheduled, if any. */
    var resetTimer: ResetTimer

    /** The component's fields that `Update` reads and writes, as a value. */
    ghost function Snapshot(): Controller
      reads this
    {
      Controller(moveSpeed, state, grounded, readyToJump, horizontalInput, verticalInput, resetTimer)
    }

    /** The invariant every frame keeps, on the component's fields. */
    ghost predicate Valid()
      reads this
    {
      Inv(cfg, Snapshot())
    }

    /**
     * The component as the engine creates it, with `Start` already run:
     * the field initialisers give `moveSpeed` 0, `walking` and a ready
     * jump, and `Start` looks up the rigid body.
     */
    constructor (cfg: Config, root: real -> real, rigid: Rigidbody)
      ensures this.cfg == cfg && this.root == root && this.rigid == rigid
      ensures Snapshot() == Initial && moveDirection == Zero
      ensures rigid.State() == old(rigid.State())
      ensures Valid()
    {
      this.cfg := cfg;
      this.root := root;
      this.rigid := rigid;
      moveSpeed := 0.0;
      state := Walking;
      grounded := false;
      readyToJump := true;
      horizontalInput := 0.0;
      verticalInput := 0.0;
      moveDirection := Zero;
      resetTimer := Idle;
    }

    /** `GroundCheck`, with the ray's answer passed in. */
    method GroundCheck(hit: bool)
      modifies this
      ensures Snapshot() == Movement.GroundCheck(old(Snapshot()), hit)
      ensures moveDirection == old(moveDirection)
    {
      grounded := hit;
    }

    /** `Jump`: zero the vertical velocity, then one upward impulse of `jumpForce`. */
    method Jump()
      modifies rigid
      ensures rigid.State() == Movement.Jump(cfg, old(rigid.State()))
      ensures rigid.accumulatedForce == old(rigid.accumulatedForce)
    {
      rigid.velocity := Vec3(rigid.velocity.x, 0.0, rigid.velocity.z);
      rigid.AddForce(Scale(Up, cfg.jumpForce), Impulse);
    }

    /** `InputUpdate`, with the two axes and the jump key passed in; `Invoke` schedules the reset. */
    method InputUpdate(horizontal: real, vertical: real, jumpHeld: bool)
      modifies this, rigid
      ensures Snapshot() == Movement.InputUpdate(cfg, old(Snapshot()), horizontal, vertical, jumpHeld)
      ensures rigid.State() == InputUpdateBody(cfg, old(Snapshot()), old(rigid.State()), jumpHeld)
      ensures moveDirection == old(moveDirection) && rigid.accumulatedForce == old(rigid.accumulatedForce)
    {
      horizontalInput := horizontal;
      verticalInput := vertical;
      if jumpHeld && readyToJump && grounded {
        readyToJump := false;
        Jump();
        resetTimer := Scheduled(cfg.jumpCooldown);
      }
    }

    /** `HandleDrag`. */
    method HandleDrag()
      modifies rigid
      ensures rigid.State() == Movement.HandleDrag(cfg, Snapshot(), old(rigid.State()))
      ensures rigid.velocity == old(rigid.velocity) && rigid.accumulatedForce == old(rigid.accumulatedForce)
    {
      if grounded {
        rigid.drag := cfg.groundDrag;
      } else {
        rigid.drag := 0.0;
      }
    }

    /** `StateHandler`, with the sprint key passed in. */
    method StateHandler(sprintHeld: bool)
      modifies this
      ensures Snapshot() == Movement.StateHandler(cfg, old(Snapshot()), sprintHeld)
      ensures moveDirection == old(moveDirection)
    {
      if grounded && sprintHeld {
        state := Sprinting;
        moveSpeed := cfg.sprintSpeed;
      } else if grounded {
        state := Walking;
        moveSpeed := cfg.walkSpeed;
      } else {
        state := Air;
      }
    }

    /** `SpeedControl`. */
    method SpeedControl()
      modifies rigid
      ensures rigid.State() == Movement.SpeedControl(root, Snapshot(), old(rigid.State()))
      ensures rigid.accumulatedForce == old(rigid.accumulatedForce)
    {
      var flatVel := Vec3(rigid.velocity.x, 0.0, rigid.velocity.z);
      if Magnitude(root, flatVel) > moveSpeed {
        var limitedVel := Scale(Normalized(root, flatVel), moveSpeed);
        rigid.velocity := Vec3(limitedVel.x, rigid.velocity.y, limitedVel.z);
      }
    }

    /** `Update`: the engine passes in the ray's answer and the input state of this frame. */
    method Update(f: Frame)
      modifies this, rigid
      ensures Snapshot() == Movement.Update(cfg, old(Snapshot()), f)
      ensures rigid.State() == UpdateBody(cfg, root, old(Snapshot()), old(rigid.State()), f)
      ensures moveDirection == old(moveDirection) && rigid.accumulatedForce == old(rigid.accumulatedForce)
    {
      GroundCheck(f.hit);
      InputUpdate(f.horizontal, f.vertical, f.jumpHeld);
      SpeedControl();
      StateHandler(f.sprintHeld);
      HandleDrag();
    }

    /** `ResetJump`. */
    method ResetJump()
      modifies this
      ensures Snapshot() == Movement.ResetJump(old(Snapshot()))
      ensures moveDirection == old(moveDirection)
    {
      readyToJump := true;
    }

    /** The engine's clock advances by `dt`: a scheduled reset comes closer. */
    method AdvanceClock(dt: real)
      modifies this
      ensures Snapshot() == Elapse(old(Snapshot()), dt)
      ensures moveDirection == old(moveDirection)
    {
      if resetTimer.Scheduled? {
        resetTimer := Scheduled(resetTimer.remaining - dt);
      }
    }

    /** The engine runs a scheduled `ResetJump` whose time has come, once. */
    method RunDueInvoke()
      modifies this
      ensures Snapshot() == Movement.RunDueInvoke(old(Snapshot()))
      ensures moveDirection == old(moveDirection)
    {
      if resetTimer.Scheduled? && resetTimer.remaining <= 0.0 {
        resetTimer := Idle;
        ResetJump();
      }
    }

    /** One rendered frame: the clock advances, `Update` runs, then a due reset runs. */
    method RunFrame(f: Frame)
      modifies this, rigid
      ensures Snapshot() == Tick(cfg, old(Snapshot()), f)
      ensures rigid.State() == TickBody(cfg, root, old(Snapshot()), old(rigid.State()), f)
      ensures old(Valid()) && f.dt >= 0.0 ==> Valid()
      ensures moveDirection == old(moveDirection) && rigid.accumulatedForce == old(rigid.accumulatedForce)
    {
      AdvanceClock(f.dt);
      Update(f);
      RunDueInvoke();
    }

    /** `FixedUpdate` and `MoveUpdate`, with the camera orientation's forward and right axes passed in. */
    method FixedUpdate(forward: Vec3, right: Vec3)
      modifies this, rigid
      ensures moveDirection == MoveDirection(forward, right, horizontalInput, verticalInput)
      ensures Snapshot() == old(Snapshot()) && rigid.State() == old(rigid.State())
      ensures rigid.accumulatedForce == Add(old(rigid.accumulatedForce), MoveForce(root, cfg, grounded, moveSpeed, moveDirection))
    {
      moveDirection := Add(Scale(forward, verticalInput), Scale(right, horizontalInput));
      ghost var expected := MoveForce(root, cfg, grounded, moveSpeed, moveDirection);
      if grounded {
        var f := Scale(Normalized(root, moveDirection), moveSpeed * 10.0);
        assert f == expected;
        rigid.AddForce(f, Force);
      } else if !grounded {
        var f := Scale(Normalized(root, moveDirection), moveSpeed * 10.0 * cfg.airMultiplier);
        assert f == expected;
        rigid.AddForce(f, Force);
      }
    }
  }
}
