# Player movement controller, modelled in Dafny

This project models the first-person movement controller `PlayerMovement`
of a Unity game. Each rendered frame, the controller does five things:

- senses whether the body stands on ground;
- samples the movement axes and the jump and sprint keys;
- caps the body's horizontal speed at the current target speed `moveSpeed`;
- selects the movement state (sprinting, walking or air), which sets
  `moveSpeed`;
- sets the body's drag.

A jump zeroes the vertical velocity, adds one upward impulse of
`jumpForce`, clears `readyToJump`, and schedules `ResetJump` after
`jumpCooldown` seconds. The engine holds the impulse back until its next
physics step, which adds `jumpForce / mass` to the vertical velocity. On every fixed physics step, `MoveUpdate` pushes the
body along the camera-relative move direction. That force is
`moveSpeed * 10`, and in the air it is also multiplied by `airMultiplier`.

The project has five modules:

- `Vectors` (`vectors.dfy`): the engine's `Vector3` arithmetic over exact
  reals. `magnitude` and `normalized` are taken relative to a function
  parameter `root`. The predicate `IsSqrt` assumes that `root` returns the
  non-negative square root of every non-negative real.
- `Movement` (`movement.dfy`): the component's fields as a value
  (`Controller`, with the pending `ResetJump` as a `ResetTimer`), and the
  rigid body's as another (`Body`). Each step of `Update` is a function on
  the component, on the body, or on both. `Tick` is one whole frame on the
  component and `TickBody` the same frame on the body. `MoveForce` is the
  force of `MoveUpdate`.
- `MovementProperties` (`properties.dfy`): properties of one frame and of
  the force.
- `Traces` (`traces.dfy`): `Run`, the controller after a sequence of frames,
  and inductive properties of runs. These cover the invariant, the target
  speed kept in the air, and the spacing of jumps by the cooldown.
- `Behaviour` (`player_movement.dfy`): the component as objects.
  - `PlayerMovement` and `Rigidbody` are classes whose methods update their
    fields in place, as the engine callbacks do.
  - Each method is proved to leave exactly the state that the matching
    function of `Movement` computes from the state before it.
  - A frame is `RunFrame`: the clock advances, `Update` runs, then a due
    `ResetJump` runs.

The frame order keeps these behaviours of the code of `PlayerMovement`:

- `SpeedControl` runs before `StateHandler` (`PlayerMovement.cs:85-86`).
  The cap therefore uses the target speed chosen in the previous frame
  (`StaleTargetSpeed`, `TickCapsFlatSpeed`).
- The air branch of `StateHandler` does not assign `moveSpeed`. The air
  therefore keeps the last grounded choice, or 0 if the body was never
  grounded (`AirKeepsMoveSpeed`, `NeverGroundedKeepsZeroSpeed`).
- `moveSpeed` starts at the float default 0, so the first frame stops all
  horizontal motion (`FirstFrameStopsHorizontalMotion`).

Some facts about the code that the model relies on:

- It has no crouching state and no slope logic.
- The speed cap `SpeedControl` runs in `Update` (`PlayerMovement.cs:85`),
  not on the physics step.
- The inspector values are not validated. The model covers every value; in
  particular, a `jumpCooldown` of 0 (the default of an unset field) makes
  the reset due at once.

## Model

| member | source | states |
|---|---|---|
| Movement.Tick | Assets/Scripts/Player/Movement/PlayerMovement.cs:81-88 | After one frame, grounding is the ray's answer and the two axes are stored. Exactly one of sprinting, walking and air holds, by fixed precedence. `moveSpeed` is the sprint or walk speed on the ground and unchanged in the air. With a positive cooldown, a jump clears readiness and schedules one reset a full cooldown away; with a cooldown of 0 or less, the reset runs in the same frame. A pending reset counts down and fires once it reaches 0. With no jump and nothing pending, nothing starts. The invariant is kept. |
| Movement.TickBody | Assets/Scripts/Player/Movement/PlayerMovement.cs:81-88 | After one frame, the body's drag is `groundDrag` or 0, according to the ray alone. A jump leaves a vertical velocity of 0 and one more upward impulse of `jumpForce` waiting. With no jump, the vertical velocity and the waiting impulses are unchanged. The mass never changes. |
| Movement.Jump | Assets/Scripts/Player/Movement/PlayerMovement.cs:181-187 | The jump keeps the horizontal velocity, sets the vertical velocity to 0, and adds an upward impulse of `jumpForce` to the impulses waiting for the physics step. Drag and mass are unchanged. |
| Movement.Clamp | Assets/Scripts/Player/Movement/PlayerMovement.cs:169-179 | The speed cap never changes the vertical velocity. |
| Movement.LimitedAlongFlat | Assets/Scripts/Player/Movement/PlayerMovement.cs:176 | The normalised horizontal velocity times `moveSpeed` is horizontal and has length exactly `moveSpeed`. It points along the old horizontal velocity. |
| Movement.ClampLimitsFastVelocity | Assets/Scripts/Player/Movement/PlayerMovement.cs:174-177 | Above the limit, the new horizontal speed is exactly `moveSpeed`. The new horizontal part times the old horizontal speed is the old horizontal part times `moveSpeed`. |
| Movement.ClampKeepsSlowVelocity | Assets/Scripts/Player/Movement/PlayerMovement.cs:174 | At or below the limit, the velocity is left exactly as it was. |
| Movement.ClampCapsFlatSpeed | Assets/Scripts/Player/Movement/PlayerMovement.cs:169-179 | After the cap, the squared horizontal speed is at most `moveSpeed` squared. |
| Movement.ResetJump | Assets/Scripts/Player/Movement/PlayerMovement.cs:189-192 | The reset makes a jump ready and changes nothing else. |
| Movement.Initial | Assets/Scripts/Player/Movement/PlayerMovement.cs:11-60 | The component before its first frame: `moveSpeed` is 0, the state is walking, it is not grounded, a jump is ready and nothing is pending. No contract of its own; `InitialSatisfiesInv` is stated below under Traces. |
| Movement.Inv | Assets/Scripts/Player/Movement/PlayerMovement.cs:107-113 | No contract of its own: the invariant `moveSpeed` in {0, walk, sprint}, ready exactly when no reset is pending, and pending at most a cooldown away. `Movement.Tick` keeps it and `Traces.RunKeepsInv` proves it for every run. |
| Movement.GroundCheck | Assets/Scripts/Player/Movement/PlayerMovement.cs:95-98 | `grounded` becomes the ray's answer and no other field changes. |
| Movement.AddImpulse | Assets/Scripts/Player/Movement/PlayerMovement.cs:186 | An impulse is added to the waiting impulses and nothing else about the body changes. |
| Movement.ImpulseStep | Assets/Scripts/Player/Movement/PlayerMovement.cs:186 | No contract of its own: the engine's application of the waiting impulses at the physics step. `JumpLaunchesAtNextStep` and `JumpFrameLaunchesAtNextStep` state what it gives after a jump. |
| Movement.JumpLaunchesAtNextStep | Assets/Scripts/Player/Movement/PlayerMovement.cs:184-186 | After a jump and the next physics step, the vertical velocity is exactly `jumpForce / mass` and the horizontal velocity is kept, whatever the vertical velocity was. |
| Movement.InputUpdate | Assets/Scripts/Player/Movement/PlayerMovement.cs:101-115 | The axes are stored. When the key is held, a jump is ready and the body is grounded, readiness is cleared and a reset is scheduled a full cooldown away. Otherwise readiness and the timer are kept. Speed, state and grounding never change. |
| Movement.InputUpdateBody | Assets/Scripts/Player/Movement/PlayerMovement.cs:107-111 | The body jumps, as `Movement.Jump` states, exactly when the component's jump condition holds, and is untouched otherwise. |
| Movement.UnitOfFlat | Assets/Scripts/Player/Movement/PlayerMovement.cs:176 | A unit vector that, times a positive length, gives a horizontal vector is itself horizontal, with horizontal speed 1: the normalised horizontal velocity stays horizontal. |
| Movement.ScaledFlatUnit | Assets/Scripts/Player/Movement/PlayerMovement.cs:176 | A horizontal unit vector times `k` is horizontal with squared horizontal speed `k` squared. |
| Movement.SpeedControl | Assets/Scripts/Player/Movement/PlayerMovement.cs:169-179 | Only the horizontal velocity can change; the vertical velocity, drag, mass and waiting impulses are kept. How the horizontal part changes is stated by the Clamp lemmas. |
| Movement.StateHandler | Assets/Scripts/Player/Movement/PlayerMovement.cs:129-150 | Sprinting exactly when grounded with sprint held, walking exactly when grounded without it, air exactly when airborne. `moveSpeed` becomes the sprint or walk speed on the ground and is kept in the air. No other field changes. |
| Movement.HandleDrag | Assets/Scripts/Player/Movement/PlayerMovement.cs:117-127 | Drag becomes `groundDrag` when grounded and 0 otherwise; nothing else about the body changes. |
| Movement.Update | Assets/Scripts/Player/Movement/PlayerMovement.cs:81-88 | No contract of its own: the component's side of the five steps in order. `Movement.Tick` states its properties. |
| Movement.UpdateBody | Assets/Scripts/Player/Movement/PlayerMovement.cs:81-88 | No contract of its own: the body's side of the five steps in order. `Movement.TickBody` and `MovementProperties.TickCapsFlatSpeed` state its properties. |
| Movement.Elapse | Assets/Scripts/Player/Movement/PlayerMovement.cs:113 | With nothing pending the component is unchanged; a pending reset comes `dt` closer and nothing else changes. |
| Movement.RunDueInvoke | Assets/Scripts/Player/Movement/PlayerMovement.cs:113 | A pending reset whose time has come runs once: nothing is pending and a jump is ready. Otherwise nothing changes. |
| Movement.MoveDirection | Assets/Scripts/Player/Movement/PlayerMovement.cs:155 | No contract of its own: forward times the vertical axis plus right times the horizontal axis. `MovementProperties.NoInputNoForce` states that no input gives the zero direction. |
| Movement.ForceScale | Assets/Scripts/Player/Movement/PlayerMovement.cs:158-166 | No contract of its own: the coefficient on the ground and in the air. `MovementProperties.ForceLength` and `AirForceIsGroundForceTimesMultiplier` state its effect. |
| Movement.MoveForce | Assets/Scripts/Player/Movement/PlayerMovement.cs:158-166 | No contract of its own: the normalised direction times the coefficient. `NoDirectionNoForce`, `ForceLength`, `ForceAlongDirection` and `AirForceIsGroundForceTimesMultiplier` state its properties. |
| MovementProperties.ClampKeepsDirection | Assets/Scripts/Player/Movement/PlayerMovement.cs:174-177 | A capped horizontal velocity is parallel to the one it replaced, with the same sign in x and in z. |
| MovementProperties.FlatSpeedExceedsIffSquares | Assets/Scripts/Player/Movement/PlayerMovement.cs:174 | The test `flatVel.magnitude > moveSpeed` holds exactly when x² + z² > moveSpeed². |
| MovementProperties.NoDirectionNoForce | Assets/Scripts/Player/Movement/PlayerMovement.cs:155-166 | With no direction pressed, the movement force is zero. |
| MovementProperties.NoInputNoForce | Assets/Scripts/Player/Movement/PlayerMovement.cs:155-166 | With neither axis pressed, the move direction and the movement force are zero, whatever the camera's axes. |
| MovementProperties.ForceLength | Assets/Scripts/Player/Movement/PlayerMovement.cs:158-166 | For a non-zero direction, the force's squared length is the square of `moveSpeed * 10` on the ground and the square of `moveSpeed * 10 * airMultiplier` in the air. |
| MovementProperties.ForceAlongDirection | Assets/Scripts/Player/Movement/PlayerMovement.cs:158-166 | The force times the direction's length is the direction times the coefficient, so the force points along the move direction. |
| MovementProperties.AirForceIsGroundForceTimesMultiplier | Assets/Scripts/Player/Movement/PlayerMovement.cs:158-166 | For the same direction and target speed, the air force is the ground force times `airMultiplier`. |
| MovementProperties.JumpForgetsVerticalSpeed | Assets/Scripts/Player/Movement/PlayerMovement.cs:181-187 | A jumping frame leaves the body in the same state whatever the vertical velocity was before it. |
| MovementProperties.JumpFrameLaunchesAtNextStep | Assets/Scripts/Player/Movement/PlayerMovement.cs:184-186 | A jumping frame from a body with no impulse waiting gives, after the next physics step, a vertical velocity of exactly `jumpForce / mass`. |
| MovementProperties.LaunchAtStep | Assets/Scripts/Player/Movement/PlayerMovement.cs:186 | A body at rest vertically with one upward impulse waiting moves up at impulse over mass after the physics step. |
| MovementProperties.JumpKeyIgnoredWhileNotReady | Assets/Scripts/Player/Movement/PlayerMovement.cs:107 | While no jump is ready, holding the jump key changes nothing about the frame, on the component or on the body. |
| MovementProperties.StaleTargetSpeed | Assets/Scripts/Player/Movement/PlayerMovement.cs:84-86 | A concrete frame that drops from sprinting to walking. It ends walking at target speed 5 with horizontal speed 7 above it, because the cap used the old target. |
| MovementProperties.TickCapsFlatSpeed | Assets/Scripts/Player/Movement/PlayerMovement.cs:84-86 | Each frame caps the horizontal speed by the target speed the previous frame chose. |
| MovementProperties.FirstFrameStopsHorizontalMotion | Assets/Scripts/Player/Movement/PlayerMovement.cs:11 | Since `moveSpeed` starts at 0, the first frame leaves zero horizontal velocity. |
| Traces.Run | Assets/Scripts/Player/Movement/PlayerMovement.cs:81-88 | After any number of frames, `moveSpeed` is the starting one, the walk speed or the sprint speed. |
| Traces.RunKeepsInv | Assets/Scripts/Player/Movement/PlayerMovement.cs:107-113 | In every reachable state, `moveSpeed` is 0, the walk speed or the sprint speed. A jump is ready exactly when no reset is pending, and a pending reset is at most a cooldown away. |
| Traces.InitialSatisfiesInv | Assets/Scripts/Player/Movement/PlayerMovement.cs:11-60 | The initial component satisfies the invariant. |
| Traces.ElapsedNonNegative | Assets/Scripts/Player/Movement/PlayerMovement.cs:113 | Frames whose clock never runs backwards span a non-negative time. |
| Traces.AirKeepsMoveSpeed | Assets/Scripts/Player/Movement/PlayerMovement.cs:145-149 | Any run of airborne frames keeps `moveSpeed` and ends in the air state. |
| Traces.NeverGroundedKeepsZeroSpeed | Assets/Scripts/Player/Movement/PlayerMovement.cs:11 | A controller that has never been grounded has target speed 0. |
| Traces.MoveSpeedIsLastGroundedChoice | Assets/Scripts/Player/Movement/PlayerMovement.cs:129-150 | After the last grounded frame, the target speed is the one that frame chose: sprint if sprint was held, walk otherwise. |
| Traces.ResetPendingWhileCooling | Assets/Scripts/Player/Movement/PlayerMovement.cs:113 | Before the cooldown has elapsed, the reset is still pending with the elapsed time taken off, and no jump is ready. |
| Traces.ResetFiresOnceCooldownElapsed | Assets/Scripts/Player/Movement/PlayerMovement.cs:189-192 | In the frame whose time reaches the cooldown, the reset runs: a jump is ready and nothing is pending. |
| Traces.NoResetWithoutJump | Assets/Scripts/Player/Movement/PlayerMovement.cs:107-114 | With nothing pending and no jump, no reset ever runs and readiness never changes. |
| Traces.JumpStartsCooldown | Assets/Scripts/Player/Movement/PlayerMovement.cs:107-113 | After a jumping frame, no jump is ready and one reset is pending a full cooldown away. |
| Traces.UnreadyAfterJump | Assets/Scripts/Player/Movement/PlayerMovement.cs:107-113 | Until the frames after a jump span a full cooldown, no jump is ready. |
| Traces.ReadyOnceCooldownElapsed | Assets/Scripts/Player/Movement/PlayerMovement.cs:113 | The first frame after a jump whose time since the jump reaches the cooldown runs the reset: a jump is ready and nothing is pending. |
| Traces.JumpsAreCooldownApart | Assets/Scripts/Player/Movement/PlayerMovement.cs:107-113 | Between any two jumps, the frames after the first and before the second span at least `jumpCooldown`. |
| Behaviour.Rigidbody.AddForce | Assets/Scripts/Player/Movement/PlayerMovement.cs:160-186 | Neither mode changes the velocity. A force is accumulated for the physics step. An impulse is added to the impulses that step will apply. |
| Behaviour.PlayerMovement.constructor | Assets/Scripts/Player/Movement/PlayerMovement.cs:75-79 | A new component has the initial state: target speed 0, walking, not grounded, a jump ready, nothing pending. The body is left as it was. |
| Behaviour.PlayerMovement.GroundCheck | Assets/Scripts/Player/Movement/PlayerMovement.cs:95-98 | `grounded` becomes the ray's answer. Nothing else changes, and the body is untouched. |
| Behaviour.PlayerMovement.Jump | Assets/Scripts/Player/Movement/PlayerMovement.cs:181-187 | The body ends in the state `Movement.Jump` describes: vertical velocity 0 and the jump impulse waiting. The accumulated force is unchanged. |
| Behaviour.PlayerMovement.InputUpdate | Assets/Scripts/Player/Movement/PlayerMovement.cs:101-115 | The axes are stored. When the key is held, a jump is ready and the body is grounded, the component clears readiness and schedules the reset, and the body jumps as `Movement.InputUpdateBody` describes. |
| Behaviour.PlayerMovement.HandleDrag | Assets/Scripts/Player/Movement/PlayerMovement.cs:117-127 | Drag becomes `groundDrag` on the ground and 0 in the air. The velocity is untouched. |
| Behaviour.PlayerMovement.StateHandler | Assets/Scripts/Player/Movement/PlayerMovement.cs:129-150 | Sprinting, walking or air by first-match precedence. The air branch leaves `moveSpeed` alone. |
| Behaviour.PlayerMovement.SpeedControl | Assets/Scripts/Player/Movement/PlayerMovement.cs:169-179 | The body's velocity becomes the capped velocity of `Movement.Clamp`. |
| Behaviour.PlayerMovement.Update | Assets/Scripts/Player/Movement/PlayerMovement.cs:81-88 | The five steps in the source's order leave the component as `Movement.Update` computes and the body as `Movement.UpdateBody` computes. |
| Behaviour.PlayerMovement.ResetJump | Assets/Scripts/Player/Movement/PlayerMovement.cs:189-192 | Only `readyToJump` changes, to true. |
| Behaviour.PlayerMovement.AdvanceClock | Assets/Scripts/Player/Movement/PlayerMovement.cs:113 | A pending reset comes `dt` closer. |
| Behaviour.PlayerMovement.RunDueInvoke | Assets/Scripts/Player/Movement/PlayerMovement.cs:113 | A reset whose time has come runs once and is no longer pending. |
| Behaviour.PlayerMovement.RunFrame | Assets/Scripts/Player/Movement/PlayerMovement.cs:81-88 | One frame leaves the component as `Movement.Tick` describes and the body as `Movement.TickBody` describes. A state satisfying the invariant keeps it when the clock does not run backwards. |
| Behaviour.PlayerMovement.FixedUpdate | Assets/Scripts/Player/Movement/PlayerMovement.cs:152-167 | The move direction is forward times the vertical axis plus right times the horizontal axis. The force `Movement.MoveForce` is added to the body's accumulated force, and nothing else changes. |

## Left out

- Ground sensing: `Physics.Raycast` (`PlayerMovement.cs:97`) is an engine
  query. Its answer is an input of each frame, so `playerHeight` and
  `whatIsGround` do not appear.
- Input: `Input.GetAxisRaw` and `Input.GetKey` are device reads. The axes
  and the key states are inputs of each frame; the key bindings do not
  appear.
- Physics integration: what the engine does with the accumulated force,
  with gravity and with drag between frames is not modelled.
  - Of the physics step, only the application of waiting impulses is
    modelled (`Movement.ImpulseStep`).
  - Within a frame, the velocity changes only through the jump's reset of
    the vertical velocity and through the cap.
  - The properties of one frame hold for every prior state, so they also
    cover whatever velocity the physics step leaves.
- Floating point: all arithmetic is exact over reals.
  - `Vector3.normalized` is taken exactly: the zero vector maps to zero and
    every other vector to its unit vector. The engine's small-magnitude
    threshold is left out.
  - The square root is the parameter `root`, assumed exact.
- `transform.up` is taken as world up. `Start` freezes the body's rotation,
  but `freezeRotation` itself is not modelled.
- `Invoke` timing: the engine's clock is an input `dt` per frame. A
  scheduled `ResetJump` runs after `Update` in the first frame whose time
  reaches the delay; a delay of 0 or less is due in the jump's own frame.
  Time scale and the engine's exact scheduling order, including whether a
  zero-delay call waits for the next frame, are not modelled.
- `FixedUpdate` and `Update` are separate methods. Their interleaving by
  the engine's two clocks is not modelled, and no property relates them.
- Crouching and slopes: `crouchSpeed` and `crouchYScale`
  (`PlayerMovement.cs:40-41`) are declared but never read. The state enum
  has no crouching state, and the code has no slope logic.
- `Assets/Scripts/Camera/PlayerCam.cs` and
  `Assets/Scripts/Camera/MoveCamera.cs` are not part of this model. They
  only write camera transforms; their orientation reaches the model only
  as the `forward` and `right` axes passed to `FixedUpdate`.
- Traces.JumpStartsCooldown: stated only for a positive `jumpCooldown`.
  For a cooldown of 0 or less, `Movement.Tick` states that the reset runs
  in the jump's own frame.
- Movement.ClampCapsFlatSpeed: stated only for a non-negative `moveSpeed`.
  For a negative one, the engine's behaviour is modelled by `Movement.Clamp`
  but no cap is claimed.
