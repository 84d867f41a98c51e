/**
 * Runs of the controller over a sequence of frames, and what holds along
 * them: the invariant, the speed the air keeps, and the spacing of jumps
 * that the deferred `ResetJump` enforces.
 */
module Traces {
  import opened Movement

  /** The controller after the frames `fs`, in order. */
  function Run(cfg: Config, c: Controller, fs: seq<Frame>): (r: Controller)
    ensures r.moveSpeed == c.moveSpeed || r.moveSpeed == cfg.walkSpeed || r.moveSpeed == cfg.sprintSpeed
    decreases |fs|
  {
    if fs == [] then c
    else Tick(cfg, Run(cfg, c, fs[..|fs| - 1]), fs[|fs| - 1])
  }

  /** The time the frames `fs` span, the sum of their `dt`. */
  function Elapsed(fs: seq<Frame>): real
    decreases |fs|
  {
    if fs == [] then 0.0 else Elapsed(fs[..|fs| - 1]) + fs[|fs| - 1].dt
  }

  /** The clock never runs backwards. */
  predicate ClockRuns(fs: seq<Frame>) {
    forall k :: 0 <= k < |fs| ==> fs[k].dt >= 0.0
  }

  /** Any stretch of a run whose clock never runs backwards has the same property. */
  lemma ClockRunsSlice(fs: seq<Frame>, lo: int, hi: int)
    requires ClockRuns(fs) && 0 <= lo <= hi <= |fs|
    ensures ClockRuns(fs[lo..hi])
  {
    forall k | 0 <= k < hi - lo ensures fs[lo..hi][k].dt >= 0.0 {
      assert fs[lo..hi][k] == fs[lo + k];
    }
  }

  /** Time spent by frames whose clock never runs backwards is never negative. */
  lemma {:induction false} ElapsedNonNegative(fs: seq<Frame>)
    requires ClockRuns(fs)
    ensures Elapsed(fs) >= 0.0
    decreases |fs|
  {
    if fs != [] {
      ClockRunsSlice(fs, 0, |fs| - 1);
      assert fs[0..|fs| - 1] == fs[..|fs| - 1];
      ElapsedNonNegative(fs[..|fs| - 1]);
    }
  }

  /** No frame of `fs` finds ground. */
  predicate Airborne(fs: seq<Frame>) {
    forall k :: 0 <= k < |fs| ==> !fs[k].hit
  }

  /** Whether frame `k` of `fs`, run from `c`, makes the controller jump. */
  predicate JumpsAt(cfg: Config, c: Controller, fs: seq<Frame>, k: int)
    requires 0 <= k < |fs|
  {
    JumpsOn(Run(cfg, c, fs[..k]), fs[k])
  }

  /** Running two stretches of frames one after the other is running their concatenation. */
  lemma {:induction false} RunAppend(cfg: Config, c: Controller, xs: seq<Frame>, ys: seq<Frame>)
    ensures Run(cfg, c, xs + ys) == Run(cfg, Run(cfg, c, xs), ys)
    decreases |ys|
  {
    if ys == [] {
      assert xs + ys == xs;
    } else {
      var n := |ys| - 1;
      assert (xs + ys)[..|xs + ys| - 1] == xs + ys[..n];
      assert (xs + ys)[|xs + ys| - 1] == ys[n];
      RunAppend(cfg, c, xs, ys[..n]);
    }
  }

  /** The component before its first frame satisfies the invariant. */
  lemma InitialSatisfiesInv(cfg: Config)
    ensures Inv(cfg, Initial)
  {}

  /** Every reachable controller satisfies the invariant. */
  lemma {:induction false} RunKeepsInv(cfg: Config, c: Controller, fs: seq<Frame>)
    requires Inv(cfg, c) && ClockRuns(fs)
    ensures Inv(cfg, Run(cfg, c, fs))
    decreases |fs|
  {
    if fs != [] {
      var p := fs[..|fs| - 1];
      ClockRunsSlice(fs, 0, |fs| - 1);
      assert fs[0..|fs| - 1] == p;
      RunKeepsInv(cfg, c, p);
    }
  }

  /** In the air the target speed is never touched: it stays what it was when the body left the ground. */
  lemma {:induction false} AirKeepsMoveSpeed(cfg: Config, c: Controller, fs: seq<Frame>)
    requires Airborne(fs)
    ensures Run(cfg, c, fs).moveSpeed == c.moveSpeed
    ensures fs != [] ==> Run(cfg, c, fs).state == Air
    decreases |fs|
  {
    if fs != [] {
      var p := fs[..|fs| - 1];
      assert Airborne(p) by {
        forall k | 0 <= k < |p| ensures !p[k].hit {
          assert p[k] == fs[k];
        }
      }
      AirKeepsMoveSpeed(cfg, c, p);
    }
  }

  /** A controller that has only ever been in the air still has the initial target speed 0. */
  lemma {:induction false} NeverGroundedKeepsZeroSpeed(cfg: Config, fs: seq<Frame>)
    requires Airborne(fs)
    ensures Run(cfg, Initial, fs).moveSpeed == 0.0
  {
    AirKeepsMoveSpeed(cfg, Initial, fs);
  }

  /**
   * After a grounded frame `k` and only airborne frames since, the target
   * speed is the one frame `k` chose: the sprint speed if sprint was held
   * then, the walk speed otherwise.
   */
  lemma {:induction false} MoveSpeedIsLastGroundedChoice(cfg: Config, c: Controller, fs: seq<Frame>, k: int)
    requires 0 <= k < |fs| && fs[k].hit
    requires Airborne(fs[k + 1..])
    ensures Run(cfg, c, fs).moveSpeed == if fs[k].sprintHeld then cfg.sprintSpeed else cfg.walkSpeed
  {
    var head := fs[..k + 1];
    assert head[..k] == fs[..k] && head[k] == fs[k];
    assert fs == head + fs[k + 1..];
    RunAppend(cfg, c, head, fs[k + 1..]);
    AirKeepsMoveSpeed(cfg, Run(cfg, c, head), fs[k + 1..]);
  }

  /**
   * Before the cooldown is over, the pending reset is still pending, with
   * the elapsed time taken off, and no jump is ready.
   */
  lemma {:induction false} ResetPendingWhileCooling(cfg: Config, c: Controller, fs: seq<Frame>, left: real)
    requires ClockRuns(fs)
    requires c.timer == Scheduled(left) && !c.readyToJump && Elapsed(fs) < left
    ensures Run(cfg, c, fs).timer == Scheduled(left - Elapsed(fs))
    ensures !Run(cfg, c, fs).readyToJump
    decreases |fs|
  {
    if fs != [] {
      var p := fs[..|fs| - 1];
      ClockRunsSlice(fs, 0, |fs| - 1);
      assert fs[0..|fs| - 1] == p;
      ResetPendingWhileCooling(cfg, c, p, left);
    }
  }

  /**
   * In the frame whose time reaches the cooldown, the reset runs: the
   * controller is ready to jump again and nothing is pending.
   */
  lemma ResetFiresOnceCooldownElapsed(cfg: Config, c: Controller, fs: seq<Frame>, left: real)
    requires ClockRuns(fs) && fs != []
    requires c.timer == Scheduled(left) && !c.readyToJump
    requires Elapsed(fs[..|fs| - 1]) < left <= Elapsed(fs)
    ensures Run(cfg, c, fs).timer.Idle? && Run(cfg, c, fs).readyToJump
  {
    var p := fs[..|fs| - 1];
    ClockRunsSlice(fs, 0, |fs| - 1);
    assert fs[0..|fs| - 1] == p;
    ResetPendingWhileCooling(cfg, c, p, left);
  }

  /** With nothing pending and no jump, nothing becomes pending and readiness does not change. */
  lemma {:induction false} NoResetWithoutJump(cfg: Config, c: Controller, fs: seq<Frame>)
    requires c.timer.Idle?
    requires forall k :: 0 <= k < |fs| ==> !JumpsAt(cfg, c, fs, k)
    ensures Run(cfg, c, fs).timer.Idle?
    ensures Run(cfg, c, fs).readyToJump == c.readyToJump
    decreases |fs|
  {
    if fs != [] {
      var p := fs[..|fs| - 1];
      forall k | 0 <= k < |p|
        ensures !JumpsAt(cfg, c, p, k)
      {
        assert p[..k] == fs[..k] && p[k] == fs[k];
        assert !JumpsAt(cfg, c, fs, k);
      }
      NoResetWithoutJump(cfg, c, p);
      assert fs[..|fs| - 1] == p;
      assert !JumpsAt(cfg, c, fs, |fs| - 1);
    }
  }

  /** With a positive cooldown, a jump leaves the controller unready, with one reset pending a full cooldown away. */
  lemma JumpStartsCooldown(cfg: Config, c: Controller, fs: seq<Frame>, i: int)
    requires cfg.jumpCooldown > 0.0 && 0 <= i < |fs| && JumpsAt(cfg, c, fs, i)
    ensures Run(cfg, c, fs[..i + 1]).timer == Scheduled(cfg.jumpCooldown)
    ensures !Run(cfg, c, fs[..i + 1]).readyToJump
  {
    var head := fs[..i + 1];
    assert head[..i] == fs[..i] && head[i] == fs[i];
  }

  /** The frames from `i + 1` up to `j` resume the run at the state frame `i` left. */
  lemma RunResumes(cfg: Config, c: Controller, fs: seq<Frame>, i: int, j: int)
    requires 0 <= i < j <= |fs|
    ensures Run(cfg, c, fs[..j]) == Run(cfg, Run(cfg, c, fs[..i + 1]), fs[i + 1..j])
  {
    assert fs[..j] == fs[..i + 1] + fs[i + 1..j];
    RunAppend(cfg, c, fs[..i + 1], fs[i + 1..j]);
  }

  /** Until a full cooldown has passed since a jump, no jump is ready. */
  lemma UnreadyAfterJump(cfg: Config, c: Controller, fs: seq<Frame>, i: int, j: int)
    requires ClockRuns(fs) && 0 <= i < j <= |fs|
    requires JumpsAt(cfg, c, fs, i)
    ensures Elapsed(fs[i + 1..j]) < cfg.jumpCooldown ==> !Run(cfg, c, fs[..j]).readyToJump
  {
    ClockRunsSlice(fs, i + 1, j);
    ElapsedNonNegative(fs[i + 1..j]);
    if Elapsed(fs[i + 1..j]) < cfg.jumpCooldown {
      JumpStartsCooldown(cfg, c, fs, i);
      RunResumes(cfg, c, fs, i, j);
      ResetPendingWhileCooling(cfg, Run(cfg, c, fs[..i + 1]), fs[i + 1..j], cfg.jumpCooldown);
    }
  }

  /**
   * The frame after a jump whose time first reaches the cooldown runs the
   * reset: the controller is ready to jump again and nothing is pending.
   * Here `fs[..j]` ends with that frame.
   */
  lemma ReadyOnceCooldownElapsed(cfg: Config, c: Controller, fs: seq<Frame>, i: int, j: int)
    requires ClockRuns(fs) && 0 <= i && i + 1 < j <= |fs|
    requires JumpsAt(cfg, c, fs, i)
    requires Elapsed(fs[i + 1..j - 1]) < cfg.jumpCooldown <= Elapsed(fs[i + 1..j])
    ensures Run(cfg, c, fs[..j]).readyToJump && Run(cfg, c, fs[..j]).timer.Idle?
  {
    var tail := fs[i + 1..j];
    ClockRunsSlice(fs, i + 1, j);
    ClockRunsSlice(fs, i + 1, j - 1);
    ElapsedNonNegative(fs[i + 1..j - 1]);
    JumpStartsCooldown(cfg, c, fs, i);
    RunResumes(cfg, c, fs, i, j);
    assert tail[..|tail| - 1] == fs[i + 1..j - 1];
    ResetFiresOnceCooldownElapsed(cfg, Run(cfg, c, fs[..i + 1]), tail, cfg.jumpCooldown);
  }

  /**
   * Two jumps are at least a cooldown apart: the frames after the first
   * jump and before the second span at least `jumpCooldown`.
   */
  lemma JumpsAreCooldownApart(cfg: Config, c: Controller, fs: seq<Frame>, i: int, j: int)
    requires ClockRuns(fs) && 0 <= i < j < |fs|
    requires JumpsAt(cfg, c, fs, i) && JumpsAt(cfg, c, fs, j)
    ensures Elapsed(fs[i + 1..j]) >= cfg.jumpCooldown
  {
    UnreadyAfterJump(cfg, c, fs, i, j);
  }
}
