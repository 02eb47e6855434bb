/** The older C driver of src/stepper_motor.c: the same struct of pins and
    counters, a speed that is a plain `uint8_t` delay multiplier, and a
    micro-step read-back that combines the pins with `&`. */
module LegacyStepperMotor {
  import opened Pins
  import opened AdvancedOpts
  import opened Environment
  import opened ActionQueueModel
  import opened StepperMotorDriver

  /** A pin level as a two-bit value. */
  function PinBits(level: bool): bv2 {
    if level then 1 else 0
  }

  /** `(ms2 << 1) & ms1`, the read-back as written: the shifted bit and the
      low bit never overlap, so the result is always MS_8. */
  function PinsAnd(ms1: bool, ms2: bool): (e: int)
    ensures e == MS_8
  {
    ((PinBits(ms2) << 1) & PinBits(ms1)) as int
  }

  /** `(ms2 << 1) | ms1`, the read-back the comment describes: the two-bit
      encoding the pins hold. */
  function PinsOr(ms1: bool, ms2: bool): (e: int)
    ensures e == PinsValue(ms1, ms2)
  {
    ((PinBits(ms2) << 1) | PinBits(ms1)) as int
  }

  /** Writing an encoding to the pins and reading it back with `|` returns
      it, where the `&` read-back returns MS_8 for all but MS_8 itself. */
  lemma PinsOrRoundTrip(e: int)
    requires IsEncoding(e)
    ensures PinsOr(e % 2 == 1, (e / 2) % 2 == 1) == e
    ensures e != MS_8 ==> PinsAnd(e % 2 == 1, (e / 2) % 2 == 1) != e
  {
    PinsRoundTrip(e);
  }

  /** `smSetSpeed`: the half-delay is the speed times 20 µs, plus 200 µs in
      quiet mode; a larger speed value is a slower motor. */
  function LegacyHalfDelay(speed: nat, quiet: bool): (d: nat)
    ensures d >= speed * MIN_US_PER_HALF_SMALLEST_MS
    ensures quiet ==> d - speed * MIN_US_PER_HALF_SMALLEST_MS == SM_QUIET_MODE_ADDITIONAL_US
    ensures !quiet ==> d == speed * MIN_US_PER_HALF_SMALLEST_MS
  {
    speed * MIN_US_PER_HALF_SMALLEST_MS + (if quiet then SM_QUIET_MODE_ADDITIONAL_US else 0)
  }

  /** A slower setting never gives a shorter pulse, and quiet mode adds the
      same 200 µs to every speed. */
  lemma {:induction false} LegacyDelayMonotone(s1: nat, s2: nat, q1: bool, q2: bool)
    requires s1 <= s2 && (q1 ==> q2)
    ensures LegacyHalfDelay(s1, q1) <= LegacyHalfDelay(s2, q2)
    ensures LegacyHalfDelay(s2, true) - LegacyHalfDelay(s2, false) ==
            LegacyHalfDelay(s1, true) - LegacyHalfDelay(s1, false)
  {
  }

  /** `struct StepperMotor` with the functions of src/stepper_motor.c. */
  class LegacyMotor {
    var enablePin: bool     // low enables the driver
    var dir: bool
    var ms1: bool
    var ms2: bool
    var quietMode: bool
    var stopMotor: bool
    var stepPosition: int
    var halfStepDelay: nat
    var speed: nat          // a float field that only ever holds a uint8_t
    var queuedAction: ActionType

    /** Steps taken since power-up, the clock of the environment. */
    var odometer: nat

    /** The half-delay of every pulse sent, oldest first. */
    ghost var pulses: seq<nat>

    /** The speed fits its `uint8_t` and the delay is the one it derives. */
    ghost predicate Valid()
      reads this`speed, this`halfStepDelay, this`quietMode
    {
      speed < 256 && halfStepDelay == LegacyHalfDelay(speed, quietMode)
    }

    /** `smGetMicroStep`: the `&` read-back, MS_8 whatever the pins hold. */
    function SmGetMicroStep(): (e: int)
      reads this`ms1, this`ms2
      ensures e == MS_8
    {
      PinsAnd(ms1, ms2)
    }

    /** `smGetMicroStepInt`: the decode of the read-back, so always 8. */
    function SmGetMicroStepInt(): (n: int)
      reads this`ms1, this`ms2
      ensures n == 8
    {
      MsDecode(SmGetMicroStep())
    }

    /** The encoding the pins actually hold, read with `|`. */
    function SmGetMicroStepCorrected(): (e: int)
      reads this`ms1, this`ms2
      ensures IsEncoding(e) && e == PinsValue(ms1, ms2)
    {
      PinsOr(ms1, ms2)
    }

    /** `smInit`: driver enabled, direction low, not quiet, no stop, position
        zero, nothing queued; then the initial resolution and speed. */
    constructor (initialMicroStep: nat, initialSpeed: nat)
      requires initialSpeed < 256
      ensures Valid()
      ensures !enablePin && !dir && !quietMode && !stopMotor
      ensures stepPosition == 0 && queuedAction == NONE
      ensures PinsValue(ms1, ms2) == (if IsEncoding(initialMicroStep) then initialMicroStep else MS_64)
      ensures speed == initialSpeed && halfStepDelay == LegacyHalfDelay(initialSpeed, false)
      ensures odometer == 0 && pulses == []
    {
      enablePin, dir, ms1, ms2 := false, false, false, false;
      quietMode := false;
      stopMotor := false;
      stepPosition := 0;
      queuedAction := NONE;
      speed := 0;
      halfStepDelay := 0;
      odometer := 0;
      pulses := [];
      new;
      SmSetMicroStep(initialMicroStep);
      SmSetSpeed(initialSpeed);
    }

    /** `smSetMicroStep`: normalises an unknown encoding to MS_64 and writes
        it to the pins. The current resolution always reads as 8, the
        coarsest, so the alignment branch is never taken and nothing moves. */
    method SmSetMicroStep(microStep: nat)
      modifies this`ms1, this`ms2
      ensures PinsValue(ms1, ms2) == (if IsEncoding(microStep) then microStep else MS_64)
      ensures SmGetMicroStep() == MS_8
    {
      var currentInt := SmGetMicroStepInt();
      var desiredInt, desired;
      if microStep == MS_8 {
        desiredInt, desired := 8, MS_8;
      } else if microStep == MS_16 {
        desiredInt, desired := 16, MS_16;
      } else if microStep == MS_32 {
        desiredInt, desired := 32, MS_32;
      } else if microStep == MS_64 {
        desiredInt, desired := 64, MS_64;
      } else {
        desiredInt, desired := 64, MS_64;
      }
      if desiredInt < currentInt {
        // No resolution is coarser than 8.
        assert false;
      }
      ms1 := desired % 2 == 1;
      ms2 := (desired / 2) % 2 == 1;
      PinsRoundTrip(desired);
    }

    method SmEnable()
      modifies this`enablePin
      ensures !enablePin
    {
      enablePin := false;
    }

    method SmDisable()
      modifies this`enablePin
      ensures enablePin
    {
      enablePin := true;
    }

    method SmSetDir(d: bool)
      modifies this`dir
      ensures dir == d
    {
      dir := d;
    }

    method SmSwapDir()
      modifies this`dir
      ensures dir == !old(dir)
    {
      SmSetDir(!dir);
    }

    /** `smSetSpeed(speed)`: stores the value and derives the half-delay. */
    method SmSetSpeed(newSpeed: nat)
      requires newSpeed < 256
      modifies this`speed, this`halfStepDelay
      ensures Valid()
      ensures speed == newSpeed && halfStepDelay == LegacyHalfDelay(newSpeed, quietMode)
    {
      speed := newSpeed;
      halfStepDelay := newSpeed * MIN_US_PER_HALF_SMALLEST_MS +
                       (if quietMode then SM_QUIET_MODE_ADDITIONAL_US else 0);
    }

    /** `smSetQuietMode(mode)`: keeps the speed and re-derives the delay, so
        switching the mode moves the delay by exactly 200 µs. */
    method SmSetQuietMode(mode: bool)
      requires Valid()
      modifies this`quietMode, this`speed, this`halfStepDelay
      ensures Valid()
      ensures quietMode == mode && speed == old(speed)
      ensures halfStepDelay == LegacyHalfDelay(speed, mode)
      ensures mode && !old(quietMode) ==> halfStepDelay == old(halfStepDelay) + SM_QUIET_MODE_ADDITIONAL_US
      ensures !mode && old(quietMode) ==> halfStepDelay + SM_QUIET_MODE_ADDITIONAL_US == old(halfStepDelay)
    {
      quietMode := mode;
      SmSetSpeed(speed);
    }

    /** `smGetPosition`: the signed position reinterpreted as `uint64_t`. */
    function SmGetPosition(): (p: nat)
      reads this`stepPosition
      ensures p < UINT64_RANGE && (p - stepPosition) % UINT64_RANGE == 0
    {
      AsUint64(stepPosition)
    }

    /** `smStepExact`: one pulse; the position moves 64 / 8 = 8 units, down
        when the direction pin is high, whatever resolution the pins hold. */
    method SmStepExact(halfDelay: nat)
      modifies this`stepPosition, this`odometer, this`pulses
      ensures stepPosition == old(stepPosition) + (if dir then -8 else 8)
      ensures odometer == old(odometer) + 1 && pulses == old(pulses) + [halfDelay]
    {
      if dir {
        stepPosition := stepPosition - SM_SMALLEST_MS / SmGetMicroStepInt();
      } else {
        stepPosition := stepPosition + SM_SMALLEST_MS / SmGetMicroStepInt();
      }
      odometer := odometer + 1;
      pulses := pulses + [halfDelay];
    }

    /** `smStep`: one pulse at the configured delay. */
    method SmStep()
      modifies this`stepPosition, this`odometer, this`pulses
      ensures stepPosition == old(stepPosition) + Displacement(dir, 8, 1)
      ensures odometer == old(odometer) + 1 && pulses == old(pulses) + [halfStepDelay]
    {
      SmStepExact(halfStepDelay);
    }

    /** Steps at the configured delay while switch `ls` reads `whileReading`. */
    method SmStepWhileSwitch(ls: int, whileReading: bool, env: Env, ghost horizon: nat)
      requires odometer <= horizon && env.triggered(ls, horizon) != whileReading
      modifies this`stepPosition, this`odometer, this`pulses
      ensures old(odometer) <= odometer <= horizon
      ensures forall n | old(odometer) <= n < odometer :: env.triggered(ls, n) == whileReading
      ensures env.triggered(ls, odometer) != whileReading
      ensures stepPosition == old(stepPosition) + Displacement(dir, 8, odometer - old(odometer))
    {
      while env.triggered(ls, odometer) == whileReading
        invariant old(odometer) <= odometer <= horizon
        invariant forall n | old(odometer) <= n < odometer :: env.triggered(ls, n) == whileReading
        invariant stepPosition == old(stepPosition) + Displacement(dir, 8, odometer - old(odometer))
        decreases horizon - odometer
      {
        SmStep();
      }
    }

    /** `n` steps at the configured delay. */
    method SmStepTimes(n: nat)
      modifies this`stepPosition, this`odometer, this`pulses
      ensures odometer == old(odometer) + n
      ensures stepPosition == old(stepPosition) + Displacement(dir, 8, n)
    {
      var i := 0;
      while i < n
        invariant 0 <= i <= n
        invariant odometer == old(odometer) + i
        invariant stepPosition == old(stepPosition) + Displacement(dir, 8, i)
      {
        SmStep();
        i := i + 1;
      }
    }

    /** The switch-seeking part of `smHome`: approach the home switch with
        speed 2 until its first triggered reading (`firstHit`), back off with
        speed 1 until its first clear reading (`cleared`) and 2000 steps
        further, then approach again with speed 4 until it triggers. */
    method SmSeekHome(env: Env, ghost h1: nat, ghost h2: nat, ghost h3: nat)
      returns (ghost firstHit: nat, ghost cleared: nat)
      requires odometer <= h1 <= h2 && h2 + 2000 <= h3
      requires env.triggered(LS_HOME, h1) && !env.triggered(LS_HOME, h2) && env.triggered(LS_HOME, h3)
      modifies this`speed, this`halfStepDelay, this`dir, this`stepPosition, this`odometer, this`pulses
      ensures dir == HOME_DIR && speed == 4
      ensures old(odometer) <= firstHit <= cleared && cleared + 2000 <= odometer <= h3
      ensures forall n | old(odometer) <= n < firstHit :: !env.triggered(LS_HOME, n)
      ensures env.triggered(LS_HOME, firstHit)
      ensures forall n | firstHit <= n < cleared :: env.triggered(LS_HOME, n)
      ensures !env.triggered(LS_HOME, cleared)
      ensures forall n | cleared + 2000 <= n < odometer :: !env.triggered(LS_HOME, n)
      ensures env.triggered(LS_HOME, odometer)
    {
      // The first approach.
      SmSetSpeed(2);
      SmStepWhileSwitch(LS_HOME, false, env, h1);
      firstHit := odometer;

      // Back off until the switch clears, then 2000 steps further.
      SmSetDir(!HOME_DIR);
      SmSetSpeed(1);
      SmStepWhileSwitch(LS_HOME, true, env, h2);
      cleared := odometer;
      SmStepTimes(2000);

      // The second, slower approach.
      SmSetDir(HOME_DIR);
      SmSetSpeed(4);
      SmStepWhileSwitch(LS_HOME, false, env, h3);
    }

    /** `smHome`: seek the home switch, call that zero, then restore the
        direction, the encoding read back (always MS_8, so the pins end low)
        and the speed, which is exact here. */
    method SmHome(env: Env, ghost h1: nat, ghost h2: nat, ghost h3: nat)
      requires Valid()
      requires odometer <= h1 <= h2 && h2 + 2000 <= h3
      requires env.triggered(LS_HOME, h1) && !env.triggered(LS_HOME, h2) && env.triggered(LS_HOME, h3)
      modifies this`speed, this`halfStepDelay, this`ms1, this`ms2, this`dir,
               this`stepPosition, this`odometer, this`pulses
      ensures Valid()
      ensures stepPosition == 0 && dir == old(dir)
      ensures speed == old(speed) && halfStepDelay == LegacyHalfDelay(speed, quietMode)
      ensures !ms1 && !ms2
      ensures env.triggered(LS_HOME, odometer)
      ensures old(odometer) + 2000 <= odometer <= h3
    {
      var savedDir := dir;
      var savedMs := SmGetMicroStep();
      var savedSpeed := speed;

      SmSetDir(HOME_DIR);
      SmSetMicroStep(MS_64);
      ghost var firstHit, cleared := SmSeekHome(env, h1, h2, h3);

      stepPosition := 0;

      SmSetDir(savedDir);
      SmSetMicroStep(savedMs);
      SmSetSpeed(savedSpeed);
    }

    /** The shared loop of `smClose` and `smOpen`. */
    method SmTravelUntil(ls: int, target: int, env: Env, ghost horizon: nat)
      requires odometer <= horizon && (env.stopRequested(horizon) || env.triggered(ls, horizon))
      requires !stopMotor
      modifies this`stopMotor, this`stepPosition, this`odometer, this`pulses
      ensures old(odometer) <= odometer <= horizon
      ensures stopMotor == env.stopRequested(odometer)
      ensures stopMotor || env.triggered(ls, odometer) || stepPosition == target
      ensures forall n | old(odometer) <= n < odometer :: !env.stopRequested(n) && !env.triggered(ls, n)
      ensures forall j | 0 <= j < odometer - old(odometer) ::
                PositionAfterSteps(old(stepPosition), dir, 8, j) != target
      ensures old(stepPosition) == target ==> odometer == old(odometer)
      ensures stepPosition == old(stepPosition) + Displacement(dir, 8, odometer - old(odometer))
    {
      if env.stopRequested(odometer) {
        stopMotor := true;
      }
      while !stopMotor && !env.triggered(ls, odometer) && stepPosition != target
        invariant old(odometer) <= odometer <= horizon
        invariant stopMotor == env.stopRequested(odometer)
        invariant forall n | old(odometer) <= n < odometer :: !env.stopRequested(n) && !env.triggered(ls, n)
        invariant forall j | 0 <= j < odometer - old(odometer) ::
                    PositionAfterSteps(old(stepPosition), dir, 8, j) != target
        invariant old(stepPosition) == target ==> odometer == old(odometer)
        invariant stepPosition == old(stepPosition) + Displacement(dir, 8, odometer - old(odometer))
        decreases horizon - odometer
      {
        SmStep();
        if env.stopRequested(odometer) {
          stopMotor := true;
        }
      }
    }

    /** `smClose`: clears the stop flag and steps CLOSE_DIR until a stop, the
        closed switch or the closed position; it neither records a state nor
        resets the position at the switch. */
    method SmClose(env: Env, ghost horizon: nat) returns (ok: bool)
      requires odometer <= horizon
      requires env.stopRequested(horizon) || env.triggered(LS_CLOSED, horizon)
      modifies this`dir, this`stopMotor, this`stepPosition, this`odometer, this`pulses
      ensures dir == CLOSE_DIR
      ensures ok == !stopMotor && stopMotor == env.stopRequested(odometer)
      ensures ok ==> env.triggered(LS_CLOSED, odometer) || stepPosition == WINDOW_CLOSED_STEP_POSITION
      ensures old(odometer) <= odometer <= horizon
      ensures forall n | old(odometer) <= n < odometer ::
                !env.stopRequested(n) && !env.triggered(LS_CLOSED, n)
      ensures old(stepPosition) == WINDOW_CLOSED_STEP_POSITION ==> odometer == old(odometer)
      ensures forall j | 0 <= j < odometer - old(odometer) ::
                PositionAfterSteps(old(stepPosition), CLOSE_DIR, 8, j) != WINDOW_CLOSED_STEP_POSITION
      ensures stepPosition == old(stepPosition) + Displacement(CLOSE_DIR, 8, odometer - old(odometer))
    {
      SmSetDir(CLOSE_DIR);
      stopMotor := false;
      SmTravelUntil(LS_CLOSED, WINDOW_CLOSED_STEP_POSITION, env, horizon);
      ok := !stopMotor;
    }

    /** `smOpen`: the same towards the open switch and position. */
    method SmOpen(env: Env, ghost horizon: nat) returns (ok: bool)
      requires odometer <= horizon
      requires env.stopRequested(horizon) || env.triggered(LS_OPEN, horizon)
      modifies this`dir, this`stopMotor, this`stepPosition, this`odometer, this`pulses
      ensures dir == OPEN_DIR
      ensures ok == !stopMotor && stopMotor == env.stopRequested(odometer)
      ensures ok ==> env.triggered(LS_OPEN, odometer) || stepPosition == WINDOW_OPEN_STEP_POSITION
      ensures old(odometer) <= odometer <= horizon
      ensures forall n | old(odometer) <= n < odometer ::
                !env.stopRequested(n) && !env.triggered(LS_OPEN, n)
      ensures old(stepPosition) == WINDOW_OPEN_STEP_POSITION ==> odometer == old(odometer)
      ensures forall j | 0 <= j < odometer - old(odometer) ::
                PositionAfterSteps(old(stepPosition), OPEN_DIR, 8, j) != WINDOW_OPEN_STEP_POSITION
      ensures stepPosition == old(stepPosition) + Displacement(OPEN_DIR, 8, odometer - old(odometer))
    {
      SmSetDir(OPEN_DIR);
      stopMotor := false;
      SmTravelUntil(LS_OPEN, WINDOW_OPEN_STEP_POSITION, env, horizon);
      ok := !stopMotor;
    }

    /** `smStop`: only raises the flag. */
    method SmStop()
      modifies this`stopMotor
      ensures stopMotor
    {
      stopMotor := true;
    }
  }

  /** The `&` read-back on a motor: after selecting MS_64 the pins hold 0b10, but
      `smGetMicroStep` reports MS_8 and `smGetMicroStepInt` 8. */
  method ReadBackScenario() returns (held: int, readBack: int, readBackInt: int)
    ensures held == MS_64 && readBack == MS_8 && readBackInt == 8
  {
    var motor := new LegacyMotor(MS_64, 10);
    held, readBack, readBackInt := motor.SmGetMicroStepCorrected(), motor.SmGetMicroStep(), motor.SmGetMicroStepInt();
  }
}
