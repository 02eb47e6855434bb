/** The window's stepper-motor driver, `StepperMotor` of
    code/src/stepper_motor.cc, with the options of the shipped build. Pins
    are plain fields, `sleep_us` does nothing, and the limit switches and
    stop requests come from an `Env` oracle read against the odometer. */
module StepperMotorDriver {
  import opened Common
  import opened Pins
  import opened AdvancedOpts
  import opened MotorConsts
  import opened SpeedSelection
  import opened Environment
  import opened Wrappers
  import opened ActionQueueModel

  // Directions, switch pins and end positions of the shipped build.
  const CLOSE_DIR: bool := CloseDir(Shipped) == 1
  const OPEN_DIR: bool := OpenDir(Shipped) == 1
  const HOME_DIR: bool := HomeDir(Shipped) == 1
  const LEFT_DIR: bool := LeftDir(Shipped) == 1
  const LS_LEFT: int := Shipped.lsLeft
  const LS_RIGHT: int := Shipped.lsRight
  const LS_HOME: int := LsHome(Shipped)
  const LS_CLOSED: int := LsClosed(Shipped)
  const LS_OPEN: int := LsOpen(Shipped)
  const WINDOW_CLOSED_STEP_POSITION: int := ClosedStepPosition(Shipped)
  const WINDOW_OPEN_STEP_POSITION: int := OpenStepPosition(Shipped)
  /** `WINDOW_WIDTH_MM * SM_FULL_STEPS_PER_MM * SM_SMALLEST_MS`. */
  const WINDOW_STEPS: nat := FullTravel(Shipped)

  /** 2^64, for the `uint64_t` arithmetic of positions. */
  const UINT64_RANGE: nat := 0x1_0000_0000_0000_0000

  /** The position change of `n` steps of `unit` each in direction `d`:
      a high direction pin counts down. */
  function Displacement(d: bool, unit: int, n: int): int {
    if d then -(n * unit) else n * unit
  }

  /** The position `n` steps of `unit` each in direction `d` lead to from
      `start`. */
  function PositionAfterSteps(start: int, d: bool, unit: int, n: int): int {
    start + Displacement(d, unit, n)
  }

  /** `n` pulses of the same half-delay. */
  function Repeat(x: nat, n: nat): (r: seq<nat>)
    ensures |r| == n && forall i | 0 <= i < n :: r[i] == x
  {
    if n == 0 then [] else Repeat(x, n - 1) + [x]
  }

  /** One more pulse of the same delay extends the run. */
  lemma RepeatExtend(x: nat, n: nat)
    ensures Repeat(x, n) + [x] == Repeat(x, n + 1)
  {
  }

  /** The switch that bounds travel in direction `d`. */
  function LimitSwitchFor(d: bool): (ls: int)
    ensures d == OPEN_DIR ==> ls == LS_OPEN
    ensures d == CLOSE_DIR ==> ls == LS_CLOSED
  {
    if d == LEFT_DIR then LS_LEFT else LS_RIGHT
  }

  /** C's `/` on `int64_t`: the quotient is truncated towards zero. */
  function CQuot(a: int, b: int): int
    requires b > 0
  {
    if a >= 0 then a / b else -((-a) / b)
  }

  /** C's `%` on `int64_t`: the remainder has the sign of the dividend and
      completes the truncated quotient. */
  function CRem(a: int, b: int): (r: int)
    requires b > 0
    ensures a >= 0 ==> 0 <= r < b
    ensures a < 0 ==> -b < r <= 0
    ensures a == b * CQuot(a, b) + r
  {
    if a >= 0 then a % b
    else
      var q := (-a) / b;
      assert -a == b * q + (-a) % b;
      assert b * (-q) == -(b * q);
      -((-a) % b)
  }

  /** `required_steps` of `setMicroStep`: the remainder of the position by
      the new pitch, less one pitch when the position is negative. */
  function AlignmentSteps(pos: int, pitch: int): (n: int)
    requires pitch > 0
    ensures pos >= 0 ==> 0 <= n < pitch
    ensures pos < 0 ==> n < 0
  {
    var required := CRem(pos, pitch);
    if pos < 0 then required - pitch else required
  }

  /** How many steps `setMicroStep` takes when going from `currentInt` to
      `newInt` micro-steps at position `pos`: only towards a coarser
      resolution, and never a negative number. */
  function AlignmentStepsTaken(pos: int, currentInt: int, newInt: int): (n: nat)
    requires IsResolution(newInt)
  {
    if newInt < currentInt then MaxInt(AlignmentSteps(pos, StepUnit(newInt)), 0) else 0
  }

  /** The position `setMicroStep` leaves: its alignment steps are taken at
      the CURRENT resolution, towards zero (direction pin high when the
      position is not negative). */
  function PositionAfterSetMicroStep(pos: int, currentInt: int, newInt: int): int
    requires IsResolution(currentInt) && IsResolution(newInt)
  {
    pos + Displacement(pos >= 0, StepUnit(currentInt), AlignmentStepsTaken(pos, currentInt, newInt))
  }

  /** From the finest resolution, a coarser one realigns a non-negative
      position down to the nearest multiple of its pitch; a negative position
      or a change to a finer resolution never moves. */
  lemma SetMicroStepAlignsFromFinest(pos: int, newInt: int)
    requires IsResolution(newInt)
    ensures var after := PositionAfterSetMicroStep(pos, 64, newInt);
            (pos >= 0 ==> after % StepUnit(newInt) == 0 && 0 <= after <= pos &&
                          pos - after < StepUnit(newInt)) &&
            (pos < 0 ==> after == pos)
  {
    var pitch := StepUnit(newInt);
    if pos >= 0 {
      var r := pos % pitch;
      assert CRem(pos, pitch) == r;
      assert AlignmentStepsTaken(pos, 64, newInt) == if newInt < 64 then r else 0;
      var taken: int := AlignmentStepsTaken(pos, 64, newInt);
      assert Displacement(true, 1, taken) == -taken;
      RoundDownToPitch(pos, pitch);
    } else {
      assert AlignmentStepsTaken(pos, 64, newInt) == 0;
    }
  }

  /** Taking away the remainder leaves a multiple of the pitch. */
  lemma RoundDownToPitch(pos: nat, pitch: int)
    requires pitch == 1 || pitch == 2 || pitch == 4 || pitch == 8
    ensures (pos - pos % pitch) % pitch == 0 && 0 <= pos % pitch < pitch
  {
    var q := pos / pitch;
    assert pos - pos % pitch == pitch * q;
    PitchMultiple(pitch, q);
  }

  /** Zero is aligned to every pitch, so re-selecting a resolution at
      position zero never steps. */
  lemma SetMicroStepKeepsZero(currentInt: int, newInt: int)
    requires IsResolution(currentInt) && IsResolution(newInt)
    ensures AlignmentStepsTaken(0, currentInt, newInt) == 0
    ensures PositionAfterSetMicroStep(0, currentInt, newInt) == 0
  {
  }

  /** `getPosition()`: the signed position reinterpreted as `uint64_t`. */
  function AsUint64(pos: int): (p: nat)
    ensures p < UINT64_RANGE && (p - pos) % UINT64_RANGE == 0
    ensures 0 <= pos < UINT64_RANGE ==> p == pos
    ensures -(UINT64_RANGE as int) <= pos < 0 ==> p - pos == UINT64_RANGE
  {
    pos % UINT64_RANGE
  }

  /** `moveToPosition`'s plan: the direction and the unsigned distance. */
  datatype MovePlan = MovePlan(dir: bool, delta: nat)

  /** Towards a larger target the motor turns OPEN_DIR, otherwise CLOSE_DIR,
      and the distance is the difference taken the non-negative way round, so
      it never wraps. */
  function PlanMove(target: nat, current: nat): (p: MovePlan)
    requires target < UINT64_RANGE && current < UINT64_RANGE
    ensures p.delta < UINT64_RANGE
    ensures target > current ==> p.dir == OPEN_DIR && current + p.delta == target
    ensures target <= current ==> p.dir == CLOSE_DIR && current - p.delta == target
  {
    if target > current then MovePlan(OPEN_DIR, target - current)
    else MovePlan(CLOSE_DIR, current - target)
  }

  /** `percentageToSteps(p)`: `llround` of the percentage of the window
      width in steps, for a non-negative percentage. */
  function PercentageToSteps(percentage: real): (steps: nat)
    requires percentage >= 0.0
    ensures (steps as real) - 0.5 <= percentage * WINDOW_STEPS as real / 100.0
    ensures percentage * WINDOW_STEPS as real / 100.0 < (steps as real) + 0.5
  {
    (percentage * WINDOW_STEPS as real / 100.0 + 0.5).Floor
  }

  /** `uint8_t saved_speed = getSpeed()`: truncation towards zero. */
  function TruncateToByte(x: real): (r: nat)
    requires 0.0 <= x < 256.0
    ensures r < 256 && r as real <= x < (r + 1) as real
  {
    x.Floor
  }

  /** `SM_FULL_STEPS_PER_MM * ms * 7`: the homing back-off, 7 mm of steps. */
  function BackOffSteps(ms: int): (n: nat)
    requires IsResolution(ms)
    ensures n * StepUnit(ms) == 7 * SM_FULL_STEPS_PER_MM * SM_SMALLEST_MS
  {
    SM_FULL_STEPS_PER_MM * ms * 7
  }

  class StepperMotor {
    var enablePin: bool     // the enable line; low enables the driver
    var dir: bool           // the direction pin
    var ms1: bool           // micro-step select, low bit
    var ms2: bool           // micro-step select, high bit
    var quietMode: bool
    var stopMotor: bool
    var stepPosition: int   // int64_t, in 1/64 micro-steps
    var halfStepDelay: nat  // uint64_t, microseconds
    var speed: real         // float, mm/s, as last requested
    var state: State
    var queuedAction: ActionType

    /** Steps taken since power-up: not a firmware field but the clock the
        environment is read against. */
    var odometer: nat

    /** The half-delay of every pulse sent, oldest first. */
    ghost var pulses: seq<nat>

    /** The speed is positive and the configured half-delay is the one
        `setSpeed` selects for it in the current mode. */
    ghost predicate Valid()
      reads this`speed, this`halfStepDelay, this`quietMode
    {
      speed > 0.0 && halfStepDelay == SpeedSetting(speed, quietMode).halfDelay
    }

    /** Under the invariant every pulse at the configured delay respects the
        floor of the finest resolution, and of its quiet variant in quiet
        mode. */
    lemma DelayAboveFloor()
      requires Valid()
      ensures halfStepDelay >= MinHalfDelay(64)
      ensures quietMode ==> halfStepDelay >= MinHalfDelayQuiet(64)
    {
      SpeedSettingRespectsFloors(speed, quietMode);
    }

    /** `getMicroStep()`: `(ms2 << 1) | ms1`. */
    function MicroStep(): (e: int)
      reads this`ms1, this`ms2
      ensures IsEncoding(e)
    {
      PinsValue(ms1, ms2)
    }

    /** `getMicroStepInt()`: the resolution the pins select, always one of the
        four (the fallback 1 of the decode is out of reach of two pins). */
    function MicroStepInt(): (n: int)
      reads this`ms1, this`ms2
      ensures IsResolution(n) && MsEncode(n) == MicroStep()
    {
      MsDecode(MicroStep())
    }

    /** `SM_SMALLEST_MS / getMicroStepInt()`: the position change of one step. */
    function Unit(): (u: int)
      reads this`ms1, this`ms2
      ensures u == 1 || u == 2 || u == 4 || u == 8
    {
      StepUnit(MicroStepInt())
    }

    /** `getPosition()`. */
    function GetPosition(): (p: nat)
      reads this`stepPosition
      ensures p < UINT64_RANGE && (p - stepPosition) % UINT64_RANGE == 0
    {
      AsUint64(stepPosition)
    }

    /** `stepsToPercentage(steps)`: computed from the motor's own position;
        the argument is ignored. */
    function StepsToPercentage(steps: nat): (r: real)
      reads this`stepPosition
      ensures r * WINDOW_STEPS as real == 100.0 * stepPosition as real
    {
      (100.0 * stepPosition as real) / (WINDOW_STEPS as real)
    }

    /** `getPositionPercentage()`: the exact percentage rounded to the
        nearest integer, halves away from zero. */
    function GetPositionPercentage(): (p: int)
      reads this`stepPosition
      ensures (p as real) - 0.5 <= 100.0 * stepPosition as real / WINDOW_STEPS as real <= (p as real) + 0.5
    {
      RoundHalfAway(StepsToPercentage(GetPosition()))
    }

    /** `StepperMotor(...)`: driver enabled, direction and pins low, stopped
        at position zero with nothing queued; then the initial resolution and
        speed are applied, and the speed re-selects MS_64. */
    constructor (initialMicroStep: nat, initialSpeed: real)
      requires initialSpeed > 0.0
      ensures Valid()
      ensures !enablePin && !dir && !quietMode && !stopMotor
      ensures stepPosition == 0 && state == STOPPED && queuedAction == NONE
      ensures speed == initialSpeed && MicroStepInt() == 64
      ensures halfStepDelay == SpeedSetting(initialSpeed, false).halfDelay
      ensures odometer == 0 && pulses == []
    {
      enablePin, dir, ms1, ms2 := false, false, false, false;
      quietMode := false;
      stopMotor := false;
      stepPosition := 0;
      queuedAction := NONE;
      state := STOPPED;
      speed := initialSpeed;
      halfStepDelay := 0;
      odometer := 0;
      pulses := [];
      new;
      SetMicroStep(initialMicroStep);
      SetSpeed(initialSpeed);
    }

    method Enable()
      modifies this`enablePin
      ensures !enablePin
    {
      enablePin := false;
    }

    method Disable()
      modifies this`enablePin
      ensures enablePin
    {
      enablePin := true;
    }

    method SetDir(d: bool)
      modifies this`dir
      ensures dir == d
    {
      dir := d;
    }

    method SwapDir()
      modifies this`dir
      ensures dir == !old(dir)
    {
      SetDir(!dir);
    }

    /** `stepExact(half_step_delay)`: one pulse of the given half-delay; the
        position moves one unit of the current resolution, down when the
        direction pin is high. This is the only place the position moves. */
    method StepExact(halfDelay: nat)
      modifies this`stepPosition, this`odometer, this`pulses
      ensures stepPosition == old(stepPosition) + Displacement(dir, Unit(), 1)
      ensures odometer == old(odometer) + 1
      ensures pulses == old(pulses) + [halfDelay]
    {
      if dir {
        stepPosition := stepPosition - SM_SMALLEST_MS / MicroStepInt();
      } else {
        stepPosition := stepPosition + SM_SMALLEST_MS / MicroStepInt();
      }
      odometer := odometer + 1;
      pulses := pulses + [halfDelay];
    }

    /** `step()`: one pulse at the configured half-delay. */
    method Step()
      modifies this`stepPosition, this`odometer, this`pulses
      ensures stepPosition == old(stepPosition) + Displacement(dir, Unit(), 1)
      ensures odometer == old(odometer) + 1
      ensures pulses == old(pulses) + [halfStepDelay]
    {
      StepExact(halfStepDelay);
    }

    /** `n` steps at the configured half-delay. */
    method StepTimes(n: nat)
      modifies this`stepPosition, this`odometer, this`pulses
      ensures stepPosition == old(stepPosition) + Displacement(dir, Unit(), n)
      ensures odometer == old(odometer) + n
      ensures pulses == old(pulses) + Repeat(halfStepDelay, n)
    {
      var i := 0;
      while i < n
        invariant 0 <= i <= n
        invariant stepPosition == old(stepPosition) + Displacement(dir, Unit(), i)
        invariant odometer == old(odometer) + i
        invariant pulses == old(pulses) + Repeat(halfStepDelay, i)
      {
        Step();
        RepeatExtend(halfStepDelay, i);
        DisplacementAdds(dir, Unit(), i, 1);
        i := i + 1;
      }
    }

    /** `setMicroStep(micro_step)`: an unknown encoding becomes MS_64; going
        to a coarser resolution first takes `AlignmentSteps` steps at the
        current resolution towards zero (none for a negative position) with
        the direction restored afterwards; then the pins take the encoding. */
    method SetMicroStep(microStep: nat)
      modifies this`ms1, this`ms2, this`dir, this`stepPosition, this`odometer, this`pulses
      ensures MicroStep() == (if IsEncoding(microStep) then microStep else MS_64)
      ensures MicroStepInt() == MsDecode(MicroStep())
      ensures stepPosition ==
              PositionAfterSetMicroStep(old(stepPosition), old(MicroStepInt()), MicroStepInt())
      ensures odometer ==
              old(odometer) + AlignmentStepsTaken(old(stepPosition), old(MicroStepInt()), MicroStepInt())
      ensures pulses == old(pulses) + Repeat(halfStepDelay, odometer - old(odometer))
      ensures dir == old(dir)
    {
      var currentInt := MicroStepInt();
      var savedDir := dir;
      var desiredInt, desired;
      if microStep == MS_8 {
        desiredInt, desired := 8, MS_8;
      } else if microStep == MS_16 {
        desiredInt, desired := 16, MS_16;
      } else if microStep == MS_32 {
        desiredInt, desired := 32, MS_32;
      } else if microStep == MS_64 {
        desiredInt, desired := 64, MS_64;
      } else {
        desiredInt, desired := 64, MS_64;
      }
      if desiredInt < currentInt {
        var pitch := SM_SMALLEST_MS / desiredInt;
        var required := CRem(stepPosition, pitch);
        if stepPosition < 0 {
          required := required - pitch;
        }
        SetDir(stepPosition >= 0);
        StepTimes(MaxInt(required, 0));
        SetDir(savedDir);
      }
      ms1 := desired % 2 == 1;
      ms2 := (desired / 2) % 2 == 1;
    }

    /** `setMicroStep` with the intended realignment: towards a coarser
        resolution it takes whole steps at the current resolution to the
        multiple of the new pitch nearest the position on the zero side, from
        either sign. A position aligned to the current resolution stays
        aligned to the new one. */
    method SetMicroStepCorrected(microStep: nat)
      requires stepPosition % Unit() == 0
      modifies this`ms1, this`ms2, this`dir, this`stepPosition, this`odometer, this`pulses
      ensures MicroStep() == (if IsEncoding(microStep) then microStep else MS_64)
      ensures MicroStepInt() < old(MicroStepInt()) ==>
                stepPosition == RealignedPosition(old(stepPosition), MicroStepInt())
      ensures MicroStepInt() >= old(MicroStepInt()) ==> stepPosition == old(stepPosition)
      ensures stepPosition % Unit() == 0
      ensures dir == old(dir)
    {
      var currentInt := MicroStepInt();
      var savedDir := dir;
      var desired := if IsEncoding(microStep) then microStep else MS_64;
      var desiredInt := MsDecode(desired);
      if desiredInt < currentInt {
        var pitch := SM_SMALLEST_MS / desiredInt;
        var unit := SM_SMALLEST_MS / currentInt;
        var rem := CRem(stepPosition, pitch);
        RealignedInWholeSteps(stepPosition, currentInt, desiredInt);
        var count := WholeStepsTowardZero(rem, unit);
        SetDir(stepPosition >= 0);
        StepTimes(count);
        SetDir(savedDir);
      } else {
        AlignedToFiner(stepPosition, StepUnit(currentInt), StepUnit(desiredInt));
      }
      ms1 := desired % 2 == 1;
      ms2 := (desired / 2) % 2 == 1;
      PinsRoundTrip(desired);
    }

    /** `setSpeed(speed)`: stores the request verbatim and applies the
        selection for the current mode; every selection is MS_64, so the
        position never moves here. The delay then respects the floor of the
        selected resolution (the quiet floor in quiet mode). */
    method SetSpeed(newSpeed: real)
      requires newSpeed > 0.0
      modifies this`speed, this`halfStepDelay, this`ms1, this`ms2, this`dir,
               this`stepPosition, this`odometer, this`pulses
      ensures speed == newSpeed
      ensures halfStepDelay == SpeedSetting(newSpeed, quietMode).halfDelay
      ensures MicroStep() == MS_64 && MicroStepInt() == 64
      ensures halfStepDelay >= MinHalfDelay(MicroStepInt())
      ensures quietMode ==> halfStepDelay >= MinHalfDelayQuiet(MicroStepInt())
      ensures stepPosition == old(stepPosition) && odometer == old(odometer)
      ensures pulses == old(pulses) && dir == old(dir)
    {
      speed := newSpeed;
      SpeedSettingRespectsFloors(newSpeed, quietMode);
      if quietMode {
        var possible := HalfDelayFor(newSpeed, 64);
        SetMicroStep(MS_64);
        halfStepDelay := if SM_MS64_MIN_HALF_DELAY_QUIET < possible then possible
                         else SM_MS64_MIN_HALF_DELAY_QUIET;
      } else {
        var chosen := SelectNormal(newSpeed);
        SetMicroStep(chosen.ms);
        halfStepDelay := chosen.halfDelay;
      }
    }

    /** `setQuietMode(mode)`: records the mode and re-applies the stored
        speed under it. */
    method SetQuietMode(mode: bool)
      requires Valid()
      modifies this`quietMode, this`speed, this`halfStepDelay, this`ms1, this`ms2, this`dir,
               this`stepPosition, this`odometer, this`pulses
      ensures Valid()
      ensures quietMode == mode && speed == old(speed)
      ensures halfStepDelay == SpeedSetting(speed, mode).halfDelay && MicroStepInt() == 64
      ensures stepPosition == old(stepPosition) && odometer == old(odometer) && dir == old(dir)
    {
      quietMode := mode;
      SetSpeed(speed);
    }

    /** The shared loop of `open()` and `close()`: steps while no stop is
        requested, switch `ls` is clear and the position is not `target`. */
    method TravelUntil(ls: int, target: int, env: Env, ghost horizon: nat)
      requires odometer <= horizon && (env.stopRequested(horizon) || env.triggered(ls, horizon))
      requires !stopMotor
      modifies this`stopMotor, this`stepPosition, this`odometer, this`pulses
      ensures old(odometer) <= odometer <= horizon
      ensures stopMotor == env.stopRequested(odometer)
      ensures stopMotor || env.triggered(ls, odometer) || stepPosition == target
      ensures forall n | old(odometer) <= n < odometer :: !env.stopRequested(n) && !env.triggered(ls, n)
      ensures forall j | 0 <= j < odometer - old(odometer) ::
                PositionAfterSteps(old(stepPosition), dir, Unit(), j) != target
      ensures old(stepPosition) == target ==> odometer == old(odometer)
      ensures stepPosition == old(stepPosition) + Displacement(dir, Unit(), odometer - old(odometer))
      ensures pulses == old(pulses) + Repeat(halfStepDelay, odometer - old(odometer))
    {
      if env.stopRequested(odometer) {
        stopMotor := true;
      }
      while !stopMotor && !env.triggered(ls, odometer) && stepPosition != target
        invariant old(odometer) <= odometer <= horizon
        invariant stopMotor == env.stopRequested(odometer)
        invariant forall n | old(odometer) <= n < odometer :: !env.stopRequested(n) && !env.triggered(ls, n)
        invariant forall j | 0 <= j < odometer - old(odometer) ::
                    PositionAfterSteps(old(stepPosition), dir, Unit(), j) != target
        invariant old(stepPosition) == target ==> odometer == old(odometer)
        invariant stepPosition == PositionAfterSteps(old(stepPosition), dir, Unit(), odometer - old(odometer))
        invariant pulses == old(pulses) + Repeat(halfStepDelay, odometer - old(odometer))
        decreases horizon - odometer
      {
        ghost var k, unit := odometer - old(odometer), Unit();
        DisplacementAdds(dir, unit, k, 1);
        Step();
        RepeatExtend(halfStepDelay, k);
        if env.stopRequested(odometer) {
          stopMotor := true;
        }
      }
    }

    /** `close()`: clears the stop flag and steps CLOSE_DIR until a stop, the
        closed switch, or the closed position. A triggered closed switch
        then pins the position to the closed position; the state becomes
        CLOSED or, after a stop, STOPPED; the queued action is dropped. It
        succeeds exactly when not stopped, and then the position is the
        closed one. With the switch already triggered it takes no step. */
    method Close(env: Env, ghost horizon: nat) returns (ok: bool)
      requires odometer <= horizon
      requires env.stopRequested(horizon) || env.triggered(LS_CLOSED, horizon)
      modifies this`dir, this`stopMotor, this`state, this`queuedAction,
               this`stepPosition, this`odometer, this`pulses
      ensures dir == CLOSE_DIR
      ensures ok == !stopMotor && stopMotor == env.stopRequested(odometer)
      ensures state == (if ok then CLOSED else STOPPED) && queuedAction == NONE
      ensures old(odometer) <= odometer <= horizon
      ensures forall n | old(odometer) <= n < odometer ::
                !env.stopRequested(n) && !env.triggered(LS_CLOSED, n)
      ensures env.triggered(LS_CLOSED, old(odometer)) ==> odometer == old(odometer)
      ensures old(stepPosition) == WINDOW_CLOSED_STEP_POSITION ==> odometer == old(odometer)
      ensures forall j | 0 <= j < odometer - old(odometer) ::
                PositionAfterSteps(old(stepPosition), CLOSE_DIR, Unit(), j) != WINDOW_CLOSED_STEP_POSITION
      ensures env.triggered(LS_CLOSED, odometer) ==> stepPosition == WINDOW_CLOSED_STEP_POSITION
      ensures !env.triggered(LS_CLOSED, odometer) ==>
                stepPosition == old(stepPosition) + Displacement(CLOSE_DIR, Unit(), odometer - old(odometer))
      ensures ok ==> stepPosition == WINDOW_CLOSED_STEP_POSITION
      ensures pulses == old(pulses) + Repeat(halfStepDelay, odometer - old(odometer))
    {
      SetDir(CLOSE_DIR);
      stopMotor := false;
      state := CLOSING;
      TravelUntil(LS_CLOSED, WINDOW_CLOSED_STEP_POSITION, env, horizon);
      state := if stopMotor then STOPPED else CLOSED;
      queuedAction := NONE;
      if env.triggered(LS_CLOSED, odometer) {
        stepPosition := WINDOW_CLOSED_STEP_POSITION;
      }
      ok := !stopMotor;
    }

    /** The body of `open()`, with the position a triggered open switch
        forces left as a parameter. */
    method OpenResetting(resetTo: int, env: Env, ghost horizon: nat) returns (ok: bool)
      requires odometer <= horizon
      requires env.stopRequested(horizon) || env.triggered(LS_OPEN, horizon)
      modifies this`dir, this`stopMotor, this`state, this`queuedAction,
               this`stepPosition, this`odometer, this`pulses
      ensures dir == OPEN_DIR
      ensures ok == !stopMotor && stopMotor == env.stopRequested(odometer)
      ensures state == (if ok then State.OPEN else STOPPED) && queuedAction == NONE
      ensures old(odometer) <= odometer <= horizon
      ensures forall n | old(odometer) <= n < odometer ::
                !env.stopRequested(n) && !env.triggered(LS_OPEN, n)
      ensures env.triggered(LS_OPEN, old(odometer)) ==> odometer == old(odometer)
      ensures env.triggered(LS_OPEN, odometer) ==> stepPosition == resetTo
      ensures !env.triggered(LS_OPEN, odometer) ==>
                stepPosition == old(stepPosition) + Displacement(OPEN_DIR, Unit(), odometer - old(odometer))
      ensures old(stepPosition) == WINDOW_OPEN_STEP_POSITION ==> odometer == old(odometer)
      ensures forall j | 0 <= j < odometer - old(odometer) ::
                PositionAfterSteps(old(stepPosition), OPEN_DIR, Unit(), j) != WINDOW_OPEN_STEP_POSITION
      ensures ok && !env.triggered(LS_OPEN, odometer) ==> stepPosition == WINDOW_OPEN_STEP_POSITION
      ensures pulses == old(pulses) + Repeat(halfStepDelay, odometer - old(odometer))
    {
      SetDir(OPEN_DIR);
      stopMotor := false;
      state := OPENING;
      TravelUntil(LS_OPEN, WINDOW_OPEN_STEP_POSITION, env, horizon);
      state := if stopMotor then STOPPED else State.OPEN;
      queuedAction := NONE;
      if env.triggered(LS_OPEN, odometer) {
        stepPosition := resetTo;
      }
      ok := !stopMotor;
    }

    /** `open()` as written: it mirrors `close()`, except that a triggered
        open switch sets the position to WINDOW_CLOSED_STEP_POSITION. */
    method Open(env: Env, ghost horizon: nat) returns (ok: bool)
      requires odometer <= horizon
      requires env.stopRequested(horizon) || env.triggered(LS_OPEN, horizon)
      modifies this`dir, this`stopMotor, this`state, this`queuedAction,
               this`stepPosition, this`odometer, this`pulses
      ensures dir == OPEN_DIR
      ensures ok == !stopMotor && stopMotor == env.stopRequested(odometer)
      ensures state == (if ok then State.OPEN else STOPPED) && queuedAction == NONE
      ensures old(odometer) <= odometer <= horizon
      ensures forall n | old(odometer) <= n < odometer ::
                !env.stopRequested(n) && !env.triggered(LS_OPEN, n)
      ensures env.triggered(LS_OPEN, old(odometer)) ==> odometer == old(odometer)
      ensures old(stepPosition) == WINDOW_OPEN_STEP_POSITION ==> odometer == old(odometer)
      ensures forall j | 0 <= j < odometer - old(odometer) ::
                PositionAfterSteps(old(stepPosition), OPEN_DIR, Unit(), j) != WINDOW_OPEN_STEP_POSITION
      ensures env.triggered(LS_OPEN, odometer) ==> stepPosition == WINDOW_CLOSED_STEP_POSITION
      ensures !env.triggered(LS_OPEN, odometer) ==>
                stepPosition == old(stepPosition) + Displacement(OPEN_DIR, Unit(), odometer - old(odometer))
      ensures ok && !env.triggered(LS_OPEN, odometer) ==> stepPosition == WINDOW_OPEN_STEP_POSITION
      ensures pulses == old(pulses) + Repeat(halfStepDelay, odometer - old(odometer))
    {
      ok := OpenResetting(WINDOW_CLOSED_STEP_POSITION, env, horizon);
    }

    /** `open()` with the evident intent: a triggered open switch sets the
        position to WINDOW_OPEN_STEP_POSITION, so a successful open, like a
        successful close, always ends at its end position. */
    method OpenCorrected(env: Env, ghost horizon: nat) returns (ok: bool)
      requires odometer <= horizon
      requires env.stopRequested(horizon) || env.triggered(LS_OPEN, horizon)
      modifies this`dir, this`stopMotor, this`state, this`queuedAction,
               this`stepPosition, this`odometer, this`pulses
      ensures dir == OPEN_DIR
      ensures ok == !stopMotor && stopMotor == env.stopRequested(odometer)
      ensures state == (if ok then State.OPEN else STOPPED) && queuedAction == NONE
      ensures old(odometer) <= odometer <= horizon
      ensures forall n | old(odometer) <= n < odometer ::
                !env.stopRequested(n) && !env.triggered(LS_OPEN, n)
      ensures old(stepPosition) == WINDOW_OPEN_STEP_POSITION ==> odometer == old(odometer)
      ensures forall j | 0 <= j < odometer - old(odometer) ::
                PositionAfterSteps(old(stepPosition), OPEN_DIR, Unit(), j) != WINDOW_OPEN_STEP_POSITION
      ensures env.triggered(LS_OPEN, odometer) ==> stepPosition == WINDOW_OPEN_STEP_POSITION
      ensures ok ==> stepPosition == WINDOW_OPEN_STEP_POSITION
    {
      ok := OpenResetting(WINDOW_OPEN_STEP_POSITION, env, horizon);
    }

    /** `open()` as written, followed by `close()`: when the open ends on the
        open switch with no stop pending, the position reads closed, so the
        close takes no step and reports success, CLOSED, whatever the closed
        switch says. */
    method CloseAfterOpenAtSwitch(env: Env, ghost h1: nat, ghost h2: nat)
      returns (didOpen: bool, didClose: bool, ghost openedAt: nat)
      requires odometer <= h1 <= h2
      requires env.stopRequested(h1) || env.triggered(LS_OPEN, h1)
      requires env.stopRequested(h2) || env.triggered(LS_CLOSED, h2)
      modifies this`dir, this`stopMotor, this`state, this`queuedAction,
               this`stepPosition, this`odometer, this`pulses
      ensures old(odometer) <= openedAt <= odometer
      ensures env.triggered(LS_OPEN, openedAt) && !env.stopRequested(openedAt) ==>
                didOpen && didClose && odometer == openedAt && state == CLOSED &&
                stepPosition == WINDOW_CLOSED_STEP_POSITION
    {
      didOpen := Open(env, h1);
      openedAt := odometer;
      didClose := Close(env, h2);
    }

    /** The same sequence with the corrected `open()`: after an open that
        ends on the open switch, a close with the closed switch clear and no
        stop pending takes at least one step, and a successful close ends at
        the closed position. */
    method CloseAfterOpenCorrected(env: Env, ghost h1: nat, ghost h2: nat)
      returns (didOpen: bool, didClose: bool, ghost openedAt: nat)
      requires odometer <= h1 <= h2
      requires env.stopRequested(h1) || env.triggered(LS_OPEN, h1)
      requires env.stopRequested(h2) || env.triggered(LS_CLOSED, h2)
      modifies this`dir, this`stopMotor, this`state, this`queuedAction,
               this`stepPosition, this`odometer, this`pulses
      ensures old(odometer) <= openedAt <= odometer
      ensures (env.triggered(LS_OPEN, openedAt) && !env.stopRequested(openedAt) &&
               !env.triggered(LS_CLOSED, openedAt)) ==> odometer > openedAt
      ensures didClose ==> state == CLOSED && stepPosition == WINDOW_CLOSED_STEP_POSITION
    {
      didOpen := OpenCorrected(env, h1);
      openedAt := odometer;
      ShippedValues();
      didClose := Close(env, h2);
    }

    /** `moveToPositionPercentage` with the bounds in the order CLAMP expects,
        moving through the corrected `moveToPosition`: the target is the
        requested percentage of the window, clamped, as an open amount, and a
        full move at the finest resolution leaves the window that far open. */
    method MoveToPositionPercentageCorrected(percent: real, softStart: bool, env: Env)
      modifies this`dir, this`stepPosition, this`odometer, this`pulses
      ensures var plan := PlanMoveCorrected(PercentTarget(percent), old(stepPosition));
              dir == plan.dir &&
              old(odometer) <= odometer <= old(odometer) + plan.delta &&
              (odometer < old(odometer) + plan.delta ==> env.triggered(LimitSwitchFor(plan.dir), odometer)) &&
              (forall n | old(odometer) <= n < odometer :: !env.triggered(LimitSwitchFor(plan.dir), n)) &&
              stepPosition == old(stepPosition) + Displacement(plan.dir, Unit(), odometer - old(odometer))
      ensures Unit() == 1 &&
              odometer == old(odometer) + PlanMoveCorrected(PercentTarget(percent), old(stepPosition)).delta ==>
                OpenAmount(stepPosition) == PercentTarget(percent)
    {
      var target := PercentTarget(percent);
      MoveToPositionCorrected(target, softStart, env);
    }

    /** `moveToPosition` with the plan read against the signed position (see
        PlanMoveCorrected): the target is an open amount, and with the finest
        resolution and a move the switches do not cut short, the window ends
        exactly `target` open. */
    method MoveToPositionCorrected(target: nat, softStart: bool, env: Env)
      requires target < UINT64_RANGE
      modifies this`dir, this`stepPosition, this`odometer, this`pulses
      ensures var plan := PlanMoveCorrected(target, old(stepPosition));
              dir == plan.dir &&
              old(odometer) <= odometer <= old(odometer) + plan.delta &&
              (odometer < old(odometer) + plan.delta ==> env.triggered(LimitSwitchFor(plan.dir), odometer)) &&
              (forall n | old(odometer) <= n < odometer :: !env.triggered(LimitSwitchFor(plan.dir), n)) &&
              stepPosition == old(stepPosition) + Displacement(plan.dir, Unit(), odometer - old(odometer))
      ensures Unit() == 1 &&
              odometer == old(odometer) + PlanMoveCorrected(target, old(stepPosition)).delta ==>
                OpenAmount(stepPosition) == target
    {
      var plan := PlanMoveCorrected(target, stepPosition);
      MoveSteps(plan.delta, plan.dir, softStart, env);
    }

    /** `stop()`: only raises the flag the stepping loops poll. */
    method Stop()
      modifies this`stopMotor
      ensures stopMotor
    {
      stopMotor := true;
    }

    /** `queueAction(action)`: the single pending-action slot. */
    method QueueAction(action: ActionType)
      modifies this`queuedAction
      ensures queuedAction == action
    {
      queuedAction := action;
    }

    method SetState(newState: State)
      modifies this`state
      ensures state == newState
    {
      state := newState;
    }

    /** `softStart(steps_remaining, initial_speed_half_step_delay)`: pulses
        from 1000 µs down by 5 µs per step, whatever the second argument,
        while the delay is above the configured one, the switch ahead is
        clear and, when a budget is given, some of it is left; each step
        uses up one unit of the budget. */
    method SoftStart(stepsRemaining: Option<nat>, initialHalfDelay: nat, env: Env)
      returns (remaining: Option<nat>)
      modifies this`stepPosition, this`odometer, this`pulses
      ensures remaining.Some? == stepsRemaining.Some?
      ensures old(odometer) <= odometer
      ensures odometer - old(odometer) <= RampSteps(halfStepDelay)
      ensures stepsRemaining.Some? ==>
                odometer - old(odometer) <= stepsRemaining.value &&
                remaining.value == stepsRemaining.value - (odometer - old(odometer))
      ensures odometer - old(odometer) == RampSteps(halfStepDelay) ||
              env.triggered(LimitSwitchFor(dir), odometer) ||
              (stepsRemaining.Some? && remaining.value == 0)
      ensures forall n | old(odometer) <= n < odometer :: !env.triggered(LimitSwitchFor(dir), n)
      ensures pulses == old(pulses) + RampDelays(odometer - old(odometer))
      ensures stepPosition == old(stepPosition) + Displacement(dir, Unit(), odometer - old(odometer))
    {
      var ls := if dir == LEFT_DIR then LS_LEFT else LS_RIGHT;
      var fullSpeedDelay := halfStepDelay;
      var current: nat := SM_SOFT_START_HALF_DELAY;
      var budget := if stepsRemaining.Some? then stepsRemaining.value else 0;
      ghost var taken: nat := 0;
      while (stepsRemaining.None? || budget > 0) &&
            current > fullSpeedDelay && !env.triggered(ls, odometer)
        invariant odometer == old(odometer) + taken
        invariant taken <= RampSteps(fullSpeedDelay)
        invariant current == RampDelay(taken)
        invariant stepsRemaining.Some? ==>
                    taken <= stepsRemaining.value && budget == stepsRemaining.value - taken
        invariant forall n | old(odometer) <= n < odometer :: !env.triggered(ls, n)
        invariant pulses == old(pulses) + RampDelays(taken)
        invariant stepPosition == old(stepPosition) + Displacement(dir, Unit(), taken)
        decreases current
      {
        RampContinues(fullSpeedDelay, taken);
        StepExact(current);
        RampDelaysExtend(taken);
        DisplacementAdds(dir, Unit(), taken, 1);
        taken := taken + 1;
        if stepsRemaining.Some? {
          budget := budget - 1;
        }
        current := current - SM_SOFT_START_INCREASE_FACTOR;
      }
      if current <= fullSpeedDelay {
        RampEnds(fullSpeedDelay, taken);
      }
      remaining := if stepsRemaining.Some? then Some(budget) else None;
    }

    /** `moveSteps(steps, dir, soft_start)`: sets the direction, optionally
        soft-starts within the budget, then steps at the configured delay
        until the budget is spent or the switch ahead triggers. It never
        takes more than `steps` steps, and a shorter move means the switch
        stopped it. */
    method MoveSteps(steps: nat, d: bool, softStart: bool, env: Env)
      modifies this`dir, this`stepPosition, this`odometer, this`pulses
      ensures dir == d
      ensures old(odometer) <= odometer <= old(odometer) + steps
      ensures odometer < old(odometer) + steps ==> env.triggered(LimitSwitchFor(d), odometer)
      ensures forall n | old(odometer) <= n < odometer :: !env.triggered(LimitSwitchFor(d), n)
      ensures stepPosition == old(stepPosition) + Displacement(d, Unit(), odometer - old(odometer))
      ensures |pulses| == |old(pulses)| + (odometer - old(odometer))
      ensures forall i | |old(pulses)| <= i < |pulses| :: pulses[i] >= halfStepDelay
      ensures !softStart ==> pulses == old(pulses) + Repeat(halfStepDelay, odometer - old(odometer))
    {
      var remaining := steps;
      var ls := if d == LEFT_DIR then LS_LEFT else LS_RIGHT;
      assert ls == LimitSwitchFor(d);
      SetDir(d);
      ghost var rampStart, pulsesBeforeRamp := odometer, pulses;
      if softStart {
        var r := SoftStart(Some(remaining), SM_SOFT_START_HALF_DELAY, env);
        remaining := r.value;
        RampAboveCruise(halfStepDelay, odometer - rampStart);
      }
      ghost var cruiseStart, pulsesBeforeCruise := odometer, pulses;
      Cruise(remaining, ls, env);
      DisplacementAdds(d, Unit(), cruiseStart - rampStart, odometer - cruiseStart);
    }

    /** The constant-speed loop of `moveSteps`: steps at the configured delay
        while some of `budget` is left and switch `ls` is clear. */
    method Cruise(budget: nat, ls: int, env: Env)
      modifies this`stepPosition, this`odometer, this`pulses
      ensures old(odometer) <= odometer <= old(odometer) + budget
      ensures odometer < old(odometer) + budget ==> env.triggered(ls, odometer)
      ensures forall n | old(odometer) <= n < odometer :: !env.triggered(ls, n)
      ensures stepPosition == old(stepPosition) + Displacement(dir, Unit(), odometer - old(odometer))
      ensures pulses == old(pulses) + Repeat(halfStepDelay, odometer - old(odometer))
    {
      var remaining := budget;
      while remaining > 0 && !env.triggered(ls, odometer)
        invariant old(odometer) <= odometer
        invariant remaining == budget - (odometer - old(odometer))
        invariant forall n | old(odometer) <= n < odometer :: !env.triggered(ls, n)
        invariant stepPosition == old(stepPosition) + Displacement(dir, Unit(), odometer - old(odometer))
        invariant pulses == old(pulses) + Repeat(halfStepDelay, odometer - old(odometer))
      {
        ghost var k := odometer - old(odometer);
        Step();
        RepeatExtend(halfStepDelay, k);
        DisplacementAdds(dir, Unit(), k, 1);
        remaining := remaining - 1;
      }
    }

    /** `moveToPosition(step, soft_start)`: plans from the unsigned view of
        the position and moves at most the planned distance that way. */
    method MoveToPosition(target: nat, softStart: bool, env: Env)
      requires target < UINT64_RANGE
      modifies this`dir, this`stepPosition, this`odometer, this`pulses
      ensures var plan := PlanMove(target, old(GetPosition()));
              dir == plan.dir &&
              old(odometer) <= odometer <= old(odometer) + plan.delta &&
              (odometer < old(odometer) + plan.delta ==> env.triggered(LimitSwitchFor(plan.dir), odometer)) &&
              (forall n | old(odometer) <= n < odometer :: !env.triggered(LimitSwitchFor(plan.dir), n)) &&
              stepPosition == old(stepPosition) + Displacement(plan.dir, Unit(), odometer - old(odometer))
    {
      var current := GetPosition();
      var plan := PlanMove(target, current);
      MoveSteps(plan.delta, plan.dir, softStart, env);
    }

    /** `moveToPositionPercentage(percent, soft_start)`: CLAMP receives the
        bounds in the order (lower, upper) where it expects (upper, lower), so
        every request targets the full window width in steps. */
    method MoveToPositionPercentage(percent: real, softStart: bool, env: Env)
      modifies this`dir, this`stepPosition, this`odometer, this`pulses
      ensures var plan := PlanMove(WINDOW_STEPS, old(GetPosition()));
              dir == plan.dir &&
              old(odometer) <= odometer <= old(odometer) + plan.delta &&
              (odometer < old(odometer) + plan.delta ==> env.triggered(LimitSwitchFor(plan.dir), odometer)) &&
              (forall n | old(odometer) <= n < odometer :: !env.triggered(LimitSwitchFor(plan.dir), n)) &&
              stepPosition == old(stepPosition) + Displacement(plan.dir, Unit(), odometer - old(odometer))
    {
      var target := PercentageToSteps(Clamp(percent, 0.0, 100.0));
      ClampedPercentTargetsFullWidth(percent);
      MoveToPosition(target, softStart, env);
    }

    /** Steps at the configured delay for as long as switch `ls` reads
        `whileReading`. */
    method StepWhileSwitch(ls: int, whileReading: bool, env: Env, ghost horizon: nat)
      requires odometer <= horizon && env.triggered(ls, horizon) != whileReading
      modifies this`stepPosition, this`odometer, this`pulses
      ensures old(odometer) <= odometer <= horizon
      ensures forall n | old(odometer) <= n < odometer :: env.triggered(ls, n) == whileReading
      ensures env.triggered(ls, odometer) != whileReading
      ensures stepPosition == old(stepPosition) + Displacement(dir, Unit(), odometer - old(odometer))
    {
      while env.triggered(ls, odometer) == whileReading
        invariant old(odometer) <= odometer <= horizon
        invariant forall n | old(odometer) <= n < odometer :: env.triggered(ls, n) == whileReading
        invariant stepPosition == old(stepPosition) + Displacement(dir, Unit(), odometer - old(odometer))
        decreases horizon - odometer
      {
        Step();
      }
    }

    /** The switch-seeking part of `home()`: approach the home switch at
        3 mm/s at the finest resolution until its first triggered reading
        (`firstHit`), back off until its first clear reading (`cleared`) and
        7 mm further, then approach again at 1 mm/s until it triggers. */
    method SeekHome(env: Env, ghost h1: nat, ghost h2: nat, ghost h3: nat)
      returns (ghost firstHit: nat, ghost cleared: nat)
      requires odometer <= h1 <= h2 && h2 + BackOffSteps(64) <= h3
      requires env.triggered(LS_HOME, h1) && !env.triggered(LS_HOME, h2) && env.triggered(LS_HOME, h3)
      modifies this`speed, this`halfStepDelay, this`ms1, this`ms2, this`dir,
               this`stepPosition, this`odometer, this`pulses
      ensures dir == HOME_DIR && speed == 1.0 && MicroStepInt() == 64
      ensures old(odometer) <= firstHit <= cleared && cleared + BackOffSteps(64) <= odometer <= h3
      ensures forall n | old(odometer) <= n < firstHit :: !env.triggered(LS_HOME, n)
      ensures env.triggered(LS_HOME, firstHit)
      ensures forall n | firstHit <= n < cleared :: env.triggered(LS_HOME, n)
      ensures !env.triggered(LS_HOME, cleared)
      ensures forall n | cleared + BackOffSteps(64) <= n < odometer :: !env.triggered(LS_HOME, n)
      ensures env.triggered(LS_HOME, odometer)
    {
      SetDir(HOME_DIR);
      SetMicroStep(MS_64);

      // The first approach.
      ApproachHome(3.0, env, h1);
      firstHit := odometer;

      // Back off until the switch clears, then 7 mm further.
      SetDir(!HOME_DIR);
      SetSpeed(3.0);
      StepWhileSwitch(LS_HOME, true, env, h2);
      cleared := odometer;
      var currentMs := MicroStepInt();
      StepTimes(BackOffSteps(currentMs));

      // The second, slower approach.
      SetDir(HOME_DIR);
      ApproachHome(1.0, env, h3);
    }

    /** One approach of `home()`: at speed `approachSpeed`, step until the
        home switch triggers. */
    method ApproachHome(approachSpeed: real, env: Env, ghost horizon: nat)
      requires approachSpeed > 0.0
      requires odometer <= horizon && env.triggered(LS_HOME, horizon)
      modifies this`speed, this`halfStepDelay, this`ms1, this`ms2, this`dir,
               this`stepPosition, this`odometer, this`pulses
      ensures dir == old(dir) && speed == approachSpeed && MicroStepInt() == 64
      ensures old(odometer) <= odometer <= horizon
      ensures forall n | old(odometer) <= n < odometer :: !env.triggered(LS_HOME, n)
      ensures env.triggered(LS_HOME, odometer)
    {
      SetSpeed(approachSpeed);
      StepWhileSwitch(LS_HOME, false, env, horizon);
    }

    /** `home()`: seek the home switch, call that position zero, then restore
        the direction, the encoding and the speed. The speed comes back as
        its `uint8_t` truncation, and since `setSpeed` always selects MS_64
        the saved encoding does not survive it. The caller guarantees the
        switch reads triggered, clear and triggered again at the three
        horizons. */
    method Home(env: Env, ghost h1: nat, ghost h2: nat, ghost h3: nat)
      requires Valid() && 1.0 <= speed < 256.0
      requires odometer <= h1 <= h2 && h2 + BackOffSteps(64) <= h3
      requires env.triggered(LS_HOME, h1) && !env.triggered(LS_HOME, h2) && env.triggered(LS_HOME, h3)
      modifies this`speed, this`halfStepDelay, this`ms1, this`ms2, this`dir,
               this`stepPosition, this`odometer, this`pulses
      ensures Valid()
      ensures stepPosition == 0 && dir == old(dir)
      ensures speed == TruncateToByte(old(speed)) as real
      ensures MicroStepInt() == 64 && halfStepDelay == SpeedSetting(speed, quietMode).halfDelay
      ensures env.triggered(LS_HOME, odometer)
      ensures old(odometer) + BackOffSteps(64) <= odometer <= h3
    {
      var savedDir := dir;
      var savedMs := MicroStep();
      var savedSpeed := TruncateToByte(speed);

      ghost var firstHit, cleared := SeekHome(env, h1, h2, h3);

      // Update the zero position.
      stepPosition := 0;

      // Restore the settings.
      SetDir(savedDir);
      SetMicroStepKeepsZero(MicroStepInt(), MsDecode(savedMs));
      SetMicroStep(savedMs);
      SetSpeed(savedSpeed as real);
    }
  }

  /** How far open the window is, in 1/64 micro-steps, at step position
      `pos`: the distance from the closed position towards the open side,
      read in the sign convention of `stepExact`, under which OPEN_DIR
      counts the position down. */
  function OpenAmount(pos: int): (a: int)
    ensures pos == WINDOW_CLOSED_STEP_POSITION ==> a == 0
    ensures pos == WINDOW_OPEN_STEP_POSITION ==> a == WINDOW_STEPS
  {
    ShippedValues();
    Sign(OpenDir(Shipped)) * (pos - WINDOW_CLOSED_STEP_POSITION)
  }

  /** `moveToPosition` as written turns OPEN_DIR towards a larger target,
      and OPEN_DIR is the level at which `stepExact` counts down: a full move
      at the finest resolution opens the window by the requested amount but
      leaves the position as far below the start as the target is above it. */
  lemma PlanMoveCountsDown(target: nat, current: nat)
    requires current < target < UINT64_RANGE
    ensures var plan := PlanMove(target, current);
            current + Displacement(plan.dir, 1, plan.delta) == 2 * current - target
    ensures var plan := PlanMove(target, current);
            current + Displacement(plan.dir, 1, plan.delta) != target
    ensures var plan := PlanMove(target, current);
            OpenAmount(current + Displacement(plan.dir, 1, plan.delta)) - OpenAmount(current) == target - current
  {
    ShippedValues();
  }

  /** As written, the move after an opening one plans from the wrapped
      `uint64_t` view of the now negative position: from the closed position,
      opening to `t1` and then asking for any `t2` within the window turns
      CLOSE_DIR for almost 2^64 steps. */
  lemma SecondMoveWraps(t1: nat, t2: nat)
    requires 0 < t1 <= WINDOW_STEPS && t2 <= WINDOW_STEPS
    ensures var p1 := PlanMove(t1, AsUint64(WINDOW_CLOSED_STEP_POSITION));
            var mid := WINDOW_CLOSED_STEP_POSITION + Displacement(p1.dir, 1, p1.delta);
            var p2 := PlanMove(t2, AsUint64(mid));
            OpenAmount(mid) == t1 && mid == -(t1 as int) &&
            p2.dir == CLOSE_DIR && p2.delta == UINT64_RANGE - t1 - t2
  {
    ShippedValues();
    var p1 := PlanMove(t1, AsUint64(WINDOW_CLOSED_STEP_POSITION));
    assert p1 == MovePlan(OPEN_DIR, t1);
    assert AsUint64(-(t1 as int)) == UINT64_RANGE - t1;
  }

  /** `moveToPosition`'s plan read against the signed position: the target
      is an open amount, compared with how far open the window is, so the
      plan is the source's, with the position read in the sign convention
      `stepExact` keeps. A full move at the finest resolution leaves the
      window exactly `target` open. */
  function PlanMoveCorrected(target: nat, pos: int): (p: MovePlan)
    ensures target > OpenAmount(pos) ==> p.dir == OPEN_DIR && p.delta == target - OpenAmount(pos)
    ensures target <= OpenAmount(pos) ==> p.dir == CLOSE_DIR && p.delta == OpenAmount(pos) - target
    ensures OpenAmount(pos + Displacement(p.dir, 1, p.delta)) == target
  {
    ShippedValues();
    var current := OpenAmount(pos);
    if target > current then MovePlan(OPEN_DIR, target - current)
    else MovePlan(CLOSE_DIR, current - target)
  }

  /** With the corrected plan, a second move after a full first one covers
      only the difference of the two targets, from any start. */
  lemma CorrectedMovesChain(pos: int, t1: nat, t2: nat)
    ensures var p1 := PlanMoveCorrected(t1, pos);
            var p2 := PlanMoveCorrected(t2, pos + Displacement(p1.dir, 1, p1.delta));
            p2.dir == (if t2 > t1 then OPEN_DIR else CLOSE_DIR) &&
            p2.delta == (if t2 > t1 then t2 - t1 else t1 - t2)
  {
    var p1 := PlanMoveCorrected(t1, pos);
    assert OpenAmount(pos + Displacement(p1.dir, 1, p1.delta)) == t1;
  }

  /** The as-written move on a motor: from position zero at MS_64, with no
      switch in the way, a move to the half-open target 640,000 opens the
      window by that much but leaves the position at -640,000. */
  method MoveAwayScenario() returns (target: nat, position: int)
    ensures target == 640000 && position == -640000
    ensures OpenAmount(position) == target
  {
    var motor := new StepperMotor(MS_64, 1.0);
    var clear := Env((ls: int, n: nat) => false, (n: nat) => false);
    ShippedValues();
    assert motor.Unit() == 1 && motor.GetPosition() == 0;
    target := WINDOW_STEPS / 2;
    assert PlanMove(target, 0) == MovePlan(true, 640000);
    motor.MoveToPosition(target, false, clear);
    assert motor.odometer == 640000;
    position := motor.stepPosition;
  }

  /** `getPositionPercentage()` with the evident intent: the share of the
      window that is open, read through `OpenAmount` and rounded as `round`
      does, so 0 at the closed position and 100 at the open one. */
  function OpenPercentage(pos: int): (p: int)
    ensures (p as real) - 0.5 <= 100.0 * OpenAmount(pos) as real / WINDOW_STEPS as real <= (p as real) + 0.5
    ensures pos == WINDOW_CLOSED_STEP_POSITION ==> p == 0
    ensures pos == WINDOW_OPEN_STEP_POSITION ==> p == 100
    ensures 0 <= OpenAmount(pos) <= WINDOW_STEPS ==> 0 <= p <= 100
  {
    assert WINDOW_STEPS == 1280000;
    RoundHalfAway(100.0 * OpenAmount(pos) as real / WINDOW_STEPS as real)
  }

  /** A whole percentage, moved to as an open amount, reads back unchanged. */
  lemma PercentReadBack(p: nat, pos: int)
    requires p <= 100
    requires OpenAmount(pos) == PercentTarget(p as real)
    ensures OpenPercentage(pos) == p
  {
    assert WINDOW_STEPS == 1280000;
    var steps := PercentTarget(p as real);
    assert steps == p * 12800 by {
      assert (steps as real) - 0.5 <= (p * 12800) as real < (steps as real) + 0.5;
    }
    assert 100.0 * steps as real / WINDOW_STEPS as real == p as real;
  }

  /** `getPositionPercentage()` as written, at the open position: the
      position there is negative, so the motor reports -100 where the
      corrected reading is 100. */
  lemma OpenPositionReadsNegative(m: StepperMotor)
    requires m.stepPosition == WINDOW_OPEN_STEP_POSITION
    ensures m.GetPositionPercentage() == -100
    ensures OpenPercentage(m.stepPosition) == 100
  {
    ShippedValues();
    assert 100.0 * m.stepPosition as real / WINDOW_STEPS as real == -100.0;
  }

  /** `round()` then `(int)`: to the nearest integer, halves away from zero. */
  function RoundHalfAway(x: real): (r: int)
    ensures (r as real) - 0.5 <= x <= (r as real) + 0.5
    ensures x >= 0.0 ==> r >= 0
  {
    if x >= 0.0 then (x + 0.5).Floor else -((-x + 0.5).Floor)
  }

  /** `CLAMP(percent, 100.0, 0.0)`: the argument order CLAMP expects. */
  function ClampPercent(percent: real): (p: real)
    ensures 0.0 <= p <= 100.0
    ensures 0.0 <= percent <= 100.0 ==> p == percent
    ensures percent < 0.0 ==> p == 0.0
    ensures percent > 100.0 ==> p == 100.0
  {
    Clamp(percent, 100.0, 0.0)
  }

  /** The intended target of a percentage move: the clamped percentage of
      the window width, in steps. */
  function PercentTarget(percent: real): (steps: nat)
    ensures steps <= WINDOW_STEPS
    ensures steps < UINT64_RANGE
  {
    PercentageToSteps(ClampPercent(percent))
  }

  /** Converting a percentage in range to a target and reading the target
      back as a percentage returns it to within half a step. */
  lemma PercentTargetRoundTrip(percent: real)
    requires 0.0 <= percent <= 100.0
    ensures var back := 100.0 * PercentTarget(percent) as real / WINDOW_STEPS as real;
            percent - 50.0 / WINDOW_STEPS as real < back <= percent + 50.0 / WINDOW_STEPS as real
  {
    assert WINDOW_STEPS == 1280000;
    var steps := PercentTarget(percent) as real;
    assert steps - 0.5 <= percent * 12800.0 < steps + 0.5;
    assert 100.0 * steps / 1280000.0 == steps / 12800.0;
  }

  /** The intended realignment of `setMicroStep`: to the multiple of the new
      pitch between the position and zero that is nearest the position. */
  function RealignedPosition(pos: int, newInt: int): (r: int)
    requires IsResolution(newInt)
    ensures r % StepUnit(newInt) == 0
    ensures pos >= 0 ==> 0 <= r <= pos && pos - r < StepUnit(newInt)
    ensures pos < 0 ==> pos <= r <= 0 && r - pos < StepUnit(newInt)
  {
    var pitch := StepUnit(newInt);
    PitchMultiple(pitch, CQuot(pos, pitch));
    pos - CRem(pos, pitch)
  }

  /** A multiple of a pitch is aligned to it. */
  lemma PitchMultiple(pitch: int, q: int)
    requires pitch == 1 || pitch == 2 || pitch == 4 || pitch == 8
    ensures (pitch * q) % pitch == 0
  {
    if pitch == 1 {
      assert pitch * q == q;
    } else if pitch == 2 {
      assert pitch * q == 2 * q;
    } else if pitch == 4 {
      assert pitch * q == 4 * q;
    } else {
      assert pitch * q == 8 * q;
    }
  }

  /** The intended realignment is a whole number of steps at the current,
      finer, resolution, from any position that resolution can reach. */
  lemma RealignedInWholeSteps(pos: int, currentInt: int, newInt: int)
    requires IsResolution(currentInt) && IsResolution(newInt) && newInt < currentInt
    requires pos % StepUnit(currentInt) == 0
    ensures (pos - RealignedPosition(pos, newInt)) % StepUnit(currentInt) == 0
  {
    var pitch, unit := StepUnit(newInt), StepUnit(currentInt);
    var q := CQuot(pos, pitch);
    var m := pitch / unit;
    var k := pos / unit;
    WholeUnits(pos, unit, pitch);
    assert pos - RealignedPosition(pos, newInt) == pos - pitch * q by {
      assert pos == pitch * q + CRem(pos, pitch);
    }
    assert pitch * q == unit * (m * q);
    assert pos - pitch * q == unit * (k - m * q);
    PitchMultiple(unit, k - m * q);
  }

  /** The pitch of a coarser resolution is a whole number of units of a finer
      one, and so is every position aligned to the finer one. */
  lemma WholeUnits(pos: int, unit: int, pitch: int)
    requires unit == 1 || unit == 2 || unit == 4 || unit == 8
    requires pitch == 1 || pitch == 2 || pitch == 4 || pitch == 8
    requires unit < pitch && pos % unit == 0
    ensures pitch == unit * (pitch / unit)
    ensures pos == unit * (pos / unit)
  {
  }

  /** The number of steps of `unit` that cover the remainder `rem`, which
      they do exactly, towards zero. */
  function WholeStepsTowardZero(rem: int, unit: int): (n: nat)
    requires unit == 1 || unit == 2 || unit == 4 || unit == 8
    requires rem % unit == 0
    ensures Displacement(rem >= 0, unit, n) == -rem
  {
    var magnitude := if rem >= 0 then rem else -rem;
    PitchMultiple(unit, -(rem / unit));
    assert rem == unit * (rem / unit);
    assert magnitude == unit * (magnitude / unit);
    magnitude / unit
  }

  /** A position aligned to a coarser unit is aligned to every finer one. */
  lemma AlignedToFiner(pos: int, coarse: int, fine: int)
    requires coarse == 1 || coarse == 2 || coarse == 4 || coarse == 8
    requires fine == 1 || fine == 2 || fine == 4 || fine == 8
    requires fine <= coarse && pos % coarse == 0
    ensures pos % fine == 0
  {
    var q := pos / coarse;
    assert pos == coarse * q;
    assert coarse == fine * (coarse / fine);
    assert pos == fine * ((coarse / fine) * q);
    PitchMultiple(fine, (coarse / fine) * q);
  }

  /** `setMicroStep` as written, from MS_32 at position 6 to MS_8: six steps
      of two units towards zero overshoot to -6, which is not a multiple of
      8; and from a negative position it never realigns at all. */
  lemma SetMicroStepMisaligns()
    ensures PositionAfterSetMicroStep(6, 32, 8) == -6 && -6 % StepUnit(8) != 0
    ensures PositionAfterSetMicroStep(-3, 64, 8) == -3 && -3 % StepUnit(8) != 0
    ensures RealignedPosition(6, 8) == 0 && RealignedPosition(-3, 8) == 0
  {
    assert AlignmentStepsTaken(6, 32, 8) == 6;
  }

  /** The misaligning sequence on a motor: a fresh motor at MS_64 steps six
      units up, switches to MS_32 (6 is even, so nothing moves), then to MS_8. */
  method MisalignedScenario() returns (position: int, microStep: int)
    ensures position == -6 && microStep == 8
    ensures position % StepUnit(8) != 0
  {
    var motor := new StepperMotor(MS_64, 1.0);
    motor.SetDir(false);
    motor.StepTimes(6);
    assert motor.stepPosition == 6 && motor.MicroStepInt() == 64;
    motor.SetMicroStep(MS_32);
    assert AlignmentStepsTaken(6, 64, 32) == 0;
    assert motor.stepPosition == 6 && motor.MicroStepInt() == 32;
    SetMicroStepMisaligns();
    motor.SetMicroStep(MS_8);
    assert motor.MicroStepInt() == 8;
    position, microStep := motor.stepPosition, motor.MicroStepInt();
  }

  /** Steps in one direction add up. */
  lemma DisplacementAdds(d: bool, unit: int, m: int, n: int)
    ensures Displacement(d, unit, m) + Displacement(d, unit, n) == Displacement(d, unit, m + n)
  {
    assert m * unit + n * unit == (m + n) * unit;
  }

  /** Every soft-start pulse is longer than the cruise pulse it leads to. */
  lemma RampAboveCruise(cruise: nat, k: nat)
    requires k <= RampSteps(cruise)
    ensures forall i | 0 <= i < k :: RampDelays(k)[i] > cruise
  {
  }

  /** CLAMP(percent, 0.0, 100.0) is always 100.0, so the target of every
      percentage move is the full window width. */
  lemma ClampedPercentTargetsFullWidth(percent: real)
    ensures Clamp(percent, 0.0, 100.0) == 100.0
    ensures PercentageToSteps(Clamp(percent, 0.0, 100.0)) == WINDOW_STEPS
  {
  }
}
