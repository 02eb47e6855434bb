/** The per-resolution timing floors, the soft-start constants and the motor
    state of code/src/stepper_motor.hh. */
module MotorConsts {
  import opened Pins

  const SM_MS8_MIN_HALF_DELAY: nat := 85
  const SM_MS16_MIN_HALF_DELAY: nat := 42
  const SM_MS32_MIN_HALF_DELAY: nat := 21
  const SM_MS64_MIN_HALF_DELAY: nat := 11

  const SM_MS8_MIN_HALF_DELAY_QUIET: nat := 602
  const SM_MS16_MIN_HALF_DELAY_QUIET: nat := 301
  const SM_MS32_MIN_HALF_DELAY_QUIET: nat := 161
  const SM_MS64_MIN_HALF_DELAY_QUIET: nat := 75

  const SM_SOFT_START_HALF_DELAY: nat := 1000
  const SM_SOFT_START_INCREASE_FACTOR: nat := 5

  /** `State`: the five motor states. */
  datatype State = OPEN | OPENING | CLOSED | CLOSING | STOPPED

  /** `SM_MS_MIN_HALF_DELAY(ms)`: the shortest half-pulse, in microseconds,
      the driver takes at resolution `ms`; any other argument gets the MS8
      floor. Every floor allows about the same full-step rate: a whole
      full step (`ms` micro-steps) never takes less than 672 µs per half. */
  function MinHalfDelay(ms: int): (d: nat)
    ensures !IsResolution(ms) ==> d == SM_MS8_MIN_HALF_DELAY
    ensures IsResolution(ms) ==> 672 <= d * ms <= 704
  {
    if ms == 64 then SM_MS64_MIN_HALF_DELAY
    else if ms == 32 then SM_MS32_MIN_HALF_DELAY
    else if ms == 16 then SM_MS16_MIN_HALF_DELAY
    else if ms == 8 then SM_MS8_MIN_HALF_DELAY
    else SM_MS8_MIN_HALF_DELAY
  }

  /** `SM_MS_MIN_HALF_DELAY_QUIET(ms)`: the quiet-mode floor, which exceeds
      the normal floor of the same resolution. */
  function MinHalfDelayQuiet(ms: int): (d: nat)
    ensures d > MinHalfDelay(ms)
    ensures !IsResolution(ms) ==> d == SM_MS8_MIN_HALF_DELAY_QUIET
  {
    if ms == 64 then SM_MS64_MIN_HALF_DELAY_QUIET
    else if ms == 32 then SM_MS32_MIN_HALF_DELAY_QUIET
    else if ms == 16 then SM_MS16_MIN_HALF_DELAY_QUIET
    else if ms == 8 then SM_MS8_MIN_HALF_DELAY_QUIET
    else SM_MS8_MIN_HALF_DELAY_QUIET
  }

  /** The floors strictly decrease as the resolution gets finer. */
  lemma FloorsDecrease(coarse: int, fine: int)
    requires IsResolution(coarse) && IsResolution(fine) && coarse < fine
    ensures MinHalfDelay(coarse) > MinHalfDelay(fine)
    ensures MinHalfDelayQuiet(coarse) > MinHalfDelayQuiet(fine)
  {
  }

  /** The half-delay of the `i`-th soft-start step: 1000 µs, then 5 µs less
      per step. */
  function RampDelay(i: nat): int {
    SM_SOFT_START_HALF_DELAY - SM_SOFT_START_INCREASE_FACTOR * i
  }

  /** The half-delays of the first `k` soft-start steps. */
  function RampDelays(k: nat): (r: seq<nat>)
    requires k <= 200
    ensures |r| == k
    ensures forall i | 0 <= i < k :: r[i] == RampDelay(i)
  {
    seq(k, i requires 0 <= i < k => RampDelay(i) as nat)
  }

  /** The number of soft-start steps taken before the delay reaches `target`:
      the number of ramp delays strictly above it. */
  function RampSteps(target: nat): (n: nat)
    ensures n <= 200
    ensures forall i: nat | i < n :: RampDelay(i) > target
    ensures RampDelay(n) <= target
  {
    if target >= SM_SOFT_START_HALF_DELAY then 0
    else (SM_SOFT_START_HALF_DELAY - target + SM_SOFT_START_INCREASE_FACTOR - 1)
         / SM_SOFT_START_INCREASE_FACTOR
  }

  /** Against any target no shorter than the finest floor (11 µs) the ramp is
      at most 198 steps long. */
  lemma RampStepsBound(target: nat)
    requires target >= SM_MS64_MIN_HALF_DELAY
    ensures RampSteps(target) <= 198
  {
  }

  /** A ramp delay still above `target` means the ramp is not over. */
  lemma RampContinues(target: nat, k: nat)
    requires k <= RampSteps(target) && RampDelay(k) > target
    ensures k < RampSteps(target)
  {
  }

  /** A ramp that has reached its length has reached `target`. */
  lemma RampEnds(target: nat, k: nat)
    requires k <= RampSteps(target) && RampDelay(k) <= target
    ensures k == RampSteps(target)
  {
  }

  /** One more soft-start step appends the next ramp delay. */
  lemma RampDelaysExtend(k: nat)
    requires k < 200
    ensures RampDelay(k) >= 0
    ensures RampDelays(k) + [RampDelay(k) as nat] == RampDelays(k + 1)
  {
  }
}
