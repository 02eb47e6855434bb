/** The arithmetic of `setSpeed` in code/src/stepper_motor.cc: the
    mm/s-to-half-delay conversion and the greedy choice of a resolution and
    half-delay. Speeds are exact positive reals; the float rounding of the
    source is not modelled. */
module SpeedSelection {
  import opened Pins
  import opened AdvancedOpts
  import opened MotorConsts

  /** `ceil(x)`: the least integer not below `x`. */
  function Ceil(x: real): (r: int)
    ensures r as real >= x
    ensures (r - 1) as real < x
  {
    -((-x).Floor)
  }

  function MaxInt(a: int, b: int): (r: int)
    ensures r >= a && r >= b && (r == a || r == b)
  {
    if a > b then a else b
  }

  /** The exact half-pulse time, in microseconds, that moves the carriage at
      `speed` mm/s with `ms` micro-steps per full step. */
  function ExactHalfDelay(speed: real, ms: int): (x: real)
    requires speed > 0.0 && ms > 0
    ensures x > 0.0
    ensures x * (speed * (SM_FULL_STEPS_PER_MM * ms * 2) as real) == 1000000.0
  {
    1000000.0 / (speed * (SM_FULL_STEPS_PER_MM * ms * 2) as real)
  }

  /** `MM_PER_SEC_TO_US_PER_HALF_MICROSTEP(speed, ms)`: the shortest whole
      number of microseconds no shorter than the exact half-pulse, so the
      motor never runs faster than asked. */
  function HalfDelayFor(speed: real, ms: int): (d: nat)
    requires speed > 0.0 && ms > 0
    ensures d as real >= ExactHalfDelay(speed, ms)
    ensures (d - 1) as real < ExactHalfDelay(speed, ms)
    ensures d >= 1
  {
    Ceil(ExactHalfDelay(speed, ms))
  }

  /** What `setSpeed` settles on: a half-delay and a resolution, as an
      integer and as a pin encoding. */
  datatype Selection = Selection(halfDelay: nat, msInt: int, ms: int)

  /** One coarser candidate of the greedy pass: taken only if its delay is
      above that resolution's floor and shorter than
      `(chosen - 1) * (chosen_ms / candidate_ms)`. */
  function ConsiderCoarser(speed: real, chosen: Selection, candidate: int): (r: Selection)
    requires speed > 0.0
    requires IsResolution(candidate) && IsResolution(chosen.msInt)
    requires chosen.halfDelay >= 1 && chosen.msInt >= candidate
    ensures r == chosen || r == Selection(HalfDelayFor(speed, candidate), candidate, MsEncode(candidate))
    ensures r != chosen ==> r.halfDelay > MinHalfDelay(candidate)
  {
    var possible := HalfDelayFor(speed, candidate);
    if MinHalfDelay(candidate) < possible &&
       possible < (chosen.halfDelay - 1) * (chosen.msInt / candidate)
    then Selection(possible, candidate, MsEncode(candidate))
    else chosen
  }

  /** The non-quiet greedy pass: start at MS_64 with its delay raised to the
      MS_64 floor, then consider MS_32, MS_16 and MS_8 in turn. */
  function SelectNormal(speed: real): (r: Selection)
    requires speed > 0.0
  {
    var possible := HalfDelayFor(speed, 64);
    var start :=
      if SM_MS64_MIN_HALF_DELAY < possible then Selection(possible, 64, MS_64)
      else Selection(SM_MS64_MIN_HALF_DELAY, 64, MS_64);
    var after32 := ConsiderCoarser(speed, start, 32);
    var after16 := ConsiderCoarser(speed, after32, 16);
    ConsiderCoarser(speed, after16, 8)
  }

  /** Quiet mode: MS_64 with the delay raised to the quiet MS_64 floor. */
  function SelectQuiet(speed: real): (r: Selection)
    requires speed > 0.0
    ensures r.msInt == 64 && r.ms == MS_64
    ensures r.halfDelay >= MinHalfDelayQuiet(64) && r.halfDelay >= HalfDelayFor(speed, 64)
    ensures r.halfDelay == MinHalfDelayQuiet(64) || r.halfDelay == HalfDelayFor(speed, 64)
  {
    var possible := HalfDelayFor(speed, 64);
    Selection(if SM_MS64_MIN_HALF_DELAY_QUIET < possible then possible
              else SM_MS64_MIN_HALF_DELAY_QUIET, 64, MS_64)
  }

  /** The selection `setSpeed` makes in the given mode. */
  function SpeedSetting(speed: real, quiet: bool): Selection
    requires speed > 0.0
  {
    if quiet then SelectQuiet(speed) else SelectNormal(speed)
  }

  /** The exact half-delay at a coarser resolution is the MS_64 one scaled by
      the ratio of the resolutions. */
  lemma ExactHalfDelayScales(speed: real, ms: int, ratio: int)
    requires speed > 0.0 && ms > 0 && ratio > 0 && ms * ratio == 64
    ensures ExactHalfDelay(speed, ms) == ratio as real * ExactHalfDelay(speed, 64)
  {
    var x := ExactHalfDelay(speed, ms);
    var y := ExactHalfDelay(speed, 64);
    var base := speed * 200.0;
    assert x * (base * ms as real) == 1000000.0;
    assert y * (base * 64.0) == 1000000.0;
    assert (ratio as real * y) * (base * ms as real) == y * (base * (ms * ratio) as real);
    assert base * ms as real != 0.0;
  }

  /** Rounding up a scaled value never falls `ratio` whole units below the
      scaled rounding: `ceil(ratio * x) > ratio * (ceil(x) - 1)`. */
  lemma CoarserDelayIsLonger(speed: real, ms: int, ratio: int)
    requires speed > 0.0 && ms > 0 && ratio > 0 && ms * ratio == 64
    ensures HalfDelayFor(speed, ms) > ratio * (HalfDelayFor(speed, 64) - 1)
  {
    ExactHalfDelayScales(speed, ms, ratio);
    var y := ExactHalfDelay(speed, 64);
    var c := HalfDelayFor(speed, 64);
    assert (c - 1) as real < y;
    assert (ratio * (c - 1)) as real == ratio as real * (c - 1) as real;
    assert ratio as real * (c - 1) as real < ratio as real * y;
  }

  /** No coarser candidate can ever pass the greedy test: once MS_64 is
      chosen with delay `max(ceil(K), 11)`, each candidate either sits at or
      below its own floor or is no shorter than the scaled MS_64 delay. */
  lemma CandidateNeverTaken(speed: real, candidate: int, ratio: int)
    requires speed > 0.0 && IsResolution(candidate) && candidate < 64
    requires candidate * ratio == 64
    ensures var start := Selection(MaxInt(HalfDelayFor(speed, 64), SM_MS64_MIN_HALF_DELAY), 64, MS_64);
            ConsiderCoarser(speed, start, candidate) == start
  {
    var c := HalfDelayFor(speed, 64);
    var chosen := MaxInt(c, SM_MS64_MIN_HALF_DELAY);
    CoarserDelayIsLonger(speed, candidate, ratio);
    assert 64 / candidate == ratio;
    if c <= SM_MS64_MIN_HALF_DELAY {
      assert (chosen - 1) * ratio == 10 * ratio;
      assert 10 * ratio < MinHalfDelay(candidate);
    }
  }

  /** The greedy pass always ends at MS_64 with delay
      `max(ceil(5000 / (64 * speed)), 11)`: the finest resolution that honours
      the request. The chosen delay respects the chosen resolution's floor and
      never runs the motor faster than requested. */
  lemma SelectNormalIsFinest(speed: real)
    requires speed > 0.0
    ensures SelectNormal(speed) ==
            Selection(MaxInt(HalfDelayFor(speed, 64), SM_MS64_MIN_HALF_DELAY), 64, MS_64)
    ensures SelectNormal(speed).halfDelay >= MinHalfDelay(SelectNormal(speed).msInt)
    ensures SelectNormal(speed).halfDelay as real >= ExactHalfDelay(speed, 64)
  {
    CandidateNeverTaken(speed, 32, 2);
    CandidateNeverTaken(speed, 16, 4);
    CandidateNeverTaken(speed, 8, 8);
  }

  /** Whatever the mode, `setSpeed` ends at MS_64 with a delay at or above
      the floor that applies, and the carriage never moves faster than the
      requested speed. */
  lemma SpeedSettingRespectsFloors(speed: real, quiet: bool)
    requires speed > 0.0
    ensures SpeedSetting(speed, quiet).msInt == 64 && SpeedSetting(speed, quiet).ms == MS_64
    ensures SpeedSetting(speed, quiet).halfDelay >= MinHalfDelay(64)
    ensures quiet ==> SpeedSetting(speed, quiet).halfDelay >= MinHalfDelayQuiet(64)
    ensures SpeedSetting(speed, quiet).halfDelay as real >= ExactHalfDelay(speed, 64)
  {
    if !quiet {
      SelectNormalIsFinest(speed);
    }
  }

  /** Dividing by a longer period gives a rate no higher than the one the
      exact period gives. */
  lemma LongerPeriodSlower(d: real, x: real, speed: real, k: real)
    requires x > 0.0 && d >= x && speed > 0.0 && k > 0.0
    requires x * (speed * k) == 1000000.0
    ensures 1000000.0 / (d * k) <= speed
  {
    var big := d * k;
    assert big > 0.0;
    var q := 1000000.0 / big;
    assert q * big == 1000000.0;
    assert big * speed >= x * k * speed;
  }

  /** Any whole half-delay no shorter than the exact MS_64 one moves the
      carriage at most at `speed`. */
  lemma DelayNotFasterThan(speed: real, d: nat)
    requires speed > 0.0 && d as real >= ExactHalfDelay(speed, 64)
    ensures d > 0
    ensures 1000000.0 / (d as real * 12800.0) <= speed
  {
    var x := ExactHalfDelay(speed, 64);
    assert (SM_FULL_STEPS_PER_MM * 64 * 2) as real == 12800.0;
    LongerPeriodSlower(d as real, x, speed, 12800.0);
  }

  /** The speed a half-delay actually achieves at MS_64, in mm/s, is at most
      the requested one. */
  lemma AchievedSpeedNotAboveRequest(speed: real, quiet: bool)
    requires speed > 0.0
    ensures SpeedSetting(speed, quiet).halfDelay > 0
    ensures 1000000.0 / (SpeedSetting(speed, quiet).halfDelay as real * 12800.0) <= speed
  {
    SpeedSettingRespectsFloors(speed, quiet);
    DelayNotFasterThan(speed, SpeedSetting(speed, quiet).halfDelay);
  }
}
