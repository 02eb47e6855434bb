/** The build-time options of the window (code/src/opts.hh, code/src/opts.h)
    and the constants derived from them by code/src/advanced_opts.hh and
    src/advanced_opts.h. The derivations are stated for every choice of the
    options; `Shipped` is the configuration the repository builds. */
module AdvancedOpts {
  import opened Common
  import opened Pins

  /** The user-facing options the derived constants depend on. */
  datatype Config = Config(
    invertDirection: Bit,
    closedSide: Bit,
    homeSide: Bit,
    lsLeft: int,
    lsRight: int,
    windowWidthMm: nat)

  /** INVERT_DIRECTION 0, CLOSED_SIDE and HOME_SIDE RIGHT_SIDE, LS_LEFT LS_1
      (pin 12), LS_RIGHT LS_2 (pin 13), a 200 mm window. */
  const Shipped := Config(0, RIGHT_SIDE, RIGHT_SIDE, 12, 13, 200)

  const SM_FULL_STEPS_PER_REV: nat := 200
  const SM_FULL_STEPS_PER_MM: nat := 100
  const SM_QUIET_MODE_ADDITIONAL_US: nat := 200
  const SM_SMALLEST_MS: nat := 64
  const SM_LARGEST_MS: nat := 8
  const MIN_US_PER_HALF_SMALLEST_MS: nat := 20

  /** `OPEN_SIDE` is `CLOSED_SIDE ^ 1`. */
  function OpenSide(c: Config): (s: Bit)
    ensures s != c.closedSide
  {
    Xor(c.closedSide, 1)
  }

  /** Every `*_DIR` is `side ^ INVERT_DIRECTION`. */
  function DirOf(side: Bit, c: Config): (d: Bit)
    ensures c.invertDirection == 0 ==> d == side
    ensures c.invertDirection == 1 ==> d != side
  {
    Xor(side, c.invertDirection)
  }

  function LeftDir(c: Config): (d: Bit)
    ensures d != DirOf(RIGHT_SIDE, c)
  {
    DirOf(LEFT_SIDE, c)
  }

  function RightDir(c: Config): Bit { DirOf(RIGHT_SIDE, c) }

  function HomeDir(c: Config): Bit { DirOf(c.homeSide, c) }

  function CloseDir(c: Config): Bit { DirOf(c.closedSide, c) }

  /** Opening and closing always turn the motor opposite ways, whatever the
      inversion setting. */
  function OpenDir(c: Config): (d: Bit)
    ensures d != CloseDir(c)
  {
    DirOf(OpenSide(c), c)
  }

  /** The switch that sits on a side. */
  function SwitchOn(side: Bit, c: Config): int {
    if side == RIGHT_SIDE then c.lsRight else c.lsLeft
  }

  function LsHome(c: Config): int { SwitchOn(c.homeSide, c) }

  function LsClosed(c: Config): int { SwitchOn(c.closedSide, c) }

  /** The open-end and closed-end switches are different pins whenever the
      two physical switches are. */
  function LsOpen(c: Config): (ls: int)
    ensures c.lsLeft != c.lsRight ==> ls != LsClosed(c)
    ensures ls == c.lsLeft || ls == c.lsRight
  {
    SwitchOn(OpenSide(c), c)
  }

  /** How far the position moves per step in direction `d`: stepping with the
      direction pin high decrements the position. */
  function Sign(d: Bit): (s: int)
    ensures s == 1 || s == -1
    ensures s == 1 <==> d == 0
  {
    1 - 2 * d
  }

  /** The whole window width in 1/64 micro-steps. */
  function FullTravel(c: Config): (t: nat)
    ensures t == c.windowWidthMm * 6400
  {
    c.windowWidthMm * SM_FULL_STEPS_PER_MM * SM_SMALLEST_MS
  }

  /** `WINDOW_CLOSED_STEP_POSITION`: zero when homing happens at the closed
      end, otherwise the full travel on the closing side of zero. */
  function ClosedStepPosition(c: Config): (p: int)
    ensures c.homeSide == c.closedSide ==> p == 0
    ensures c.homeSide != c.closedSide ==> p == Sign(CloseDir(c)) * FullTravel(c)
  {
    if c.homeSide == c.closedSide then 0
    else FullTravel(c) * (1 - CloseDir(c) * 2)
  }

  /** `WINDOW_OPEN_STEP_POSITION` of src/advanced_opts.h, the definition the
      driver's `open()` compares against. The home end is position zero, and
      the full travel in the closing direction leads from the open position
      to the closed one. */
  function OpenStepPosition(c: Config): (p: int)
    ensures c.homeSide != c.closedSide ==> p == 0
    ensures p + Sign(CloseDir(c)) * FullTravel(c) == ClosedStepPosition(c)
  {
    if c.homeSide == c.closedSide then
      FullTravel(c) * (1 - OpenDir(c) * 2)
    else 0
  }

  /** `DEFAULT_WINDOW_OPEN_STEP_POSITION` / `WINDOW_OPEN_STEP_POSITION` of
      code/src/advanced_opts.hh: the full travel, unsigned, when homing at the
      closed end, and zero otherwise. */
  function DefaultOpenStepPosition(c: Config): (p: int)
    ensures c.homeSide == c.closedSide ==> p == FullTravel(c)
    ensures c.homeSide != c.closedSide ==> p == 0
  {
    if c.homeSide == c.closedSide then FullTravel(c) else 0
  }

  /** The position unit of one step at resolution `ms`: `SM_SMALLEST_MS / ms`. */
  function StepUnit(ms: int): (u: int)
    requires IsResolution(ms)
    ensures u == 1 || u == 2 || u == 4 || u == 8
    ensures ms == 8 ==> u == 8
    ensures ms == 16 ==> u == 4
    ensures ms == 32 ==> u == 2
    ensures ms == 64 ==> u == 1
  {
    SM_SMALLEST_MS / ms
  }

  /** The concrete values of the shipped configuration. */
  lemma ShippedValues()
    ensures CloseDir(Shipped) == 0 && OpenDir(Shipped) == 1 && HomeDir(Shipped) == 0
    ensures LeftDir(Shipped) == 1 && RightDir(Shipped) == 0
    ensures LsHome(Shipped) == 13 && LsClosed(Shipped) == 13 && LsOpen(Shipped) == 12
    ensures ClosedStepPosition(Shipped) == 0
    ensures OpenStepPosition(Shipped) == -1280000
    ensures DefaultOpenStepPosition(Shipped) == 1280000
  {
  }
}
