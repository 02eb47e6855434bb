# IoT Window motor core in Dafny

This project models the motor side of the IoT Window firmware. A Raspberry Pi
Pico drives a stepper motor that slides a window between two limit switches.
There are three parts:

- **The action queue** (`code/src/action_queue.cc`, `code/src/action_queue.hh`,
  `code/src/stepper_motor/action_queue.hh`). This is a bounded first-in,
  first-out circular buffer of eight pending motor commands.
  `ActionQueueModel.ActionQueue` models it as a class over a fixed `array`,
  with a ghost `Contents` sequence tied to the buffer by `Valid()`.
- **The C++ stepper-motor driver** (`code/src/stepper_motor.cc` with
  `code/src/stepper_motor.hh`). `StepperMotorDriver.StepperMotor` models it as a
  class whose methods update the pins, position, speed, state and flags in
  place. The arithmetic that chooses a speed is split out into pure functions
  in `SpeedSelection`. The per-resolution timing floors and the soft-start
  ramp are in `MotorConsts`.
- **The older C driver** (`src/stepper_motor.c`), modelled as
  `LegacyStepperMotor.LegacyMotor`.

The constants come from the build-time options of the shipped configuration:

- `code/src/advanced_opts.hh`, `src/advanced_opts.h` and `code/src/opts.h`.
- The window is 200 mm wide, with no direction inversion.
- The closed side and the home side are both the right-hand side.

These constants are derived in `AdvancedOpts` from a `Config` record. Under
that configuration:

- the window is 1,280,000 position units wide, where one unit is one 1/64 micro-step;
- the closed position is 0 and the open position is -1,280,000.

The C++ file includes `advanced_opts.h`, the only header that defines
`WINDOW_OPEN_STEP_POSITION` under this configuration. `code/src/pins.hh`
supplies the two-pin micro-step encoding, modelled in `Pins`. `code/src/common.h`
supplies the `MAX`/`MIN`/`CLAMP` macros, modelled in `Common`.

How the hardware is modelled:

- **Pins** are fields. `sleep_us` does nothing.
- **The `odometer` field** counts the steps taken, and is the clock that the
  limit switches and the asynchronous `stop()` are read against.
- **The environment (`Environment.Env`)** says, for each pin and each odometer
  reading, whether a switch is triggered and whether a stop has been requested.
- **The ghost `pulses` log** records the half-delay of every pulse sent, which
  is how the contracts state pulse timing.
- **The firmware's sensor loops** have no bound of their own. The caller
  supplies a ghost horizon at which a terminating reading holds.
- **C arithmetic** is written out explicitly:
  - `int64_t` `%` and `/` truncate (`CRem`, `CQuot`);
  - `uint64_t` reinterpretation wraps at 2^64 (`AsUint64`);
  - `uint8_t` truncation, `llround` and `round` are modelled (`TruncateToByte`,
    `PercentageToSteps`, `RoundHalfAway`).

Some behaviours of the code that a reader might not expect, each modelled as
written:

- **`stop()`** only sets the stop flag (`code/src/stepper_motor.cc:543`,
  `src/stepper_motor.c:398`). It leaves the queued action alone.
- **`open()` and `close()`** set the final state from the stop flag alone
  (`code/src/stepper_motor.cc:494` and `:529`). `updateState()` is declared at
  `code/src/stepper_motor.hh:146` but `code/src/stepper_motor.cc` does not
  define it, so nothing recomputes the state from the switches.
- **A triggered open switch** resets the position to the closed position
  (`code/src/stepper_motor.cc:531`; see Findings).
- **`enqueue`** never stores a NONE action (`code/src/action_queue.cc:63-64`),
  so `dequeue` returns NONE only on an empty queue.
- **`moveSteps`** never reads the stop flag (`code/src/stepper_motor.cc:614-631`),
  so `stop()` does not cut a move short.
- **`getPositionPercentage()`** divides the signed position by the width
  (`code/src/stepper_motor.cc:360-377`). Open positions are negative, so an
  open window reads -100 (see Findings).

## Model

| member | source | states |
|---|---|---|
| Common.Xor | code/src/advanced_opts.hh:26-30 | the `^` that derives every direction is zero exactly when the two bits agree |
| Common.Max | code/src/common.h:10 | `MAX` returns one of its arguments and is at least both |
| Common.Min | code/src/common.h:14 | `MIN` returns one of its arguments and is at most both |
| Common.Clamp | code/src/common.h:18 | `CLAMP(val, upper, lower)` lies in [lower, upper] when the bounds are ordered, returns `val` inside them, and returns `lower` whenever the bounds are given inverted |
| Pins.MsEncode | code/src/pins.hh:30-35 | `MS_ENCODE` always yields a two-pin encoding; anything but 8/16/32/64 falls back to MS_64 |
| Pins.MsDecode | code/src/pins.hh:37-42 | `MS_DECODE` maps each encoding to a resolution that encodes back to it, and anything else to 1 |
| Pins.EncodingsCoverTwoBits | code/src/pins.hh:25-28 | the four micro-step encodings are distinct and are exactly the values two pins can hold |
| Pins.DecodeEncode | code/src/pins.hh:30-42 | decoding undoes encoding for every supported resolution |
| Pins.PinsValue | code/src/stepper_motor.cc:104-107 | the value read back from the pins is a valid encoding whose low bit is MS1 and high bit is MS2 |
| Pins.PinsRoundTrip | code/src/stepper_motor.cc:192-194 | writing an encoding's two bits to the pins and reading them back returns the encoding |
| AdvancedOpts.OpenSide | code/src/advanced_opts.hh:10 | the open side is never the closed side |
| AdvancedOpts.DirOf | code/src/advanced_opts.hh:26-30 | a side's direction is the side itself unless the direction is inverted, and its opposite if it is |
| AdvancedOpts.LeftDir | code/src/advanced_opts.hh:26-27 | left and right always turn the motor opposite ways |
| AdvancedOpts.OpenDir | code/src/advanced_opts.hh:29-30 | opening and closing always turn the motor opposite ways, whatever the options |
| AdvancedOpts.LsOpen | code/src/advanced_opts.hh:44-46 | the open-end switch is one of the two switches, and differs from the closed-end switch when the switches are distinct pins |
| AdvancedOpts.Sign | code/src/stepper_motor.cc:409-414 | a step moves the position by one unit up with the pin low and one down with it high |
| AdvancedOpts.FullTravel | src/advanced_opts.h:54-58 | the window width in position units is the width in mm times 100 full steps per mm times 64 |
| AdvancedOpts.ClosedStepPosition | src/advanced_opts.h:53-59 | the closed position is 0 when homing at the closed side, else the full travel in the closing direction |
| AdvancedOpts.OpenStepPosition | src/advanced_opts.h:54-60 | the open position is one full travel from the closed position, against the closing direction |
| AdvancedOpts.DefaultOpenStepPosition | code/src/advanced_opts.hh:53-60 | the newer header's open position is the full width when homing at the closed side, else 0 |
| AdvancedOpts.StepUnit | code/src/stepper_motor.cc:409-414 | one step at resolution ms moves 64/ms units (1, 2, 4 or 8), and 8 exactly at the coarsest resolution |
| AdvancedOpts.ShippedValues | code/src/opts.h:9-21 | under the shipped options the close, home and right directions are 0, open and left are 1, the home and closed switch is pin 13, the open switch is pin 12, and the positions are 0 closed and -1,280,000 open |
| MotorConsts.MinHalfDelay | code/src/stepper_motor.hh:17-32 | the per-resolution floor, times the resolution, lies within 672..704 µs (about the same carriage speed), with the MS_8 floor for anything else |
| MotorConsts.MinHalfDelayQuiet | code/src/stepper_motor.hh:22-39 | every quiet-mode floor exceeds the normal floor of its resolution |
| MotorConsts.FloorsDecrease | code/src/stepper_motor.hh:17-25 | both floors strictly decrease as the resolution gets finer |
| MotorConsts.RampDelays | code/src/stepper_motor.hh:41-42 | the soft-start delays are 1000 µs, then 5 µs less at every step |
| MotorConsts.RampSteps | code/src/stepper_motor.cc:590-604 | the ramp runs exactly while its delay is above the target: every earlier delay is above it and the next is not, within 200 steps |
| MotorConsts.RampStepsBound | code/src/stepper_motor.hh:20 | against any target at or above the finest floor the ramp lasts at most 198 steps |
| SpeedSelection.Ceil | code/src/stepper_motor.cc:22-23 | `ceil` is the least integer not below its argument |
| SpeedSelection.ExactHalfDelay | code/src/stepper_motor.cc:22-23 | the exact half-pulse time moves the carriage at the requested mm/s at the given resolution |
| SpeedSelection.HalfDelayFor | code/src/stepper_motor.cc:22-23 | the macro's delay is the exact half-delay rounded up to whole microseconds, and at least 1 |
| SpeedSelection.ConsiderCoarser | code/src/stepper_motor.cc:270-298 | a coarser candidate either leaves the choice alone or replaces it with its own delay, which is above its floor |
| SpeedSelection.SelectQuiet | code/src/stepper_motor.cc:246-251 | quiet mode picks MS_64 with the larger of the requested delay and the quiet MS_64 floor |
| SpeedSelection.ExactHalfDelayScales | code/src/stepper_motor.cc:22-23 | the exact delay at a coarser resolution is the MS_64 delay scaled by the ratio of resolutions |
| SpeedSelection.CoarserDelayIsLonger | code/src/stepper_motor.cc:22-23 | rounding up keeps a coarser delay above the ratio times one less than the MS_64 delay |
| SpeedSelection.CandidateNeverTaken | code/src/stepper_motor.cc:270-298 | once MS_64 is chosen, no coarser candidate ever passes the greedy test |
| SpeedSelection.SelectNormalIsFinest | code/src/stepper_motor.cc:258-302 | the greedy pass always ends at MS_64 with the requested delay raised to its floor |
| SpeedSelection.SpeedSettingRespectsFloors | code/src/stepper_motor.cc:235-304 | whatever the mode, the setting is MS_64, at or above the normal floor (the quiet floor in quiet mode) and at or above the exact requested delay |
| SpeedSelection.AchievedSpeedNotAboveRequest | code/src/stepper_motor.cc:235-304 | the carriage speed the chosen delay achieves never exceeds the requested speed |
| SpeedSelection.DelayNotFasterThan | code/src/stepper_motor.cc:259-265 | a half-delay no shorter than the exact MS_64 one is positive and moves the carriage no faster than the requested speed |
| ActionQueueModel.AdvanceIndex | code/src/action_queue.hh:203 | the next slot is in range, follows the current one, and wraps to 0 only from the last |
| ActionQueueModel.ActionQueue.constructor | code/src/action_queue.cc:7-13 | a new queue is empty with head, tail and count 0 |
| ActionQueueModel.ActionQueue.IsEmpty | code/src/action_queue.cc:17 | true exactly when no action is queued |
| ActionQueueModel.ActionQueue.IsFull | code/src/action_queue.cc:19 | true exactly when eight actions are queued |
| ActionQueueModel.ActionQueue.GetCount | code/src/action_queue.cc:21 | the number of queued actions, between 0 and 8 |
| ActionQueueModel.ActionQueue.GetCapacity | code/src/action_queue.cc:23 | the buffer size, never below the count |
| ActionQueueModel.ActionQueue.Peek | code/src/action_queue.cc:25-37 | nothing exactly when empty, else the oldest action, which is the one at head |
| ActionQueueModel.ActionQueue.Clear | code/src/action_queue.cc:39-47 | empties the queue and resets the indices without touching the buffer |
| ActionQueueModel.ActionQueue.Enqueue | code/src/action_queue.cc:49-83 | accepted exactly when not full; a non-NONE action is appended at tail, which advances; a NONE action is accepted but stores nothing; the invariant is kept |
| ActionQueueModel.ActionQueue.EnqueueWithData | code/src/action_queue.cc:85-91 | the same as enqueuing the assembled action with its data |
| ActionQueueModel.ActionQueue.EnqueueType | code/src/action_queue.cc:93-99 | the same as enqueuing the action with the zero default argument |
| ActionQueueModel.ActionQueue.Dequeue | code/src/action_queue.cc:101-131 | removes and returns the oldest action and advances head; on an empty queue it returns the NONE action and changes nothing; NONE comes back exactly when the queue was empty |
| ActionQueueModel.ActionQueue.PopHead | code/src/action_queue.cc:118-130 | on a non-empty queue: returns the oldest action, which is never NONE, drops it from the contents and advances head only; the buffer is untouched and the invariant kept |
| ActionQueueModel.RingPop | code/src/action_queue.cc:119-124 | the slot at head holds the oldest action, which is not NONE; advancing head with one action fewer leaves the remaining actions as a well-formed ring |
| ActionQueueModel.RingPush | code/src/action_queue.cc:67-72 | writing a non-NONE action at tail of a ring that is not full, advancing tail and counting one more, gives a ring holding the old actions followed by the new one |
| ActionQueueModel.NewQueueWith | code/src/action_queue.cc:49-83 | up to eight non-NONE actions enqueued one by one are all accepted and held in order |
| ActionQueueModel.DrainAll | code/src/action_queue.cc:101-131 | dequeuing until empty returns the queue's contents in order |
| ActionQueueModel.FifoOrder | code/src/action_queue.hh:48-51 | first in, first out: actions enqueued into a new queue are dequeued in the same order, and the next dequeue returns NONE |
| ActionQueueModel.FullQueueRefuses | code/src/action_queue.cc:54-57 | a full queue refuses one more action of any type and keeps the eight it holds, in order |
| StepperMotorDriver.Repeat | code/src/stepper_motor.cc:424 | n pulses of one delay: n entries, each that delay |
| StepperMotorDriver.LimitSwitchFor | code/src/stepper_motor.cc:587 | the switch ahead is the open switch when opening and the closed switch when closing |
| StepperMotorDriver.CRem | code/src/stepper_motor.cc:173-174 | C's `%` takes the dividend's sign, stays within the divisor, and completes the truncated quotient |
| StepperMotorDriver.AlignmentSteps | code/src/stepper_motor.cc:173-180 | the step count for realignment is a remainder below the pitch for a non-negative position, and negative for a negative one |
| StepperMotorDriver.SetMicroStepAlignsFromFinest | code/src/stepper_motor.cc:163-190 | from MS_64, a coarser resolution moves a non-negative position down to the nearest multiple of the new pitch; a negative position or a finer resolution never moves |
| StepperMotorDriver.SetMicroStepKeepsZero | code/src/stepper_motor.cc:163-190 | at position zero, changing the resolution never steps |
| StepperMotorDriver.AsUint64 | code/src/stepper_motor.cc:340 | the unsigned view of the position agrees with it modulo 2^64, equals it when it is non-negative, and is 2^64 above it when it is negative |
| StepperMotorDriver.PlanMove | code/src/stepper_motor.cc:638-651 | a larger target turns OPEN_DIR and a smaller or equal one CLOSE_DIR, by exactly the unsigned distance, which never wraps |
| StepperMotorDriver.PercentageToSteps | code/src/stepper_motor.cc:387-391 | the steps are the percentage of the window width rounded to the nearest step |
| StepperMotorDriver.TruncateToByte | code/src/stepper_motor.cc:433 | the saved `uint8_t` speed is the whole part of the speed |
| StepperMotorDriver.BackOffSteps | code/src/stepper_motor.cc:451 | the homing back-off covers 7 mm at any resolution |
| StepperMotorDriver.StepperMotor.MicroStep | code/src/stepper_motor.cc:104-107 | the read-back is always a valid encoding |
| StepperMotorDriver.StepperMotor.MicroStepInt | code/src/stepper_motor.cc:114-131 | the pins always decode to a supported resolution that encodes back to them |
| StepperMotorDriver.StepperMotor.Unit | code/src/stepper_motor.cc:409-414 | one step moves 1, 2, 4 or 8 position units |
| StepperMotorDriver.StepperMotor.GetPosition | code/src/stepper_motor.cc:340 | the position as `uint64_t`: below 2^64 and equal to the signed position modulo 2^64 |
| StepperMotorDriver.StepperMotor.StepsToPercentage | code/src/stepper_motor.cc:375-377 | the percentage, times the window width, is 100 times the motor's own position, whatever the argument |
| StepperMotorDriver.StepperMotor.GetPositionPercentage | code/src/stepper_motor.cc:346-366 | the percentage is within half a unit of 100 × position / width |
| StepperMotorDriver.StepperMotor.constructor | code/src/stepper_motor.cc:38-95 | enabled, direction low, not quiet, no stop, at position 0, STOPPED, nothing queued, at the given speed, MS_64, and the delay that `setSpeed` selects |
| StepperMotorDriver.StepperMotor.Enable | code/src/stepper_motor.cc:200 | the enable line goes low |
| StepperMotorDriver.StepperMotor.Disable | code/src/stepper_motor.cc:205 | the enable line goes high |
| StepperMotorDriver.StepperMotor.SetDir | code/src/stepper_motor.cc:213-215 | the direction pin takes the given level |
| StepperMotorDriver.StepperMotor.SwapDir | code/src/stepper_motor.cc:228 | the direction pin is inverted |
| StepperMotorDriver.StepperMotor.StepExact | code/src/stepper_motor.cc:401-419 | one pulse of the given delay; the position moves one unit of the current resolution, down when the pin is high |
| StepperMotorDriver.StepperMotor.Step | code/src/stepper_motor.cc:424 | one pulse at the configured delay |
| StepperMotorDriver.StepperMotor.StepTimes | code/src/stepper_motor.cc:183-185 | n steps move the position n units in the pin's direction, with n pulses of the configured delay |
| StepperMotorDriver.StepperMotor.SetMicroStep | code/src/stepper_motor.cc:138-195 | the pins hold the requested encoding (MS_64 for an unknown one); the position is where the alignment steps at the old resolution leave it; exactly those steps are pulsed; the direction is restored |
| StepperMotorDriver.StepperMotor.SetSpeed | code/src/stepper_motor.cc:235-304 | stores the speed and applies the selection for the mode: MS_64 and a delay at or above the floor, with the position, pulses and direction unchanged |
| StepperMotorDriver.StepperMotor.SetQuietMode | code/src/stepper_motor.cc:323-329 | records the mode and re-applies the stored speed under it, without moving |
| StepperMotorDriver.StepperMotor.DelayAboveFloor | code/src/stepper_motor.cc:246-304 | with the speed applied as `setSpeed` does, the configured delay is at or above the MS_64 floor, and the quiet floor in quiet mode |
| StepperMotorDriver.StepperMotor.TravelUntil | code/src/stepper_motor.cc:489-491 | steps until a stop, the switch or the target; it ends at the first reading that stops it: no earlier reading saw a stop request or the switch triggered, and no earlier position was the target, so it takes no step from the target |
| StepperMotorDriver.StepperMotor.Close | code/src/stepper_motor.cc:474-502 | succeeds exactly when not stopped, and then ends at the closed position; a triggered switch forces the closed position; the state is CLOSED or STOPPED; the queued action is dropped; it stops at the first reading at the closed position and never passes it, and takes no step when already closed or at the switch |
| StepperMotorDriver.StepperMotor.OpenResetting | code/src/stepper_motor.cc:510-536 | the open loop, with the position that a triggered open switch forces passed as a parameter: it stops at the first reading of a stop request, the open switch or the open position, never passes the open position, takes no step from it, and a successful open off the switch ends at the open position |
| StepperMotorDriver.StepperMotor.Open | code/src/stepper_motor.cc:510-536 | as written: steps OPEN_DIR until the first reading of a stop, the open switch or the open position, never passing the open position and taking no step from it; a successful open off the switch ends at the open position, and a triggered open switch sets the position to the CLOSED position |
| StepperMotorDriver.StepperMotor.OpenCorrected | code/src/stepper_motor.cc:510-536 | with the switch resetting to the open position: it stops at the first reading of a stop, the open switch or the open position, never passes the open position, and a successful open always ends there |
| StepperMotorDriver.StepperMotor.CloseAfterOpenAtSwitch | code/src/stepper_motor.cc:531 | open as written, then close: after an open that ends on the switch, the close takes no step and reports CLOSED |
| StepperMotorDriver.StepperMotor.CloseAfterOpenCorrected | code/src/stepper_motor.cc:474-536 | the corrected open, then close: with the closed switch clear the close steps, and a successful close ends closed |
| StepperMotorDriver.StepperMotor.Stop | code/src/stepper_motor.cc:543 | raises the stop flag and nothing else |
| StepperMotorDriver.StepperMotor.QueueAction | code/src/stepper_motor.cc:555 | the pending-action slot holds the given action |
| StepperMotorDriver.StepperMotor.SetState | code/src/stepper_motor.cc:565 | the state is the given one |
| StepperMotorDriver.StepperMotor.SoftStart | code/src/stepper_motor.cc:584-605 | pulses exactly the ramp delays; stops at the ramp's end, at the switch ahead or when the budget runs out; takes one budget unit per step |
| StepperMotorDriver.StepperMotor.MoveSteps | code/src/stepper_motor.cc:614-631 | never more than `steps` steps, a shorter move only at the switch ahead, the position moved accordingly, and no pulse faster than the configured delay |
| StepperMotorDriver.StepperMotor.Cruise | code/src/stepper_motor.cc:627-630 | steps at the configured delay until the budget is spent or the switch triggers |
| StepperMotorDriver.StepperMotor.MoveToPosition | code/src/stepper_motor.cc:638-656 | moves in the planned direction by at most the planned distance, with the switch ahead clear at every step taken, stopping short only when it triggers |
| StepperMotorDriver.StepperMotor.MoveToPositionPercentage | code/src/stepper_motor.cc:663-669 | as written: whatever the percentage, the move is planned towards 1,280,000, and it stops short only at the first reading of the switch ahead triggered |
| StepperMotorDriver.StepperMotor.MoveToPositionPercentageCorrected | code/src/stepper_motor.cc:663-669 | with the clamp bounds in order and the corrected plan: the move is planned towards the clamped percentage of the width as an open amount, stops short only at the first reading of the switch ahead triggered, and an uninterrupted move at MS_64 leaves the window that far open |
| StepperMotorDriver.StepperMotor.MoveToPositionCorrected | code/src/stepper_motor.cc:638-656 | with the plan read against the signed position: turns OPEN_DIR to open further, stops short only at the first reading of the switch ahead triggered, and an uninterrupted move at MS_64 leaves the window exactly `target` open |
| StepperMotorDriver.StepperMotor.StepWhileSwitch | code/src/stepper_motor.cc:443 | steps until the first reading at which the switch changes: every earlier reading was the one it stepped on, and the position moved one unit per step |
| StepperMotorDriver.StepperMotor.SeekHome | code/src/stepper_motor.cc:436-457 | approaches the home switch until its first triggered reading, backs off until its first clear reading and then exactly 7 mm further, and approaches again at 1 mm/s until the first triggered reading after that, ending on the switch |
| StepperMotorDriver.StepperMotor.ApproachHome | code/src/stepper_motor.cc:442-444 | at the given speed, steps until the first reading at which the home switch triggers; it read clear before every step taken |
| StepperMotorDriver.StepperMotor.Home | code/src/stepper_motor.cc:429-466 | ends on the home switch at position 0 with the direction restored, the speed truncated to a whole number, and MS_64 (the saved resolution does not survive `setSpeed`) |
| StepperMotorDriver.PlanMoveCountsDown | code/src/stepper_motor.cc:645-651 | as written, a full move towards a larger target opens the window by the difference but leaves the position as far below the start as the target is above it, so it never reads the target |
| StepperMotorDriver.PlanMoveCorrected | code/src/stepper_motor.cc:645-651 | the source's plan with the position read as an open amount: OPEN_DIR by the difference to open further, CLOSE_DIR otherwise, and a full move at MS_64 leaves the window exactly `target` open |
| StepperMotorDriver.SecondMoveWraps | code/src/stepper_motor.cc:638-651 | as written, after opening from closed to t1, any move to a t2 within the window plans 2^64 - t1 - t2 steps CLOSE_DIR from the wrapped position |
| StepperMotorDriver.CorrectedMovesChain | code/src/stepper_motor.cc:638-651 | with the corrected plan, the move after a full one covers exactly the difference of the two targets, in the direction that opens or closes accordingly |
| StepperMotorDriver.OpenAmount | src/advanced_opts.h:52-55 | the open amount of a position is 0 at the closed position and the full width at the open position |
| StepperMotorDriver.MoveAwayScenario | code/src/stepper_motor.cc:638-656 | from 0, a move to 640,000 opens the window by 640,000 but leaves the position at -640,000 |
| StepperMotorDriver.RoundHalfAway | code/src/stepper_motor.cc:361 | `(int)round(x)` is within half a unit of x and not negative for a non-negative x |
| StepperMotorDriver.OpenPositionReadsNegative | code/src/stepper_motor.cc:346-377 | as written, a motor at the open position reports -100 percent, while the corrected reading is 100 |
| StepperMotorDriver.OpenPercentage | code/src/stepper_motor.cc:346-377 | the corrected reading: within half a unit of the open share of the width, 0 at the closed position, 100 at the open one, and within [0, 100] inside the window |
| StepperMotorDriver.PercentReadBack | code/src/stepper_motor.cc:346-377 | a whole percentage, moved to as an open amount, reads back exactly |
| StepperMotorDriver.ClampPercent | code/src/common.h:18 | with the bounds in the right order, CLAMP keeps a percentage in [0, 100] and saturates outside it |
| StepperMotorDriver.PercentTarget | code/src/stepper_motor.cc:665 | the intended percentage target lies within the window width |
| StepperMotorDriver.PercentTargetRoundTrip | code/src/stepper_motor.cc:375-391 | a percentage in range converted to steps and back returns within half a step |
| StepperMotorDriver.RealignedPosition | code/src/stepper_motor.cc:163-190 | the intended realignment is a multiple of the new pitch, between the position and zero, less than one pitch from the position |
| StepperMotorDriver.RealignedInWholeSteps | code/src/stepper_motor.cc:183-185 | the intended realignment is a whole number of steps at the current resolution |
| StepperMotorDriver.WholeStepsTowardZero | code/src/stepper_motor.cc:181-185 | the number of steps towards zero that cover a remainder exactly |
| StepperMotorDriver.StepperMotor.SetMicroStepCorrected | code/src/stepper_motor.cc:138-195 | the corrected realignment: a coarser resolution moves to the realigned position, a finer one does not move, and the position stays aligned to the resolution |
| StepperMotorDriver.SetMicroStepMisaligns | code/src/stepper_motor.cc:163-190 | as written, 6 at MS_32 to MS_8 gives -6, and -3 at MS_64 to MS_8 stays -3, both misaligned; the corrected realignment gives 0 for both |
| StepperMotorDriver.MisalignedScenario | code/src/stepper_motor.cc:138-195 | six units up from zero, then MS_32, then MS_8 leaves the motor at -6 |
| StepperMotorDriver.RampAboveCruise | code/src/stepper_motor.cc:594-604 | every soft-start pulse is longer than the cruise pulse |
| StepperMotorDriver.ClampedPercentTargetsFullWidth | code/src/stepper_motor.cc:665 | as written, `CLAMP(percent, 0.0, 100.0)` is always 100, so the target is always the full width |
| LegacyStepperMotor.PinsAnd | src/stepper_motor.c:89-91 | the `&` read-back is MS_8 whatever the pins hold |
| LegacyStepperMotor.PinsOr | src/stepper_motor.c:89-91 | the OR read-back is the encoding the pins hold |
| LegacyStepperMotor.PinsOrRoundTrip | src/stepper_motor.c:178-179 | writing any encoding and reading it back with OR returns it, while the AND read-back fails for every encoding but MS_8 |
| LegacyStepperMotor.LegacyHalfDelay | src/stepper_motor.c:226-230 | the delay is speed × 20 µs, plus 200 µs in quiet mode |
| LegacyStepperMotor.LegacyDelayMonotone | src/stepper_motor.c:226-230 | a slower speed or quiet mode never shortens the delay, and quiet mode adds exactly 200 µs |
| LegacyStepperMotor.LegacyMotor.SmGetMicroStep | src/stepper_motor.c:89-91 | always MS_8 |
| LegacyStepperMotor.LegacyMotor.SmGetMicroStepInt | src/stepper_motor.c:98-115 | always 8 |
| LegacyStepperMotor.LegacyMotor.SmGetMicroStepCorrected | src/stepper_motor.c:89-91 | the encoding the pins actually hold |
| LegacyStepperMotor.LegacyMotor.constructor | src/stepper_motor.c:28-80 | enabled, direction low, not quiet, no stop, at position 0, pins holding the requested encoding, and the delay that the speed derives |
| LegacyStepperMotor.LegacyMotor.SmSetMicroStep | src/stepper_motor.c:123-180 | the pins hold the requested encoding (MS_64 for an unknown one); the read-back stays MS_8, so no alignment step is ever taken |
| LegacyStepperMotor.LegacyMotor.SmEnable | src/stepper_motor.c:185 | the enable line goes low |
| LegacyStepperMotor.LegacyMotor.SmDisable | src/stepper_motor.c:190 | the enable line goes high |
| LegacyStepperMotor.LegacyMotor.SmSetDir | src/stepper_motor.c:199 | the direction pin takes the given level |
| LegacyStepperMotor.LegacyMotor.SmSwapDir | src/stepper_motor.c:209-216 | the direction pin is inverted |
| LegacyStepperMotor.LegacyMotor.SmSetSpeed | src/stepper_motor.c:226-230 | stores the speed and derives the delay for the mode |
| LegacyStepperMotor.LegacyMotor.SmSetQuietMode | src/stepper_motor.c:251-257 | records the mode and keeps the speed; turning quiet mode on adds 200 µs and turning it off removes it |
| LegacyStepperMotor.LegacyMotor.SmGetPosition | src/stepper_motor.c:263 | the position as `uint64_t`, equal to it modulo 2^64 |
| LegacyStepperMotor.LegacyMotor.SmStepExact | src/stepper_motor.c:274-292 | one pulse; since the read-back is always 8, the position moves 8 units, down when the pin is high |
| LegacyStepperMotor.LegacyMotor.SmStep | src/stepper_motor.c:299 | one pulse at the configured delay |
| LegacyStepperMotor.LegacyMotor.SmStepWhileSwitch | src/stepper_motor.c:323 | steps until the first reading at which the switch changes: every earlier reading was the one it stepped on, and the position moved 8 units per step |
| LegacyStepperMotor.LegacyMotor.SmHome | src/stepper_motor.c:304-338 | ends on the home switch at position 0 after a 2000-step back-off, with the direction and speed restored and the pins at MS_8 (the saved read-back) |
| LegacyStepperMotor.LegacyMotor.SmSeekHome | src/stepper_motor.c:316-329 | approaches the home switch until its first triggered reading, backs off until its first clear reading and then exactly 2000 steps further, and approaches again until the first triggered reading after that; it ends heading home at speed 4 with the switch closed |
| LegacyStepperMotor.LegacyMotor.SmStepTimes | src/stepper_motor.c:324 | n steps add n to the step count and move the position by n pitches of 8 units in the set direction |
| LegacyStepperMotor.LegacyMotor.SmTravelUntil | src/stepper_motor.c:358-360 | steps until the first reading of a stop, the switch or the target, 8 units a step: no earlier reading saw a stop or the switch, no earlier position was the target, and it takes no step from the target |
| LegacyStepperMotor.LegacyMotor.SmClose | src/stepper_motor.c:346-365 | succeeds exactly when not stopped, and then it is on the closed switch or at the closed position; it never passes the closed position and takes no step from it |
| LegacyStepperMotor.LegacyMotor.SmOpen | src/stepper_motor.c:373-391 | succeeds exactly when not stopped, and then it is on the open switch or at the open position; it never passes the open position and takes no step from it |
| LegacyStepperMotor.LegacyMotor.SmStop | src/stepper_motor.c:398 | raises the stop flag |
| LegacyStepperMotor.ReadBackScenario | src/stepper_motor.c:89-180 | after selecting MS_64 the pins hold MS_64 but read back as MS_8, that is 8 micro-steps |

## Left out

- The MQTT, network, Home Assistant and publishing code is not part of this model (`updateState`, `publishState` and the callers in `main.cc` and `ha_device.cc`). Neither is `calibrate`.
- The queue's and the motor's critical sections and `deinit` are left out. The operations are modelled as running one at a time. Concurrency with the network callback is not modelled, except that `Env` delivers an asynchronous `stop()`.
- `sleep_us` and pulse timing are not modelled as time. The ghost `pulses` log records the half-delay of every pulse instead.
- The GPIO reads and writes are fields, and the limit switches are the `Env` oracle. The pin numbers other than the switch pins are left out.
- `float` rounding is not modelled. Speeds and percentages are exact reals, and `ceil`, `llround` and `round` act on those exact values.
- The plain getters `getSpeed`, `getQuietMode`, `getState`, `getQueuedAction`, `getHalfStepDelay`, `getDir`, `getPositionPercentageExact`, `smGetSpeed` and `smGetDir` are field reads. They are used through the fields and have no members of their own.
- `smGetDir` in `src/stepper_motor.c:209` has no `return` statement, which is undefined behaviour in C. The model reads the direction pin there, which is what the function evidently means.
- The commented-out older code at the end of `src/stepper_motor.c` and in `code/src/action_queue.hh` is left out.
- The unused `ActionQueue` member declared in the newer motor header is left out, because the driver never touches it.
- ActionQueueModel.ActionQueue.Peek: `peek()` returns a pointer into the buffer (`&buffer[head]`); the model returns a copy of the head action, so writes through that pointer, and the pointer going stale after a later `enqueue` overwrites the slot, are not modelled. No caller among the modelled files uses `peek`.
- The `ActionData` union is modelled as a tagged datatype. Reading a member other than the one last written (type punning) is not modelled.
- The `MOVE_TO_STEP` target of `ActionData` is an `int64_t`. It reaches `moveToPosition` only through callers, which are not part of this model.
- StepperMotorDriver.StepperMotor.TravelUntil: the open and close loops have no bound of their own. A caller-supplied ghost horizon must give a stop or a triggered switch.
- StepperMotorDriver.StepperMotor.StepWhileSwitch: the same kind of horizon is needed for each homing loop, in both drivers.
- StepperMotorDriver.StepperMotor.Home: requires `1 <= speed < 256`. The `uint8_t` truncation is defined only below 256, and a saved speed of 0 would make `setSpeed` divide by zero.
- StepperMotorDriver.PercentageToSteps: requires a non-negative percentage. Every caller passes a clamped value, and the `uint64_t` cast of a negative `llround` is not modelled.
- StepperMotorDriver.StepperMotor.MoveSteps: with soft start, each pulse is only bounded below by the configured delay. The exact pulse sequence (the ramp followed by the cruise delays) is stated by SoftStart and Cruise separately.
- StepperMotorDriver.StepperMotor.SetMicroStepCorrected: requires the position to be aligned to the current resolution. This holds for every position the corrected driver reaches.
- The speed `uint8_t` parameter of the C driver is modelled as a `nat` below 256, so a wrapped argument is not modelled.

## Findings

| source | as written | input that shows it | evidently intended | confidence | as-written member | corrected member |
|---|---|---|---|---|---|---|
| code/src/stepper_motor.cc:531 | a triggered open switch sets the position to `WINDOW_CLOSED_STEP_POSITION` | `open()` ends on the open switch with no stop pending, then `close()` | the position becomes `WINDOW_OPEN_STEP_POSITION`, so the next close really closes; as written it takes no step and reports CLOSED | not executed | StepperMotorDriver.StepperMotor.CloseAfterOpenAtSwitch | StepperMotorDriver.StepperMotor.CloseAfterOpenCorrected |
| code/src/stepper_motor.cc:665 | `CLAMP(percent, 0.0, 100.0)`, while the macro at code/src/common.h:18 takes `(val, upper, lower)` | any percentage, e.g. 25: `MAX(MIN(25, 0), 100)` is 100 | `CLAMP(percent, 100.0, 0.0)`, a move to the requested percentage | not executed | StepperMotorDriver.ClampedPercentTargetsFullWidth | StepperMotorDriver.StepperMotor.MoveToPositionPercentageCorrected |
| code/src/stepper_motor.cc:163-190 | the alignment steps are taken at the current resolution, counted in position units of the new pitch, and skipped for a negative position | position 6 at MS_32 switched to MS_8 ends at -6; position -3 at MS_64 switched to MS_8 stays at -3 | move to the multiple of the new pitch nearest the position on the zero side | not executed | StepperMotorDriver.SetMicroStepMisaligns | StepperMotorDriver.StepperMotor.SetMicroStepCorrected |
| code/src/stepper_motor.cc:638-651 | the requested open amount is compared with `getPosition()`, the `uint64_t` view of a position that `stepExact` (code/src/stepper_motor.cc:411-414) counts down in `OPEN_DIR` | from the closed position at MS_64, `moveToPosition(640000)` opens the window by 640000 but leaves the position at -640000; a following `moveToPosition(320000)` plans 2^64 - 960000 steps `CLOSE_DIR` | plan against the signed position read as an open amount, so a move to p leaves the window p open and the next move covers only the difference | not executed | StepperMotorDriver.SecondMoveWraps | StepperMotorDriver.StepperMotor.MoveToPositionCorrected |
| code/src/stepper_motor.cc:360-377 | the percentage is `100.0 * step_position` over the width, and positions on the open side are negative under the shipped options | a motor at `WINDOW_OPEN_STEP_POSITION` (-1,280,000) reports -100 | the share of the window that is open: 0 closed and 100 open | not executed | StepperMotorDriver.OpenPositionReadsNegative | StepperMotorDriver.OpenPercentage |
| src/stepper_motor.c:90 | the pins are read back as `(ms2 << 1) & ms1`, which is always 0 | select MS_64: the pins hold 0b10 and read back as MS_8, so every step counts 8 units | `(ms2 << 1) \| ms1`, as the newer driver does | not executed | LegacyStepperMotor.ReadBackScenario | LegacyStepperMotor.PinsOrRoundTrip |
