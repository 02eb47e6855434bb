/** What the motor code reads from the world rather than from its own
    fields: the limit switches (`LS_TRIGGERED(pin)`) and the stop requests
    that the network callback delivers through `stop()`. Both are oracles
    indexed by the motor's odometer, the number of steps taken since power-up,
    so that two reads with no step between them agree, as they do on the
    hardware. */
module Environment {

  datatype Env = Env(
    /** `LS_TRIGGERED(pin)` after `n` steps. */
    triggered: (int, nat) -> bool,
    /** Whether `stop()` has been called, by the time the stepping loop checks
        its flag after `n` steps. */
    stopRequested: nat -> bool)
}
