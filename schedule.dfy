/**
 * Timing of the polling loops: after each check a loop sleeps 600 seconds,
 * and 1800 more first when the check found numbers. Time is an abstract
 * clock in seconds; a loop's checks are recorded in a log.
 */
module Schedule {
  import opened Outbox

  const Interval: nat := 600
  const Backoff: nat := 1800

  /** How long a loop sleeps after a check with this result. */
  function Gap(found: bool): nat {
    if found then Backoff + Interval else Interval
  }

  /** The later of two times. */
  function Max(a: nat, b: nat): nat {
    if a < b then b else a
  }

  /** One call of `get_numbers` made by loop `task` at time `at`, and how it ended. */
  datatype Check = Check(task: nat, at: nat, exit: Exit)

  /**
   * Within each loop, a check is followed by another only if it returned,
   * and no sooner than its sleep allows: 600 s after a miss, 2400 s after a hit.
   */
  ghost predicate Spaced(log: seq<Check>) {
    forall i, j :: 0 <= i < j < |log| && log[i].task == log[j].task ==>
      log[i].exit.Returned? && log[i].at + Gap(log[i].exit.found) <= log[j].at
  }

  /** Checks are logged in the order of the clock. */
  ghost predicate Chronological(log: seq<Check>) {
    forall i, j :: 0 <= i < j < |log| ==> log[i].at <= log[j].at
  }
}
