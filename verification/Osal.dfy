// The slice of the operating system layer that the firmware relies on: one
// software timer and one pending bit per event, and the machine integers of
// the source.

module Osal {

  type uint8 = n: nat | n < 0x100
  type uint16 = n: nat | n < 0x1_0000

  datatype Option<+T> = None | Some(value: T)

  // An event of a task. `due` is the absolute deadline of its armed timer and
  // `pending` says that the event waits to be delivered.
  datatype Timer = Timer(due: Option<nat>, pending: bool) {

    // osal_start_timerEx: arm, or re-arm, the one timer of this event.
    function Start(now: nat, ms: nat): Timer {
      this.(due := Some(now + ms))
    }

    // osal_stop_timerEx: an event that is already pending stays pending.
    function Stop(): Timer {
      this.(due := None)
    }

    // osal_set_event
    function Post(): Timer {
      this.(pending := true)
    }

    // The clock reaches `now`: an expired timer becomes a pending event.
    function Tick(now: nat): Timer {
      if due.Some? && due.value <= now then Timer(None, true) else this
    }

    // The scheduler hands the event to its task.
    function Take(): Timer {
      this.(pending := false)
    }

    predicate Live() {
      due.Some? || pending
    }
  }

  const IDLE := Timer(None, false)
}
