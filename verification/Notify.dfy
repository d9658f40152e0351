/** One waiter of a notification. */
module Notify {
  datatype Waiter = Idle | Registered | Notified

  /** A broadcast reaches a registered waiter only, and leaves nothing behind for later ones. */
  function Woken(waiter: Waiter): Waiter {
    if waiter == Registered then Notified else waiter
  }
}
