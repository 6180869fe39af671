/**
 * The shared desk slot of the tauri application state, taken sequentially:
 * one value that `assign_desk_to_mutex` overwrites and
 * `get_desk_from_app_state` reads. Locking is not modelled.
 */
module DeskMutex {
  import opened Basics
  import opened Protocol

  /** The slot; `T` is the peripheral type. */
  class SharedDesk<T> {
    var held: Result<T, BtError>

    constructor (initial: Result<T, BtError>)
      ensures held == initial
    {
      held := initial;
    }

    /** `assign_desk_to_mutex`: the new value replaces the old one, `Ok` or `Err`. */
    method Assign(newDesk: Result<T, BtError>)
      modifies this
      ensures held == newDesk
    {
      held := newDesk;
    }

    /**
     * `get_desk_from_app_state`: a copy of the held desk. The source panics
     * ("Desk should have been defined at this point") when the slot holds an
     * error, so callers must only ask once a desk was assigned.
     */
    method Get() returns (desk: T)
      requires held.Ok?
      ensures desk == held.value
    {
      desk := held.value;
    }
  }

  /** Two assigns in a row: the slot keeps only the second, and reading it leaves it as it is. */
  method LastAssignWins<T>(slot: SharedDesk<T>, first: Result<T, BtError>, second: T) returns (desk: T)
    modifies slot
    ensures desk == second && slot.held == Ok(second)
  {
    slot.Assign(first);
    slot.Assign(Ok(second));
    desk := slot.Get();
  }
}
