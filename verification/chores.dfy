/**
 * The task record received from the task service. Only the fields the controller reads are
 * kept; the record is never changed locally, only replaced by a fresh list.
 */
module Chores {
  import opened Wrappers

  /** Rust's `i32` and `i64`: the service's integer fields are bounded. */
  newtype int32 = x: int | -0x8000_0000 <= x < 0x8000_0000
  newtype int64 = x: int | -0x8000_0000_0000_0000 <= x < 0x8000_0000_0000_0000

  datatype Chore = Chore(
    id: int64,
    name: string,
    nextDueDate: Option<string>,
    /** 0 pending, 1 active, 2 completed; any other code is unknown. */
    status: Option<int32>,
    priority: Option<int32>)
}
