/** Option and Result types used by the round engine, and the failures the
    Python code raises as exceptions. */
module Outcomes {

  datatype Option<+T> = None | Some(value: T)

  /** The exceptions the round engine can raise, one constructor each. */
  datatype Failure =
    | EmptyChoice     // `random.choice` asked to pick from an empty list
    | ZeroDivision    // `36 // len(players)` with no players
    | EmptyRandRange  // `random.randint(0, -1)` for an empty seating list
    | EmptyIndex      // `flatten_info_list[0]` on an empty list of rows

  datatype Result<+T> = Ok(value: T) | Err(error: Failure)
}
