/** Small failure-carrying datatypes shared by the whole model. */
module Wrappers {

  /** Python's `None`-or-value results. */
  datatype Option<+T> = None | Some(value: T)

  /** The exceptions the modelled functions raise, by the condition that raises them. */
  datatype Error =
    | OddTeamCount                       // ValueError("n must be even")
    | TeamMissing(week: int, team: int)  // RuntimeError: a team has no match in a week
    | MaxDiffWithoutHome                 // ValueError("max_diff requires with_home=True")
    | NotAnInteger(token: string)        // ValueError raised by int(token)

  /** A value, or the exception raised instead of returning it. */
  datatype Result<+T> = Ok(value: T) | Err(error: Error)
}
