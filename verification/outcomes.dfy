/** Optional values and the outcome of a simulation step.

    Arithmetic that leaves its integer range panics in a debug build of the
    game; a step that would do so yields `Panic`, naming where it happened. */
module Outcomes {

  datatype Option<+T> = None | Some(value: T)

  /** The arithmetic panics a step can raise. */
  datatype Fault =
    | HeadOverflow     // the head stepped past the i64 range
    | LengthUnderflow  // a due segment computed `length - 1` with length 0
    | GrowOverflow     // growing pushed a countdown or the length past u64

  datatype Result<+T> = Ok(value: T) | Panic(fault: Fault)
}
