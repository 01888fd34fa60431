/** The ways a layout pass can stop: the panics of the Rust code, made into
    values; and the optional values the layout code takes. */
module Faults {

  datatype Fault =
    | /** `f32::clamp` / `Ord::clamp` called with a lower bound above the upper bound */
      InvertedBounds
    | /** a `todo!()` branch (`FlexWrap::WrapReverse`, the integer flexbox's `render`) */
      Unimplemented
    | /** an unsigned subtraction that would go below zero */
      Underflow
    | /** a signed addition that leaves the `isize` range */
      Overflow
    | /** `render` called with a child count different from the number of stored subareas */
      LengthMismatch

  datatype Result<+T> = Done(value: T) | Panic(fault: Fault)

  /** Rust's `Option`. */
  datatype Option<+T> = None | Some(value: T)
}
