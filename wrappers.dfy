/** Failure-compatible wrappers shared by the model: Option stands for a Java reference that may be
    null, Result for a call that either returns or throws. */
module Wrappers {

  datatype Option<+T> = None | Some(value: T)

  /** The exceptions that escape the segment service's operations. */
  datatype Error =
    | BadSegmentCondition                // BadSegmentConditionException thrown by setSegmentDefinition
    | NullParentCondition                // getGeneratedPropertyKey dereferencing a null parent condition
    | RetriesExhausted(profileId: string) // FailsafeException after the last retry of a profile update
    | ArithmeticError                    // the partition count's division by a zero bucket size

  datatype Result<+T> = Ok(value: T) | Err(error: Error)
}
