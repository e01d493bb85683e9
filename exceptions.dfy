/** The exceptions the call-dispatch core raises, or lets through unchanged. */
module Exceptions {

  datatype Failure =
    /** validateState: a previous `when(...)` was never given an answer. */
    | UnfinishedStubbing
    /** The matchers declared before a call do not fit its arguments. */
    | InvalidUseOfMatchers
    /** A stubbed answer does not fit the return type of the stubbed method. */
    | WrongTypeOfReturnValue
    /** The mock's default answer produced a value of the wrong type. */
    | WrongTypeReturnedByDefaultAnswer
    /** The check of a verification mode failed. */
    | VerificationFailure
    /** An exception thrown by an answer; it reaches the caller unchanged. */
    | Thrown(throwable: nat)
}
