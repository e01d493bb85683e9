/**
 * The mocking progress of the test thread, as the object the handler and the
 * container update in place. Each method is proved against its operation in
 * module Session.
 */
module Progress {
  import opened Wrappers
  import opened Exceptions
  import opened Invocations
  import Session

  class MockingProgress {
    var verificationMode: Option<Session.VerificationMode>
    var ongoingStubbing: Option<object>
    /** the argument matchers declared for the next call */
    var pendingMatchers: seq<ArgMatcher>
    var stubbingInProgress: bool

    /** The fields of the progress as one value. */
    ghost function Model(): Session.State
      reads this
    {
      Session.State(verificationMode, ongoingStubbing, pendingMatchers, stubbingInProgress)
    }

    constructor ()
      ensures Model() == Session.Initial()
    {
      verificationMode := None;
      ongoingStubbing := None;
      pendingMatchers := [];
      stubbingInProgress := false;
    }

    method PullVerificationMode() returns (mode: Option<Session.VerificationMode>)
      modifies this
      ensures (mode, Model()) == Session.PullVerificationMode(old(Model()))
    {
      mode := verificationMode;
      verificationMode := None;
    }

    method VerificationStarted(mode: Session.VerificationMode)
      modifies this
      ensures Model() == Session.VerificationStarted(old(Model()), mode)
    {
      verificationMode := Some(mode);
    }

    method ReportOngoingStubbing(container: object)
      modifies this
      ensures Model() == Session.ReportOngoingStubbing(old(Model()), container)
    {
      ongoingStubbing := Some(container);
    }

    /** getArgumentMatcherStorage, as the binder uses it: the pending matchers, handed out once. */
    method PullMatchers() returns (pending: seq<ArgMatcher>)
      modifies this
      ensures (pending, Model()) == Session.PullMatchers(old(Model()))
    {
      pending := pendingMatchers;
      pendingMatchers := [];
    }

    method StubbingStarted()
      modifies this
      ensures Model() == Session.StubbingStarted(old(Model()))
    {
      stubbingInProgress := true;
    }

    method StubbingCompleted()
      modifies this
      ensures Model() == Session.StubbingCompleted(old(Model()))
    {
      stubbingInProgress := false;
    }

    method ValidateState() returns (r: Result<(), Failure>)
      modifies this
      ensures (r, Model()) == Session.ValidateState(old(Model()))
    {
      if stubbingInProgress {
        stubbingInProgress := false;
        return Err(UnfinishedStubbing);
      }
      return Ok(());
    }
  }
}
