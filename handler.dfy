/**
 * MockHandlerImpl: the object every call on a mock is routed to. Its handle
 * method updates the mock's container and the thread's mocking progress in
 * place, and is proved to do exactly what the step function Dispatch.Handle
 * describes.
 */
module Handler {
  import opened Wrappers
  import opened Exceptions
  import opened Invocations
  import opened Stubs
  import Registry
  import Session
  import Dispatch
  import Progress
  import Stubbing

  class MockHandler {
    const settings: Registry.MockSettings
    const invocationContainer: Stubbing.InvocationContainer

    constructor (settings: Registry.MockSettings)
      ensures this.settings == settings
      ensures fresh(invocationContainer)
      ensures invocationContainer.Model() == Registry.Initial(settings)
      ensures invocationContainer.Valid()
    {
      this.settings := settings;
      invocationContainer := new Stubbing.InvocationContainer(settings);
    }

    /**
     * handle(invocation): the result of the call, with the container and the
     * progress left as the step function says. The ongoing stubbing reported
     * to the progress is represented by the container it wraps.
     */
    method Handle(inv: Invocation, progress: Progress.MockingProgress) returns (r: Result<Value, Failure>)
      requires invocationContainer.Valid()
      modifies invocationContainer, progress
      ensures invocationContainer.Valid()
      ensures var step := Dispatch.Handle(old(invocationContainer.Model()), old(progress.Model()),
                                          invocationContainer, settings, inv);
              && r == step.result
              && invocationContainer.Model() == step.registry
              && progress.Model() == step.session
    {
      var staged := invocationContainer.HasAnswersForStubbing();
      if staged {
        // stubbing voids with doThrow() or doAnswer() style
        r := HandleStaged(inv, progress);
        return;
      }
      var verificationMode := progress.PullVerificationMode();
      var pending := progress.PullMatchers();
      var bound := BindMatchers(pending, inv);
      if bound.Err? {
        return Err(bound.error);
      }
      var valid := progress.ValidateState();
      if valid.Err? {
        return Err(valid.error);
      }
      if verificationMode.Some? {
        if verificationMode.value.mock == inv.mock {
          // verify(mock).method(...): checked against the calls made so far
          var history := invocationContainer.GetInvocations();
          if Session.Verify(verificationMode.value, history, bound.value) {
            return Ok(Null);
          }
          return Err(VerificationFailure);
        }
        // a call on a different mock: the verification stays pending
        progress.VerificationStarted(verificationMode.value);
      }
      r := HandleCall(inv, bound.value, progress);
    }

    /** The doAnswer-style branch: the call selects the method the staged answers are for. */
    method HandleStaged(inv: Invocation, progress: Progress.MockingProgress) returns (r: Result<Value, Failure>)
      requires invocationContainer.Valid() && Registry.HasAnswersForStubbing(invocationContainer.Model())
      modifies invocationContainer, progress
      ensures invocationContainer.Valid()
      ensures var step := Dispatch.Handle(old(invocationContainer.Model()), old(progress.Model()),
                                          invocationContainer, settings, inv);
              && r == step.result
              && invocationContainer.Model() == step.registry
              && progress.Model() == step.session
    {
      var pending := progress.PullMatchers();
      var bound := BindMatchers(pending, inv);
      if bound.Err? {
        return Err(bound.error);
      }
      var committed := invocationContainer.SetMethodForStubbing(bound.value, progress);
      r := if committed.Err? then Err(committed.error) else Ok(Null);
    }

    /**
     * A call that is neither a stubbing of staged answers nor a verification:
     * it is registered as the candidate for stubbing, then answered by the
     * newest matching stub or by the default answer.
     */
    method HandleCall(inv: Invocation, bound: InvocationMatcher, progress: Progress.MockingProgress)
      returns (r: Result<Value, Failure>)
      requires invocationContainer.Valid()
      modifies invocationContainer, progress
      ensures invocationContainer.Valid()
      ensures var reg1 := Registry.SetInvocationForPotentialStubbing(old(invocationContainer.Model()), bound);
              var ses1 := Session.ReportOngoingStubbing(old(progress.Model()), invocationContainer);
              var (found, reg2) := Registry.FindAnswerFor(reg1, inv);
              match found
              case Some(i) =>
                && (r, invocationContainer.Model()) == Registry.AnswerFromStub(reg2, i)
                && progress.Model() == ses1
              case None =>
                var ret := Respond(settings.defaultAnswer(inv));
                && progress.Model() == ses1
                && r == (if ret.Ok? && !ReturnCompatible(inv, ret.value) then Err(WrongTypeReturnedByDefaultAnswer) else ret)
                && invocationContainer.Model() == (if ret.Ok? && ReturnCompatible(inv, ret.value)
                                                   then Registry.ResetInvocationForPotentialStubbing(reg2, bound) else reg2)
    {
      invocationContainer.SetInvocationForPotentialStubbing(bound);
      progress.ReportOngoingStubbing(invocationContainer);
      var stubbing := invocationContainer.FindAnswerFor(inv);
      if stubbing.Some? {
        r := invocationContainer.AnswerFromStub(stubbing.value);
        progress.ReportOngoingStubbing(invocationContainer);
      } else {
        r := Respond(settings.defaultAnswer(inv));
        if r.Err? {
          return;
        }
        if !ReturnCompatible(inv, r.value) {
          return Err(WrongTypeReturnedByDefaultAnswer);
        }
        invocationContainer.ResetInvocationForPotentialStubbing(bound);
      }
    }
  }
}
