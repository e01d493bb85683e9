/**
 * MockHandlerImpl.handle as a step function over the registry of the mock and
 * the mocking progress of the calling thread, with the branch order of the
 * handler: staged-answer completion, then verification, then a normal call
 * that is answered by a stub or by the default answer.
 */
module Dispatch {
  import opened Wrappers
  import opened Exceptions
  import opened Invocations
  import opened Stubs
  import Registry
  import Session

  /** What one call leaves behind: its result and the new registry and progress. */
  datatype Step = Step(result: Result<Value, Failure>, registry: Registry.State, session: Session.State)

  function Handle(reg: Registry.State, ses: Session.State, container: object,
                  settings: Registry.MockSettings, inv: Invocation): (r: Step)
    requires Registry.Valid(reg)
    ensures Registry.Valid(r.registry)
  {
    if Registry.HasAnswersForStubbing(reg) then
      // doAnswer-style stubbing: this call only selects the method
      var (pending, ses1) := Session.PullMatchers(ses);
      match BindMatchers(pending, inv)
      case Err(e) => Step(Err(e), reg, ses1)
      case Ok(bound) =>
        var (reg1, committed) := Registry.SetMethodForStubbing(reg, bound);
        var ses2 := Session.StubbingCompleted(ses1);
        Step(if committed.Err? then Err(committed.error) else Ok(Null), reg1, ses2)
    else
      var (mode, ses1) := Session.PullVerificationMode(ses);
      var (pending, ses2) := Session.PullMatchers(ses1);
      match BindMatchers(pending, inv)
      case Err(e) => Step(Err(e), reg, ses2)
      case Ok(bound) =>
        var (valid, ses3) := Session.ValidateState(ses2);
        if valid.Err? then Step(Err(valid.error), reg, ses3)
        else if mode.Some? && mode.value.mock == inv.mock then
          // verify(mock).method(...): check the history, record nothing
          var verified := Session.Verify(mode.value, reg.history, bound);
          Step(if verified then Ok(Null) else Err(VerificationFailure), reg, ses3)
        else
          // a call on another mock leaves the verification pending
          var ses4 := if mode.Some? then Session.VerificationStarted(ses3, mode.value) else ses3;
          var reg1 := Registry.SetInvocationForPotentialStubbing(reg, bound);
          var ses5 := Session.ReportOngoingStubbing(ses4, container);
          var (found, reg2) := Registry.FindAnswerFor(reg1, inv);
          match found
          case Some(i) =>
            var (res, reg3) := Registry.AnswerFromStub(reg2, i);
            Step(res, reg3, Session.ReportOngoingStubbing(ses5, container))
          case None =>
            var ret := Respond(settings.defaultAnswer(inv));
            if ret.Err? then Step(ret, reg2, ses5)
            else if !ReturnCompatible(inv, ret.value) then Step(Err(WrongTypeReturnedByDefaultAnswer), reg2, ses5)
            else Step(ret, Registry.ResetInvocationForPotentialStubbing(reg2, bound), ses5)
  }

  /** The matchable invocation the handler binds for a call, when binding succeeds. */
  function Bound(ses: Session.State, inv: Invocation): InvocationMatcher
    requires BindMatchers(ses.pendingMatchers, inv).Ok?
  {
    BindMatchers(ses.pendingMatchers, inv).value
  }

  /** A call that takes neither the staged-answer branch nor an error exit before verification. */
  predicate Admitted(reg: Registry.State, ses: Session.State, inv: Invocation)
  {
    && !Registry.HasAnswersForStubbing(reg)
    && BindMatchers(ses.pendingMatchers, inv).Ok?
    && !ses.stubbingInProgress
  }

  /** A call that is handled as a normal call, not as a verification. */
  predicate NormalCall(reg: Registry.State, ses: Session.State, inv: Invocation)
  {
    && Admitted(reg, ses, inv)
    && (ses.verificationMode.None? || ses.verificationMode.value.mock != inv.mock)
  }

  /**
   * With staged answers, the call only selects their method: they become one
   * new front record keyed by the bound call, the stage is cleared, the
   * candidate is the bound call and null is returned. The history, the pending
   * verification and the ongoing stubbing are untouched, no stub is consulted.
   */
  lemma StagedAnswersCommitted(reg: Registry.State, ses: Session.State, container: object,
                               settings: Registry.MockSettings, inv: Invocation)
    requires Registry.Valid(reg) && Registry.HasAnswersForStubbing(reg)
    requires BindMatchers(ses.pendingMatchers, inv).Ok?
    requires forall j :: 0 <= j < |reg.staged| ==> ValidFor(reg.staged[j], inv)
    ensures var r := Handle(reg, ses, container, settings, inv);
            && r.result == Ok(Null)
            && r.registry.stubbed == [Stub(Bound(ses, inv), reg.staged,
                                           if reg.stagedStrictness.Some? then reg.stagedStrictness else reg.mockStrictness,
                                           None)] + reg.stubbed
            && r.registry.staged == []
            && r.registry.candidate == Some(Bound(ses, inv))
            && r.registry.history == reg.history
            && r.session.verificationMode == ses.verificationMode
            && r.session.ongoingStubbing == ses.ongoingStubbing
            && r.session.pendingMatchers == []
            && !r.session.stubbingInProgress
  {
    var bound := Bound(ses, inv);
    var k := Registry.ValidPrefix(reg.staged, bound.invocation);
    assert k == |reg.staged|;
    assert reg.staged[..k] == reg.staged;
  }

  /**
   * Outside the staged branch the pending verification mode is pulled before
   * binding, so it is gone afterwards, unless the call was on another mock and
   * got past binding and validateState, in which case it is pending again.
   */
  lemma VerificationModeConsumed(reg: Registry.State, ses: Session.State, container: object,
                                 settings: Registry.MockSettings, inv: Invocation)
    requires Registry.Valid(reg) && !Registry.HasAnswersForStubbing(reg)
    ensures var r := Handle(reg, ses, container, settings, inv);
            r.session.verificationMode ==
              if NormalCall(reg, ses, inv) then ses.verificationMode else None
  {
  }

  /**
   * validateState runs before any verification or stubbing work: an unfinished
   * stubbing fails the call, the registry is untouched, and the pulled mode
   * is lost.
   */
  lemma UnfinishedStubbingRejected(reg: Registry.State, ses: Session.State, container: object,
                                   settings: Registry.MockSettings, inv: Invocation)
    requires Registry.Valid(reg) && !Registry.HasAnswersForStubbing(reg)
    requires BindMatchers(ses.pendingMatchers, inv).Ok? && ses.stubbingInProgress
    ensures var r := Handle(reg, ses, container, settings, inv);
            && r.result == Err(UnfinishedStubbing)
            && r.registry == reg
            && r.session == ses.(verificationMode := None, pendingMatchers := [], stubbingInProgress := false)
  {
  }

  /**
   * verify(mock) followed by a call on that mock checks the mode against the
   * history and the bound call and returns null; the call is not recorded and
   * no ongoing stubbing is reported.
   */
  lemma VerificationOnSameMock(reg: Registry.State, ses: Session.State, container: object,
                               settings: Registry.MockSettings, inv: Invocation)
    requires Registry.Valid(reg) && Admitted(reg, ses, inv)
    requires ses.verificationMode.Some? && ses.verificationMode.value.mock == inv.mock
    ensures var r := Handle(reg, ses, container, settings, inv);
            && r.result == (if Session.Verify(ses.verificationMode.value, reg.history, Bound(ses, inv))
                            then Ok(Null) else Err(VerificationFailure))
            && r.registry == reg
            && r.session.ongoingStubbing == ses.ongoingStubbing
            && r.session.verificationMode == None
  {
  }

  /**
   * A normal call is appended to the history and becomes the stubbing
   * candidate, and the ongoing stubbing of this container is reported; a
   * pending verification of another mock is pushed back unchanged.
   */
  lemma NormalCallRegistered(reg: Registry.State, ses: Session.State, container: object,
                             settings: Registry.MockSettings, inv: Invocation)
    requires Registry.Valid(reg) && NormalCall(reg, ses, inv)
    ensures var r := Handle(reg, ses, container, settings, inv);
            && r.registry.history == reg.history + [inv]
            && r.registry.candidate == Some(Bound(ses, inv))
            && r.session.ongoingStubbing == Some(container)
            && r.session.verificationMode == ses.verificationMode
            && r.session.pendingMatchers == []
            && !r.session.stubbingInProgress
            && r.registry.staged == reg.staged
  {
  }

  /**
   * When a stub matches, the call is answered as answerTo answers it: the
   * newest matching record's current answer is the result (an exception it
   * throws is passed on), that answer is consumed and the record marked used.
   * The call is recorded and the ongoing stubbing is reported.
   */
  lemma StubbedCallAnswered(reg: Registry.State, ses: Session.State, container: object,
                            settings: Registry.MockSettings, inv: Invocation)
    requires Registry.Valid(reg) && NormalCall(reg, ses, inv)
    requires Registry.FirstMatch(reg.stubbed, inv).Some?
    ensures var r := Handle(reg, ses, container, settings, inv);
            && r.result == Registry.AnswerTo(reg, inv).0
            && r.registry == Registry.AnswerTo(reg, inv).1.(history := reg.history + [inv], candidate := Some(Bound(ses, inv)))
            && r.session == ses.(pendingMatchers := [], ongoingStubbing := Some(container))
  {
  }

  /**
   * When no stub matches, the default answer decides the result; a value of
   * the wrong type is a usage error. On success the candidate is reset to the
   * bound call, so it equals the bound matcher on exit.
   */
  lemma UnstubbedCallDefaults(reg: Registry.State, ses: Session.State, container: object,
                              settings: Registry.MockSettings, inv: Invocation)
    requires Registry.Valid(reg) && NormalCall(reg, ses, inv)
    requires Registry.FirstMatch(reg.stubbed, inv).None?
    ensures var d := Respond(settings.defaultAnswer(inv));
            var r := Handle(reg, ses, container, settings, inv);
            && r.result == (if d.Ok? && !ReturnCompatible(inv, d.value) then Err(WrongTypeReturnedByDefaultAnswer) else d)
            && r.registry.stubbed == reg.stubbed
            && r.registry.candidate == Some(Bound(ses, inv))
            && r.session.ongoingStubbing == Some(container)
  {
  }

  /**
   * verify(m) followed by a call on another mock n, then by a call on m. Each
   * mock has its own handler and container. The call on n is a normal call,
   * recorded in n's container, and the pending verification survives it. The
   * call on m is the one verified, against m's own history, and m's container
   * is unchanged.
   */
  lemma PendingVerificationSurvivesOtherMock(regN: Registry.State, regM: Registry.State, ses: Session.State,
                                             containerN: object, containerM: object,
                                             settingsN: Registry.MockSettings, settingsM: Registry.MockSettings,
                                             other: Invocation, wanted: Invocation)
    requires Registry.Valid(regN) && Registry.Valid(regM)
    requires Admitted(regN, ses, other) && !Registry.HasAnswersForStubbing(regM)
    requires ses.verificationMode.Some?
    requires ses.verificationMode.value.mock != other.mock && ses.verificationMode.value.mock == wanted.mock
    ensures var r1 := Handle(regN, ses, containerN, settingsN, other);
            var r2 := Handle(regM, r1.session, containerM, settingsM, wanted);
            && r1.session.verificationMode == ses.verificationMode
            && r1.registry.history == regN.history + [other]
            && r2.result == (if Session.Verify(ses.verificationMode.value, regM.history,
                                               InvocationMatcher(wanted, EqualityMatchers(wanted.args)))
                             then Ok(Null) else Err(VerificationFailure))
            && r2.registry == regM
            && r2.session.verificationMode == None
  {
    NormalCallRegistered(regN, ses, containerN, settingsN, other);
    var r1 := Handle(regN, ses, containerN, settingsN, other);
    assert Admitted(regM, r1.session, wanted);
    VerificationOnSameMock(regM, r1.session, containerM, settingsM, wanted);
  }

  /**
   * when(mock.f()) started a stubbing that never received its answer: the
   * next call on any mock fails with a usage error before it is recorded or
   * answered, and the stubbing is no longer in progress afterwards.
   */
  lemma StubbingLeftUnfinished(reg: Registry.State, ses: Session.State, container: object,
                               settings: Registry.MockSettings, inv: Invocation)
    requires Registry.Valid(reg) && !Registry.HasAnswersForStubbing(reg)
    requires BindMatchers(ses.pendingMatchers, inv).Ok?
    ensures var r := Handle(reg, Session.StubbingStarted(ses), container, settings, inv);
            && r.result == Err(UnfinishedStubbing)
            && r.registry == reg
            && !r.session.stubbingInProgress
  {
    UnfinishedStubbingRejected(reg, Session.StubbingStarted(ses), container, settings, inv);
  }

  /** A normal call that no stub matches and whose default answer fits: the whole next state. */
  lemma DefaultAnswerReturns(reg: Registry.State, ses: Session.State, container: object,
                             settings: Registry.MockSettings, inv: Invocation)
    requires Registry.Valid(reg) && NormalCall(reg, ses, inv)
    requires Registry.FirstMatch(reg.stubbed, inv).None?
    requires settings.defaultAnswer(inv).Returns? && ReturnCompatible(inv, settings.defaultAnswer(inv).value)
    ensures var r := Handle(reg, ses, container, settings, inv);
            && r.result == Ok(settings.defaultAnswer(inv).value)
            && r.registry == reg.(history := reg.history + [inv], candidate := Some(Bound(ses, inv)))
            && r.session == ses.(pendingMatchers := [], ongoingStubbing := Some(container))
  {
  }

  /** f(arg) on mock 1, where f returns a primitive; `n` is the sequence number. */
  function CallF(arg: int, n: nat): Invocation
  {
    Invocation(1, MethodDescriptor(0, PrimitiveReturn), [IntValue(arg)], n)
  }

  /** Settings of a strict mock whose default answer returns 0. */
  function ReturnsZero(): Registry.MockSettings
  {
    Registry.MockSettings(false, (i: Invocation) => Returns(IntValue(0)))
  }

  /** The matchable invocation bound for f(arg) with no matchers declared. */
  function BoundF(arg: int, n: nat): InvocationMatcher
  {
    InvocationMatcher(CallF(arg, n), [Equals(IntValue(arg))])
  }

  /** The progress of the test thread once the mock has reported its ongoing stubbing. */
  function Reported(container: object): Session.State
  {
    Session.Initial().(ongoingStubbing := Some(container))
  }

  /** A registry of the mock holding one record for f(1): its chain, its last use, history and candidate. */
  function StubbedF1(answers: seq<Answer>, usedAt: Option<Invocation>, history: seq<Invocation>,
                     candidate: InvocationMatcher): Registry.State
  {
    Registry.Initial(ReturnsZero()).(stubbed := [Stub(BoundF(1, 0), answers, None, usedAt)],
                                     history := history, candidate := Some(candidate))
  }

  /**
   * when(mock.f(1)).thenReturn(111).thenReturn(222) on a fresh mock: the
   * wrapped call gets the default answer and is recorded; thenReturn removes
   * it from the history and pushes a record keyed by f(1); the second
   * thenReturn extends that record's chain instead of adding one.
   */
  lemma WhenThenReturnChain(container: object)
    ensures Handle(Registry.Initial(ReturnsZero()), Session.Initial(), container, ReturnsZero(), CallF(1, 0))
            == Step(Ok(IntValue(0)),
                    Registry.Initial(ReturnsZero()).(history := [CallF(1, 0)], candidate := Some(BoundF(1, 0))),
                    Reported(container))
    ensures Registry.AddStubbingAnswer(Registry.Initial(ReturnsZero()).(history := [CallF(1, 0)], candidate := Some(BoundF(1, 0))),
                                       Returns(IntValue(111)), None)
            == (StubbedF1([Returns(IntValue(111))], None, [], BoundF(1, 0)),
                Ok(Stub(BoundF(1, 0), [Returns(IntValue(111))], None, None)))
    ensures Registry.AddConsecutiveAnswer(StubbedF1([Returns(IntValue(111))], None, [], BoundF(1, 0)), Returns(IntValue(222)))
            == (StubbedF1([Returns(IntValue(111)), Returns(IntValue(222))], None, [], BoundF(1, 0)),
                Ok(Stub(BoundF(1, 0), [Returns(IntValue(111)), Returns(IntValue(222))], None, None)))
  {
    var settings := ReturnsZero();
    var key := BindMatchers([], CallF(1, 0)).value;
    assert key.matchers == [Equals(IntValue(1))];
    DefaultAnswerReturns(Registry.Initial(settings), Session.Initial(), container, settings, CallF(1, 0));
    var reg1 := Registry.Initial(settings).(history := [CallF(1, 0)], candidate := Some(BoundF(1, 0)));
    assert Registry.RemoveLast(reg1.history) == [];
    assert Registry.Initial(settings).mockStrictness == None;
    assert ValidFor(Returns(IntValue(111)), CallF(1, 0));
    assert ValidFor(Returns(IntValue(222)), CallF(1, 0));
    var st := Stub(BoundF(1, 0), [Returns(IntValue(111))], None, None);
    var a1 := Registry.AddAnswer(reg1.(history := []), Returns(IntValue(111)), false, None);
    assert a1.1 == Ok(st);
    assert a1.0 == reg1.(history := [], stubbed := [st]);
    assert reg1.(history := [], stubbed := [st]) == StubbedF1([Returns(IntValue(111))], None, [], BoundF(1, 0));
    var chain := [Returns(IntValue(111))] + [Returns(IntValue(222))];
    assert chain == [Returns(IntValue(111)), Returns(IntValue(222))];
    var reg2 := StubbedF1([Returns(IntValue(111))], None, [], BoundF(1, 0));
    var st2 := st.(answers := chain);
    var a2 := Registry.AddAnswer(reg2, Returns(IntValue(222)), true, None);
    assert a2.1 == Ok(st2);
    assert a2.0 == reg2.(stubbed := [st2]);
  }

  /**
   * verify(mock1, times(1)) with no calls on mock1 so far, then mock2.f(1),
   * then mock1.f(1): the call on mock2 is recorded by mock2 alone, so the
   * verification of mock1.f(1) fails.
   */
  lemma VerifyIgnoresOtherMockCall(container1: object, container2: object)
    ensures var ses := Session.Initial().(verificationMode := Some(Session.MockAwareVerificationMode(1, Session.Times(1))));
            var r1 := Handle(Registry.Initial(ReturnsZero()), ses, container2, ReturnsZero(), CallF(1, 0).(mock := 2));
            var r2 := Handle(Registry.Initial(ReturnsZero()), r1.session, container1, ReturnsZero(), CallF(1, 1));
            && r1.registry.history == [CallF(1, 0).(mock := 2)]
            && r2.result == Err(VerificationFailure)
  {
    var ses := Session.Initial().(verificationMode := Some(Session.MockAwareVerificationMode(1, Session.Times(1))));
    var reg := Registry.Initial(ReturnsZero());
    PendingVerificationSurvivesOtherMock(reg, reg, ses, container2, container1, ReturnsZero(), ReturnsZero(),
                                         CallF(1, 0).(mock := 2), CallF(1, 1));
  }

  /**
   * A plain call that the newest record matches, with nothing pending in the
   * progress: that record's current answer is the result, its chain moves on
   * by one (the last answer stays), the call is recorded, and the progress is
   * clean again for the next call.
   */
  lemma FrontStubAnswers(reg: Registry.State, ses: Session.State, container: object,
                         settings: Registry.MockSettings, inv: Invocation)
    requires Registry.Valid(reg) && reg.stubbed != [] && !Registry.HasAnswersForStubbing(reg)
    requires ses.pendingMatchers == [] && !ses.stubbingInProgress && ses.verificationMode.None?
    requires Matches(reg.stubbed[0].key, inv)
    ensures var r := Handle(reg, ses, container, settings, inv);
            && r.result == Respond(reg.stubbed[0].answers[0])
            && r.registry.stubbed != []
            && r.registry.stubbed[0].key == reg.stubbed[0].key
            && r.registry.stubbed[0].answers == Remaining(reg.stubbed[0].answers)
            && !Registry.HasAnswersForStubbing(r.registry)
            && r.registry.history == reg.history + [inv]
            && r.session.pendingMatchers == [] && !r.session.stubbingInProgress
            && r.session.verificationMode.None?
  {
    NormalCallRegistered(reg, ses, container, settings, inv);
    StubbedCallAnswered(reg, ses, container, settings, inv);
  }
}
