/**
 * InvocationContainerImpl as an object updated in place: the stub records,
 * the registered calls, the candidate for stubbing and the doAnswer-style
 * stage. Every method is proved against its operation in module Registry,
 * whose properties are proved there.
 */
module Stubbing {
  import opened Wrappers
  import opened Exceptions
  import opened Invocations
  import opened Stubs
  import Registry
  import Session
  import Progress

  class InvocationContainer {
    /** stub records, newest first */
    var stubbed: seq<Stub>
    /** the call history, oldest first */
    var registeredInvocations: seq<Invocation>
    var invocationForStubbing: Option<InvocationMatcher>
    /** doAnswer-style answers waiting for their method */
    var stagedAnswers: seq<Answer>
    var stagedStrictness: Option<Strictness>
    const mockStrictness: Option<Strictness>

    /** The fields of the container as one value. */
    ghost function Model(): Registry.State
      reads this
    {
      Registry.State(stubbed, registeredInvocations, invocationForStubbing, stagedAnswers, stagedStrictness, mockStrictness)
    }

    ghost predicate Valid()
      reads this
    {
      Registry.Valid(Model())
    }

    constructor (settings: Registry.MockSettings)
      ensures Model() == Registry.Initial(settings)
      ensures Valid()
    {
      stubbed := [];
      registeredInvocations := [];
      invocationForStubbing := None;
      stagedAnswers := [];
      stagedStrictness := None;
      mockStrictness := if settings.lenient then Some(Lenient) else None;
    }

    method SetInvocationForPotentialStubbing(m: InvocationMatcher)
      modifies this
      ensures Model() == Registry.SetInvocationForPotentialStubbing(old(Model()), m)
    {
      registeredInvocations := registeredInvocations + [m.invocation];
      invocationForStubbing := Some(m);
    }

    method ResetInvocationForPotentialStubbing(m: InvocationMatcher)
      modifies this
      ensures Model() == Registry.ResetInvocationForPotentialStubbing(old(Model()), m)
    {
      invocationForStubbing := Some(m);
    }

    /**
     * addAnswer(answer, isConsecutive, stubbingStrictness): the stubbing is
     * reported completed before the answer is validated.
     */
    method AddAnswer(answer: Answer, isConsecutive: bool, stubbingStrictness: Option<Strictness>,
                     progress: Progress.MockingProgress) returns (r: Result<Stub, Failure>)
      requires invocationForStubbing.Some?
      requires isConsecutive ==> stubbed != []
      modifies this, progress
      ensures (Model(), r) == Registry.AddAnswer(old(Model()), answer, isConsecutive, stubbingStrictness)
      ensures progress.Model() == Session.StubbingCompleted(old(progress.Model()))
    {
      var invocation := invocationForStubbing.value.invocation;
      progress.StubbingCompleted();
      if !ValidFor(answer, invocation) {
        return Err(WrongTypeOfReturnValue);
      }
      if isConsecutive {
        stubbed := [stubbed[0].(answers := stubbed[0].answers + [answer])] + stubbed[1..];
      } else {
        var effective := if stubbingStrictness.Some? then stubbingStrictness else mockStrictness;
        stubbed := [Stub(invocationForStubbing.value, [answer], effective, None)] + stubbed;
      }
      r := Ok(stubbed[0]);
    }

    /** addAnswer(answer, stubbingStrictness): the wrapped call leaves the history first. */
    method AddStubbingAnswer(answer: Answer, stubbingStrictness: Option<Strictness>,
                             progress: Progress.MockingProgress) returns (r: Result<Stub, Failure>)
      requires invocationForStubbing.Some?
      modifies this, progress
      ensures (Model(), r) == Registry.AddStubbingAnswer(old(Model()), answer, stubbingStrictness)
      ensures progress.Model() == Session.StubbingCompleted(old(progress.Model()))
    {
      if registeredInvocations != [] {
        registeredInvocations := registeredInvocations[..|registeredInvocations| - 1];
      }
      r := AddAnswer(answer, false, stubbingStrictness, progress);
    }

    method AddConsecutiveAnswer(answer: Answer, progress: Progress.MockingProgress) returns (r: Result<Stub, Failure>)
      requires invocationForStubbing.Some? && stubbed != []
      modifies this, progress
      ensures (Model(), r) == Registry.AddConsecutiveAnswer(old(Model()), answer)
      ensures progress.Model() == Session.StubbingCompleted(old(progress.Model()))
    {
      r := AddAnswer(answer, true, None, progress);
    }

    /** findAnswerFor: scans the records newest first and marks the first match used. */
    method FindAnswerFor(inv: Invocation) returns (found: Option<nat>)
      modifies this
      ensures (found, Model()) == Registry.FindAnswerFor(old(Model()), inv)
    {
      var i := 0;
      while i < |stubbed|
        invariant 0 <= i <= |stubbed|
        invariant Model() == old(Model())
        invariant forall j :: 0 <= j < i ==> !Matches(stubbed[j].key, inv)
      {
        if Matches(stubbed[i].key, inv) {
          stubbed := stubbed[i := stubbed[i].(usedAt := Some(inv))];
          return Some(i);
        }
        i := i + 1;
      }
      return None;
    }

    /** stubbing.answer(invocation) on the record at index i: its current answer, consumed. */
    method AnswerFromStub(i: nat) returns (r: Result<Value, Failure>)
      requires Valid() && i < |stubbed|
      modifies this
      ensures (r, Model()) == Registry.AnswerFromStub(old(Model()), i)
    {
      var record := stubbed[i];
      var rest := if |record.answers| == 1 then record.answers else record.answers[1..];
      stubbed := stubbed[i := record.(answers := rest)];
      r := Respond(record.answers[0]);
    }

    method AnswerTo(inv: Invocation) returns (r: Result<Value, Failure>)
      requires Valid() && Registry.FirstMatch(stubbed, inv).Some?
      modifies this
      ensures (r, Model()) == Registry.AnswerTo(old(Model()), inv)
    {
      var found := FindAnswerFor(inv);
      r := AnswerFromStub(found.value);
    }

    method SetAnswersForStubbing(answers: seq<Answer>, strictness: Option<Strictness>)
      modifies this
      ensures Model() == Registry.SetAnswersForStubbing(old(Model()), answers, strictness)
    {
      stagedAnswers := stagedAnswers + answers;
      stagedStrictness := strictness;
    }

    method HasAnswersForStubbing() returns (b: bool)
      ensures b <==> stagedAnswers != []
      ensures b == Registry.HasAnswersForStubbing(Model())
    {
      b := stagedAnswers != [];
    }

    method HasInvocationForPotentialStubbing() returns (b: bool)
      ensures b <==> registeredInvocations != []
      ensures b == Registry.HasInvocationForPotentialStubbing(Model())
    {
      b := registeredInvocations != [];
    }

    /**
     * setMethodForStubbing: the staged answers are added one by one to the
     * given call, the first as a new record and the rest as its consecutive
     * answers; the stage is cleared once all of them are added.
     */
    method SetMethodForStubbing(m: InvocationMatcher, progress: Progress.MockingProgress) returns (r: Result<(), Failure>)
      modifies this, progress
      ensures (Model(), r) == Registry.SetMethodForStubbing(old(Model()), m)
      ensures progress.Model() == if old(stagedAnswers) == [] then old(progress.Model())
                                  else Session.StubbingCompleted(old(progress.Model()))
    {
      ghost var s0 := old(Model());
      invocationForStubbing := Some(m);
      var answers := stagedAnswers;
      var strictness := stagedStrictness;
      ghost var k := Registry.ValidPrefix(answers, m.invocation);
      var i := 0;
      var failed := false;
      while i < |answers| && !failed
        invariant 0 <= i <= k
        invariant failed ==> i == k < |answers|
        invariant Model() == s0.(candidate := Some(m), stubbed := Registry.StagedRecords(s0, m, i))
        invariant progress.Model() == if i == 0 && !failed then old(progress.Model())
                                      else Session.StubbingCompleted(old(progress.Model()))
        decreases |answers| - i, !failed
      {
        Registry.StagedRecordsStep(s0, m, i);
        var added := AddAnswer(answers[i], i != 0, strictness, progress);
        if added.Err? {
          failed := true;
        } else {
          i := i + 1;
        }
      }
      if failed {
        r := Err(WrongTypeOfReturnValue);
      } else {
        stagedAnswers := [];
        stagedStrictness := None;
        r := Ok(());
      }
    }

    method GetInvocations() returns (r: seq<Invocation>)
      ensures r == Model().history
    {
      r := registeredInvocations;
    }

    method ClearInvocations()
      modifies this
      ensures Model() == Registry.ClearInvocations(old(Model()))
    {
      registeredInvocations := [];
    }

    method GetStubbingsDescending() returns (r: seq<Stub>)
      ensures r == Registry.StubbingsDescending(Model())
      ensures |r| > 0 ==> r[0] == stubbed[0]
    {
      r := stubbed;
    }

    /** getStubbingsAscending: a reversed copy of the records. */
    method GetStubbingsAscending() returns (r: seq<Stub>)
      ensures |r| == |stubbed|
      ensures forall i :: 0 <= i < |r| ==> r[i] == stubbed[|stubbed| - 1 - i]
      ensures r == Registry.StubbingsAscending(Model())
    {
      r := Registry.Reversed(stubbed);
      Registry.ReversedAt(stubbed);
    }
  }
}
