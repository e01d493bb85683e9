/**
 * The stubbing registry of one mock (InvocationContainerImpl) as a value, with
 * one function per operation. The class Stubbing.InvocationContainer is proved
 * against these functions.
 */
module Registry {
  import opened Wrappers
  import opened Exceptions
  import opened Invocations
  import opened Stubs

  /** The creation settings of a mock that this core reads. */
  datatype MockSettings = MockSettings(lenient: bool, defaultAnswer: Invocation -> Answer)

  datatype State = State(
    /** stub records, newest first */
    stubbed: seq<Stub>,
    /** registeredInvocations: the call history, oldest first */
    history: seq<Invocation>,
    /** invocationForStubbing: the current candidate for stubbing */
    candidate: Option<InvocationMatcher>,
    /** the doAnswer-style stage: answers declared before their method */
    staged: seq<Answer>,
    stagedStrictness: Option<Strictness>,
    mockStrictness: Option<Strictness>)

  /** Every registered stub record has at least one answer. */
  ghost predicate Valid(s: State)
  {
    forall i :: 0 <= i < |s.stubbed| ==> s.stubbed[i].answers != []
  }

  /** The strictness of the mock: LENIENT exactly when the settings say lenient, otherwise none. */
  function MockStrictness(settings: MockSettings): (r: Option<Strictness>)
    ensures r == Some(Lenient) <==> settings.lenient
    ensures r.None? <==> !settings.lenient
  {
    if settings.lenient then Some(Lenient) else None
  }

  /** A fresh container: nothing stubbed, nothing called, nothing staged. */
  function Initial(settings: MockSettings): (s: State)
    ensures Valid(s)
  {
    State([], [], None, [], None, MockStrictness(settings))
  }

  /** setInvocationForPotentialStubbing: records the call and makes it the candidate. */
  function SetInvocationForPotentialStubbing(s: State, m: InvocationMatcher): (r: State)
    ensures r.history == s.history + [m.invocation]
    ensures r.candidate == Some(m)
    ensures r == s.(history := r.history, candidate := r.candidate)
  {
    s.(history := s.history + [m.invocation], candidate := Some(m))
  }

  /** resetInvocationForPotentialStubbing: only the candidate changes. */
  function ResetInvocationForPotentialStubbing(s: State, m: InvocationMatcher): (r: State)
    ensures r.candidate == Some(m)
    ensures r == s.(candidate := r.candidate)
  {
    s.(candidate := Some(m))
  }

  /** registeredInvocations.removeLast: drops the newest call, if any. */
  function RemoveLast(history: seq<Invocation>): (r: seq<Invocation>)
    ensures history == [] ==> r == []
    ensures history != [] ==> r + [history[|history| - 1]] == history
  {
    if history == [] then [] else history[..|history| - 1]
  }

  /**
   * addAnswer(answer, isConsecutive, stubbingStrictness). The answer is first
   * validated against the candidate. A non-consecutive answer becomes a new
   * record in front, keyed by the candidate, with the stubbing's strictness or
   * else the mock's; a consecutive one is appended to the front record. The
   * record now in front is returned.
   */
  function AddAnswer(s: State, answer: Answer, isConsecutive: bool, stubbingStrictness: Option<Strictness>): (r: (State, Result<Stub, Failure>))
    requires s.candidate.Some?
    requires isConsecutive ==> s.stubbed != []
    ensures r.1.Err? <==> !ValidFor(answer, s.candidate.value.invocation)
    ensures r.1.Err? ==> r.1.error == WrongTypeOfReturnValue && r.0 == s
    ensures r.1.Ok? ==> r.0.stubbed != [] && r.1.value == r.0.stubbed[0]
    ensures r.0 == s.(stubbed := r.0.stubbed)
    ensures Valid(s) ==> Valid(r.0)
    ensures r.1.Ok? && !isConsecutive ==>
              && r.0.stubbed[1..] == s.stubbed
              && r.1.value.key == s.candidate.value
              && r.1.value.answers == [answer]
              && r.1.value.strictness == (if stubbingStrictness.Some? then stubbingStrictness else s.mockStrictness)
              && r.1.value.usedAt == None
    ensures r.1.Ok? && isConsecutive ==>
              && |r.0.stubbed| == |s.stubbed|
              && r.0.stubbed[1..] == s.stubbed[1..]
              && r.1.value == s.stubbed[0].(answers := s.stubbed[0].answers + [answer])
  {
    if !ValidFor(answer, s.candidate.value.invocation) then
      (s, Err(WrongTypeOfReturnValue))
    else if isConsecutive then
      var first := s.stubbed[0].(answers := s.stubbed[0].answers + [answer]);
      (s.(stubbed := [first] + s.stubbed[1..]), Ok(first))
    else
      var effective := if stubbingStrictness.Some? then stubbingStrictness else s.mockStrictness;
      var added := Stub(s.candidate.value, [answer], effective, None);
      (s.(stubbed := [added] + s.stubbed), Ok(added))
  }

  /**
   * addAnswer(answer, stubbingStrictness): the call that `when(...)` wrapped is
   * removed from the history first, so a stubbing is not counted as a call.
   */
  function AddStubbingAnswer(s: State, answer: Answer, stubbingStrictness: Option<Strictness>): (r: (State, Result<Stub, Failure>))
    requires s.candidate.Some?
    ensures r.0.history == RemoveLast(s.history)
    ensures r.0.candidate == s.candidate && r.0.staged == s.staged
    ensures Valid(s) ==> Valid(r.0)
    ensures r.1.Ok? <==> ValidFor(answer, s.candidate.value.invocation)
    ensures r.0 == s.(history := RemoveLast(s.history), stubbed := r.0.stubbed)
    ensures r.1.Ok? ==> r.0.stubbed == [r.1.value] + s.stubbed && r.1.value.key == s.candidate.value
    ensures r.1.Ok? ==>
              && r.1.value.answers == [answer]
              && r.1.value.strictness == (if stubbingStrictness.Some? then stubbingStrictness else s.mockStrictness)
              && r.1.value.usedAt == None
    ensures r.1.Err? ==> r.1.error == WrongTypeOfReturnValue && r.0.stubbed == s.stubbed
  {
    AddAnswer(s.(history := RemoveLast(s.history)), answer, false, stubbingStrictness)
  }

  /** addConsecutiveAnswer: one more answer at the end of the front record's chain. */
  function AddConsecutiveAnswer(s: State, answer: Answer): (r: (State, Result<Stub, Failure>))
    requires s.candidate.Some? && s.stubbed != []
    ensures r.0 == s.(stubbed := r.0.stubbed)
    ensures Valid(s) ==> Valid(r.0)
    ensures r.1.Ok? <==> ValidFor(answer, s.candidate.value.invocation)
    ensures r.1.Ok? ==> r.0.stubbed == [s.stubbed[0].(answers := s.stubbed[0].answers + [answer])] + s.stubbed[1..]
    ensures r.1.Err? ==> r.0 == s
  {
    AddAnswer(s, answer, true, None)
  }

  /** The index of the newest stub whose key matches the call, if any. */
  function FirstMatch(stubs: seq<Stub>, inv: Invocation): (r: Option<nat>)
    ensures r.Some? ==> r.value < |stubs| && Matches(stubs[r.value].key, inv)
    ensures r.Some? ==> forall j :: 0 <= j < r.value ==> !Matches(stubs[j].key, inv)
    ensures r.None? <==> forall j :: 0 <= j < |stubs| ==> !Matches(stubs[j].key, inv)
  {
    if stubs == [] then None
    else if Matches(stubs[0].key, inv) then Some(0)
    else
      match FirstMatch(stubs[1..], inv)
      case None => None
      case Some(i) => Some(i + 1)
  }

  /**
   * findAnswerFor: the newest matching record is marked used by the call and
   * its index returned; the registry is unchanged when nothing matches.
   */
  function FindAnswerFor(s: State, inv: Invocation): (r: (Option<nat>, State))
    ensures r.0 == FirstMatch(s.stubbed, inv)
    ensures r.0.None? ==> r.1 == s
    ensures r.0.Some? ==> r.1 == s.(stubbed := s.stubbed[r.0.value := s.stubbed[r.0.value].(usedAt := Some(inv))])
    ensures Valid(s) ==> Valid(r.1)
  {
    match FirstMatch(s.stubbed, inv)
    case None => (None, s)
    case Some(i) => (Some(i), s.(stubbed := s.stubbed[i := s.stubbed[i].(usedAt := Some(inv))]))
  }

  /** stubbing.answer(invocation): the record's current answer, consumed. */
  function AnswerFromStub(s: State, i: nat): (r: (Result<Value, Failure>, State))
    requires Valid(s) && i < |s.stubbed|
    ensures r.0 == Respond(s.stubbed[i].answers[0])
    ensures r.1 == s.(stubbed := s.stubbed[i := Consume(s.stubbed[i]).1])
    ensures Valid(r.1)
  {
    var (a, rest) := Consume(s.stubbed[i]);
    (Respond(a), s.(stubbed := s.stubbed[i := rest]))
  }

  /** answerTo: answers the call with the newest matching record. */
  function AnswerTo(s: State, inv: Invocation): (r: (Result<Value, Failure>, State))
    requires Valid(s) && FirstMatch(s.stubbed, inv).Some?
    ensures r.0 == Respond(s.stubbed[FirstMatch(s.stubbed, inv).value].answers[0])
    ensures var i := FirstMatch(s.stubbed, inv).value;
            r.1 == s.(stubbed := s.stubbed[i := Consume(s.stubbed[i]).1.(usedAt := Some(inv))])
    ensures Valid(r.1)
  {
    var (found, s1) := FindAnswerFor(s, inv);
    AnswerFromStub(s1, found.value)
  }

  /** setAnswersForStubbing: stages doAnswer-style answers. */
  function SetAnswersForStubbing(s: State, answers: seq<Answer>, strictness: Option<Strictness>): (r: State)
    ensures r.staged == s.staged + answers && r.stagedStrictness == strictness
    ensures r == s.(staged := r.staged, stagedStrictness := r.stagedStrictness)
  {
    s.(staged := s.staged + answers, stagedStrictness := strictness)
  }

  /** hasAnswersForStubbing: answers are staged. */
  predicate HasAnswersForStubbing(s: State)
  {
    s.staged != []
  }

  /** hasInvocationForPotentialStubbing: some call is in the history. */
  predicate HasInvocationForPotentialStubbing(s: State)
  {
    s.history != []
  }

  /** The number of answers, from the front, that are valid for the call. */
  function ValidPrefix(answers: seq<Answer>, inv: Invocation): (k: nat)
    ensures k <= |answers|
    ensures forall j :: 0 <= j < k ==> ValidFor(answers[j], inv)
    ensures k < |answers| ==> !ValidFor(answers[k], inv)
  {
    if answers == [] || !ValidFor(answers[0], inv) then 0
    else 1 + ValidPrefix(answers[1..], inv)
  }

  /** The strictness a doAnswer-style record gets: the staged one, else the mock's. */
  function StagedEffectiveStrictness(s: State): Option<Strictness>
  {
    if s.stagedStrictness.Some? then s.stagedStrictness else s.mockStrictness
  }

  /** The records once the first i staged answers are added for the call m. */
  function StagedRecords(s: State, m: InvocationMatcher, i: nat): (r: seq<Stub>)
    requires i <= |s.staged|
    ensures i == 0 ==> r == s.stubbed
    ensures i > 0 ==> |r| == |s.stubbed| + 1 && r[0].key == m && r[0].answers == s.staged[..i] && r[1..] == s.stubbed
    ensures i > 0 ==> r[0].strictness == StagedEffectiveStrictness(s) && r[0].usedAt == None
  {
    if i == 0 then s.stubbed else [Stub(m, s.staged[..i], StagedEffectiveStrictness(s), None)] + s.stubbed
  }

  /**
   * One round of the setMethodForStubbing loop: with the first i staged
   * answers added, adding answer i (consecutive unless it is the first)
   * extends the same record by that answer, or fails and changes nothing.
   */
  lemma StagedRecordsStep(s: State, m: InvocationMatcher, i: nat)
    requires i < |s.staged|
    ensures var t := s.(candidate := Some(m), stubbed := StagedRecords(s, m, i));
            var r := AddAnswer(t, s.staged[i], i != 0, s.stagedStrictness);
            && (ValidFor(s.staged[i], m.invocation) ==> r == (t.(stubbed := StagedRecords(s, m, i + 1)), Ok(StagedRecords(s, m, i + 1)[0])))
            && (!ValidFor(s.staged[i], m.invocation) ==> r == (t, Err(WrongTypeOfReturnValue)))
  {
    if i > 0 {
      assert s.staged[..i + 1] == s.staged[..i] + [s.staged[i]];
    } else {
      assert s.staged[..1] == [s.staged[0]];
    }
  }

  /**
   * setMethodForStubbing: the candidate becomes the given call, and the staged
   * answers are added as one new front record (the first non-consecutive, the
   * rest consecutive) and the stage is cleared. An answer that fails
   * validation stops the commit: the answers before it are already added, the
   * stage is kept.
   */
  function SetMethodForStubbing(s: State, m: InvocationMatcher): (r: (State, Result<(), Failure>))
    ensures r.0.candidate == Some(m) && r.0.history == s.history
    ensures Valid(s) ==> Valid(r.0)
    ensures r.1.Ok? <==> forall j :: 0 <= j < |s.staged| ==> ValidFor(s.staged[j], m.invocation)
    ensures r.1.Err? ==> r.1.error == WrongTypeOfReturnValue && r.0.staged == s.staged
    ensures r.1.Err? ==> r.0 == s.(candidate := Some(m), stubbed := StagedRecords(s, m, ValidPrefix(s.staged, m.invocation)))
    ensures r.1.Ok? ==> r.0.staged == [] && !HasAnswersForStubbing(r.0)
    ensures r.1.Ok? ==> r.0 == s.(candidate := Some(m), stubbed := r.0.stubbed, staged := [], stagedStrictness := None)
    ensures r.1.Ok? && s.staged != [] ==>
              && |r.0.stubbed| == |s.stubbed| + 1
              && r.0.stubbed[1..] == s.stubbed
              && r.0.stubbed[0] == Stub(m, s.staged, StagedEffectiveStrictness(s), None)
    ensures r.1.Ok? && s.staged == [] ==> r.0.stubbed == s.stubbed
  {
    var k := ValidPrefix(s.staged, m.invocation);
    var stubbed := StagedRecords(s, m, k);
    if k < |s.staged| then
      (s.(candidate := Some(m), stubbed := stubbed), Err(WrongTypeOfReturnValue))
    else
      (s.(candidate := Some(m), stubbed := stubbed, staged := [], stagedStrictness := None), Ok(()))
  }

  /** clearInvocations: empties the history. */
  function ClearInvocations(s: State): (r: State)
    ensures r.history == [] && r == s.(history := [])
  {
    s.(history := [])
  }

  /** A sequence in reverse order. */
  function Reversed<T>(xs: seq<T>): (r: seq<T>)
  {
    if xs == [] then [] else [xs[|xs| - 1]] + Reversed(xs[..|xs| - 1])
  }

  lemma {:induction false} ReversedAt<T>(xs: seq<T>)
    ensures |Reversed(xs)| == |xs|
    ensures forall i :: 0 <= i < |xs| ==> Reversed(xs)[i] == xs[|xs| - 1 - i]
  {
    if xs != [] {
      ReversedAt(xs[..|xs| - 1]);
    }
  }

  /** getStubbingsDescending: the records, most recent first. */
  function StubbingsDescending(s: State): seq<Stub>
  {
    s.stubbed
  }

  /** getStubbingsAscending: the records, most recent last. */
  function StubbingsAscending(s: State): (r: seq<Stub>)
    ensures |r| == |s.stubbed|
    ensures forall i :: 0 <= i < |r| ==> r[i] == s.stubbed[|s.stubbed| - 1 - i]
  {
    ReversedAt(s.stubbed);
    Reversed(s.stubbed)
  }

  /**
   * Re-stubbing overrides without removing: after a new record is pushed, every
   * call its key matches resolves to it, and every other call resolves to the
   * same record as before (one position further back).
   */
  lemma {:induction false} RestubbingOverrides(s: State, answer: Answer, strictness: Option<Strictness>, inv: Invocation)
    requires s.candidate.Some? && ValidFor(answer, s.candidate.value.invocation)
    ensures var r := AddAnswer(s, answer, false, strictness).0;
            && (Matches(s.candidate.value, inv) ==> FirstMatch(r.stubbed, inv) == Some(0))
            && (!Matches(s.candidate.value, inv) ==>
                  FirstMatch(r.stubbed, inv) == match FirstMatch(s.stubbed, inv)
                                                case None => None
                                                case Some(i) => Some(i + 1))
  {
    var r := AddAnswer(s, answer, false, strictness).0;
    assert r.stubbed[1..] == s.stubbed;
  }

  /**
   * A stubbing declaration is not counted as a call: registering the wrapped
   * call and then answering it leaves the history as it was.
   */
  lemma StubbingDeclarationNotCounted(s: State, m: InvocationMatcher, answer: Answer, strictness: Option<Strictness>)
    ensures AddStubbingAnswer(SetInvocationForPotentialStubbing(s, m), answer, strictness).0.history == s.history
  {
    var h := s.history + [m.invocation];
    assert h[..|h| - 1] == s.history;
  }

  /** Reversing twice gives the sequence back. */
  lemma {:induction false} ReversedTwice<T>(xs: seq<T>)
    ensures Reversed(Reversed(xs)) == xs
  {
    ReversedAt(xs);
    ReversedAt(Reversed(xs));
  }

  /** The ascending view is the exact reverse of the descending one, and conversely. */
  lemma AscendingReversesDescending(s: State)
    ensures StubbingsAscending(s) == Reversed(StubbingsDescending(s))
    ensures Reversed(StubbingsAscending(s)) == StubbingsDescending(s)
  {
    ReversedTwice(s.stubbed);
  }
}
