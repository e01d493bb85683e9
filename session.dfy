/**
 * The per-thread mocking progress as a value: the pending verification mode,
 * the ongoing stubbing, the pending argument matchers and whether a stubbing
 * was started and not completed. Also the verification modes checked against
 * a mock's call history.
 */
module Session {
  import opened Wrappers
  import opened Exceptions
  import opened Invocations

  /** How many matching calls a verification expects. */
  datatype VerificationPolicy = Times(wanted: nat) | AtLeast(minimum: nat)

  /** A verification mode that knows the mock `verify(mock)` was called on. */
  datatype VerificationMode = MockAwareVerificationMode(mock: MockId, policy: VerificationPolicy)

  /** The number of calls in a history that a matcher accepts. */
  function Occurrences(history: seq<Invocation>, wanted: InvocationMatcher): (n: nat)
    ensures n <= |history|
    ensures n == 0 <==> forall i :: 0 <= i < |history| ==> !Matches(wanted, history[i])
    ensures n == |history| <==> forall i :: 0 <= i < |history| ==> Matches(wanted, history[i])
  {
    if history == [] then 0
    else Occurrences(history[..|history| - 1], wanted) + (if Matches(wanted, history[|history| - 1]) then 1 else 0)
  }

  /** Calls on other mocks never count towards a verification of this one. */
  lemma {:induction false} OtherMocksNotCounted(history: seq<Invocation>, others: seq<Invocation>, wanted: InvocationMatcher)
    requires forall j :: 0 <= j < |others| ==> others[j].mock != wanted.invocation.mock
    ensures Occurrences(history + others, wanted) == Occurrences(history, wanted)
    decreases |others|
  {
    if others == [] {
      assert history + others == history;
    } else {
      var front := others[..|others| - 1];
      var all := history + others;
      assert all[..|all| - 1] == history + front;
      assert !Matches(wanted, all[|all| - 1]);
      OtherMocksNotCounted(history, front, wanted);
    }
  }

  /** verificationMode.verify(data): the check of a mode against the call history and the wanted call. */
  predicate Verify(mode: VerificationMode, history: seq<Invocation>, wanted: InvocationMatcher)
  {
    match mode.policy
    case Times(n) => Occurrences(history, wanted) == n
    case AtLeast(n) => Occurrences(history, wanted) >= n
  }

  datatype State = State(
    verificationMode: Option<VerificationMode>,
    ongoingStubbing: Option<object>,
    pendingMatchers: seq<ArgMatcher>,
    stubbingInProgress: bool)

  /** The progress of a thread that has not touched any mock yet. */
  function Initial(): State
  {
    State(None, None, [], false)
  }

  /** pullVerificationMode: hands out the pending mode and clears it. */
  function PullVerificationMode(s: State): (r: (Option<VerificationMode>, State))
    ensures r.0 == s.verificationMode
    ensures r.1.verificationMode == None
    ensures r.1 == s.(verificationMode := None)
  {
    (s.verificationMode, s.(verificationMode := None))
  }

  /** verificationStarted: makes a mode pending again. */
  function VerificationStarted(s: State, mode: VerificationMode): (r: State)
    ensures r.verificationMode == Some(mode)
    ensures r == s.(verificationMode := Some(mode))
  {
    s.(verificationMode := Some(mode))
  }

  /** reportOngoingStubbing: publishes the ongoing stubbing of a container. */
  function ReportOngoingStubbing(s: State, container: object): (r: State)
    ensures r.ongoingStubbing == Some(container)
    ensures r == s.(ongoingStubbing := Some(container))
  {
    s.(ongoingStubbing := Some(container))
  }

  /** Binding consumes the thread's pending matchers. */
  function PullMatchers(s: State): (r: (seq<ArgMatcher>, State))
    ensures r.0 == s.pendingMatchers
    ensures r.1 == s.(pendingMatchers := [])
  {
    (s.pendingMatchers, s.(pendingMatchers := []))
  }

  /** stubbingStarted: `when(...)` has begun a stubbing. */
  function StubbingStarted(s: State): (r: State)
    ensures r == s.(stubbingInProgress := true)
  {
    s.(stubbingInProgress := true)
  }

  /** stubbingCompleted: the stubbing received its answer. */
  function StubbingCompleted(s: State): (r: State)
    ensures r == s.(stubbingInProgress := false)
  {
    s.(stubbingInProgress := false)
  }

  /** validateState: an unfinished stubbing is reported once, and forgotten. */
  function ValidateState(s: State): (r: (Result<(), Failure>, State))
    ensures r.0.Err? <==> s.stubbingInProgress
    ensures r.0.Err? ==> r.0.error == UnfinishedStubbing
    ensures !r.1.stubbingInProgress
    ensures r.1 == s.(stubbingInProgress := false)
  {
    if s.stubbingInProgress then (Err(UnfinishedStubbing), s.(stubbingInProgress := false))
    else (Ok(()), s)
  }
}
