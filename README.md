# Mockito call dispatch, modelled in Dafny

This project models how Mockito routes a call on a mock object. It covers two
classes:

- `MockHandlerImpl.handle`, the single entry point for every intercepted call.
- `InvocationContainerImpl`, the per-mock registry. It holds the stub records
  (newest first), the call history, the current candidate for stubbing and the
  doAnswer-style stage of answers that are declared before their method.

The thread's mocking progress is passed to the handler explicitly. It holds the
pending verification mode, the ongoing stubbing, the pending argument matchers
and the "stubbing in progress" flag.

The model has two layers.

- **Values.** Each operation is a function over an immutable state:
  - `Registry` models the container;
  - `Session` models the mocking progress and the verification modes;
  - `Dispatch.Handle` models one call of `handle` as a step function.

  The properties of each operation are proved about these functions.
- **Objects.** The classes update their fields in place, as the Java objects do:
  - `Stubbing.InvocationContainer` for the container;
  - `Progress.MockingProgress` for the mocking progress;
  - `Handler.MockHandler` for the handler.

  Each method ensures that its result and new state are exactly what the
  matching function gives from the old state. This holds for the loops too
  (`findAnswerFor`, `setMethodForStubbing`). The value-level lemmas therefore
  carry over to the objects.

Modules:

- `Wrappers`, `Exceptions`: the option and result types, and the kinds of
  failure. Failures are usage errors, a failed verification, and an exception
  thrown by an answer.
- `Invocations`: calls, argument matchers, matchable invocations, and
  `MatchersBinder.bindMatchers`.
- `Stubs`: answers and stub records (`StubbedInvocationMatcher`). A stub record
  keeps a chain of consecutive answers, and the last answer in the chain sticks.
- `Registry`, `Stubbing`: `InvocationContainerImpl`.
- `Session`, `Progress`: the mocking progress.
- `Dispatch`, `Handler`: `MockHandlerImpl`.

The collaborators that the core only calls are modelled by their observable
contract:

- **Invocation matching.** A matchable invocation accepts a call on the same
  mock with the same method whose arguments its matchers all accept.
- **Matcher binder.** With no pending matchers, every argument is matched by
  equality. Otherwise the number of matchers must equal the number of
  arguments.
- **Answer validation.** `ValidableAnswer.validateFor` and
  `DefaultAnswerValidator` are one predicate, `ReturnCompatible`. It relates a
  value to a coarse return kind: void, primitive or reference.
- **Verification modes.** `times(n)` and `atLeast(n)` count the matching calls
  in the history. Each is wrapped with the mock that `verify` was called on.
- **`DoAnswerStyleStubbing`.** A list of answers plus a strictness.
  `setAnswers` appends, `clear` empties. Its `isSet()` reports an empty stage,
  so `hasAnswersForStubbing` (which negates it) means "answers are staged".
- **`RegisteredInvocations.removeLast`.** Does nothing on an empty history.

## Model

| member | source | states |
|---|---|---|
| Registry.MockStrictness | src/main/java/org/mockito/internal/stubbing/InvocationContainerImpl.java:41 | the mock's strictness is LENIENT exactly when its settings say lenient, otherwise it is absent |
| Registry.Initial | src/main/java/org/mockito/internal/stubbing/InvocationContainerImpl.java:39-43 | a new container satisfies the registry invariant (every stub record has an answer) |
| Stubbing.InvocationContainer.constructor | src/main/java/org/mockito/internal/stubbing/InvocationContainerImpl.java:39-43 | a new container has no stubs, no history, no candidate, nothing staged, and the mock strictness from its settings |
| Registry.SetInvocationForPotentialStubbing | src/main/java/org/mockito/internal/stubbing/InvocationContainerImpl.java:45-48 | the call is appended to the history and becomes the candidate; nothing else changes |
| Stubbing.InvocationContainer.SetInvocationForPotentialStubbing | src/main/java/org/mockito/internal/stubbing/InvocationContainerImpl.java:45-48 | the container's new state is the registry operation applied to its old state |
| Registry.ResetInvocationForPotentialStubbing | src/main/java/org/mockito/internal/stubbing/InvocationContainerImpl.java:50-52 | only the candidate changes, to the given matcher |
| Stubbing.InvocationContainer.ResetInvocationForPotentialStubbing | src/main/java/org/mockito/internal/stubbing/InvocationContainerImpl.java:50-52 | the container's new state is the registry operation applied to its old state |
| Registry.RemoveLast | src/main/java/org/mockito/internal/stubbing/InvocationContainerImpl.java:56 | an empty history stays empty; otherwise the result plus the dropped newest call is the old history |
| Registry.AddAnswer | src/main/java/org/mockito/internal/stubbing/InvocationContainerImpl.java:67-94 | fails with a wrong-return-type error, changing nothing, exactly when the answer does not fit the candidate; otherwise a non-consecutive answer pushes a new front record keyed by the candidate, with the stubbing's strictness or else the mock's, and a consecutive answer extends the front record's chain; the front record is returned and the invariant is kept |
| Stubbing.InvocationContainer.AddAnswer | src/main/java/org/mockito/internal/stubbing/InvocationContainerImpl.java:67-94 | the new state and result are those of Registry.AddAnswer, and the progress is marked stubbing-completed before validation |
| Registry.AddStubbingAnswer | src/main/java/org/mockito/internal/stubbing/InvocationContainerImpl.java:54-58 | the newest call leaves the history; when the answer fits, a new front record keyed by the candidate is pushed, holding just that answer, with the stubbing's strictness or else the mock's, and not yet used; otherwise the records are unchanged and the error is a wrong return type; no other field changes |
| Stubbing.InvocationContainer.AddStubbingAnswer | src/main/java/org/mockito/internal/stubbing/InvocationContainerImpl.java:54-58 | the new state and result are those of Registry.AddStubbingAnswer; stubbing completed |
| Registry.StubbingDeclarationNotCounted | src/main/java/org/mockito/internal/stubbing/InvocationContainerImpl.java:45-58 | registering the call wrapped by when() and then answering it leaves the history as it was: a stubbing is not counted as a call |
| Registry.AddConsecutiveAnswer | src/main/java/org/mockito/internal/stubbing/InvocationContainerImpl.java:60-62 | a fitting answer is appended to the front record's chain and nothing else changes; an unfitting one changes nothing |
| Stubbing.InvocationContainer.AddConsecutiveAnswer | src/main/java/org/mockito/internal/stubbing/InvocationContainerImpl.java:60-62 | the new state and result are those of Registry.AddConsecutiveAnswer; stubbing completed |
| Registry.FirstMatch | src/main/java/org/mockito/internal/stubbing/InvocationContainerImpl.java:102-109 | the index found is the first (newest) record whose key matches the call, no earlier record matches, and none is found exactly when no record matches |
| Registry.FindAnswerFor | src/main/java/org/mockito/internal/stubbing/InvocationContainerImpl.java:100-113 | returns the newest matching record and marks only that record as used by the call; with no match the registry is unchanged |
| Stubbing.InvocationContainer.FindAnswerFor | src/main/java/org/mockito/internal/stubbing/InvocationContainerImpl.java:100-113 | the newest-first scan loop returns and marks exactly what Registry.FindAnswerFor says |
| Registry.RestubbingOverrides | src/main/java/org/mockito/internal/stubbing/InvocationContainerImpl.java:84-113 | after a new record is pushed, every call its key matches resolves to it, and every other call resolves to the same record as before, one position further back |
| Stubs.Respond | src/main/java/org/mockito/internal/handler/MockHandlerImpl.java:113 | a returning answer gives its value; a throwing answer's exception is passed on unchanged |
| Stubs.Consume | src/main/java/org/mockito/internal/stubbing/InvocationContainerImpl.java:73-83 | a record answers with the head of its chain, and the chain stays non-empty, keeping the last answer |
| Stubs.ConsecutiveAnswersStick | src/main/java/org/mockito/internal/stubbing/InvocationContainerImpl.java:73-83 | over any number of matching calls, call j gets answer min(j, n-1) of a chain of n answers: in order, then the last one repeats |
| Stubs.ThenReturnChainOfTwo | src/main/java/org/mockito/internal/stubbing/InvocationContainerImpl.java:78-82 | thenReturn(111).thenReturn(222) called three times answers 111, 222, 222 |
| Registry.AnswerFromStub | src/main/java/org/mockito/internal/stubbing/InvocationContainerImpl.java:97 | the record's current answer is the result and is consumed; the invariant is kept |
| Stubbing.InvocationContainer.AnswerFromStub | src/main/java/org/mockito/internal/stubbing/InvocationContainerImpl.java:97 | result and new state are those of Registry.AnswerFromStub |
| Registry.AnswerTo | src/main/java/org/mockito/internal/stubbing/InvocationContainerImpl.java:96-98 | the newest matching record's current answer is the result; that record alone is consumed and marked used |
| Stubbing.InvocationContainer.AnswerTo | src/main/java/org/mockito/internal/stubbing/InvocationContainerImpl.java:96-98 | result and new state are those of Registry.AnswerTo |
| Registry.SetAnswersForStubbing | src/main/java/org/mockito/internal/stubbing/InvocationContainerImpl.java:118-120 | the answers are appended to the stage and the staged strictness is replaced; nothing else changes |
| Stubbing.InvocationContainer.SetAnswersForStubbing | src/main/java/org/mockito/internal/stubbing/InvocationContainerImpl.java:118-120 | the new state is that of Registry.SetAnswersForStubbing |
| Stubbing.InvocationContainer.HasAnswersForStubbing | src/main/java/org/mockito/internal/stubbing/InvocationContainerImpl.java:122-124 | true exactly when answers are staged |
| Stubbing.InvocationContainer.HasInvocationForPotentialStubbing | src/main/java/org/mockito/internal/stubbing/InvocationContainerImpl.java:126-128 | true exactly when the history is not empty |
| Registry.ValidPrefix | src/main/java/org/mockito/internal/stubbing/InvocationContainerImpl.java:133-135 | the length of the longest prefix of staged answers that fit the call; the answer after it does not fit |
| Registry.StagedRecords | src/main/java/org/mockito/internal/stubbing/InvocationContainerImpl.java:133-135 | once i > 0 staged answers are added, one new, unused front record keyed by the call holds exactly those i answers, with the staged strictness or else the mock's, in front of the old records |
| Registry.StagedRecordsStep | src/main/java/org/mockito/internal/stubbing/InvocationContainerImpl.java:133-135 | one loop round: adding staged answer i (consecutive unless it is the first) extends that record by one answer, or fails and changes nothing |
| Registry.SetMethodForStubbing | src/main/java/org/mockito/internal/stubbing/InvocationContainerImpl.java:130-137 | the candidate becomes the call; it succeeds exactly when every staged answer fits, and then the stage becomes one new front record keyed by the call, with the staged strictness or else the mock's, and the stage and its strictness are cleared; on failure the error is a wrong return type, the answers before the first unfitting one are already committed as the front record, and the stage is kept; the history is untouched and the invariant kept |
| Stubbing.InvocationContainer.SetMethodForStubbing | src/main/java/org/mockito/internal/stubbing/InvocationContainerImpl.java:130-137 | the loop over the staged answers ends in the state and result of Registry.SetMethodForStubbing; the progress is stubbing-completed unless nothing was staged |
| Stubbing.InvocationContainer.GetInvocations | src/main/java/org/mockito/internal/stubbing/InvocationContainerImpl.java:144-146 | the whole call history, oldest first |
| Registry.ClearInvocations | src/main/java/org/mockito/internal/stubbing/InvocationContainerImpl.java:148-150 | the history becomes empty and nothing else changes |
| Stubbing.InvocationContainer.ClearInvocations | src/main/java/org/mockito/internal/stubbing/InvocationContainerImpl.java:148-150 | the new state is that of Registry.ClearInvocations |
| Stubbing.InvocationContainer.GetStubbingsDescending | src/main/java/org/mockito/internal/stubbing/InvocationContainerImpl.java:155-157 | the records with the most recent first |
| Registry.StubbingsAscending | src/main/java/org/mockito/internal/stubbing/InvocationContainerImpl.java:162-166 | element i is the record at position n-1-i of the descending list |
| Stubbing.InvocationContainer.GetStubbingsAscending | src/main/java/org/mockito/internal/stubbing/InvocationContainerImpl.java:162-166 | a reversed copy: element i is record n-1-i, most recent last |
| Registry.ReversedAt | src/main/java/org/mockito/internal/stubbing/InvocationContainerImpl.java:164 | reversal keeps the length and puts element n-1-i at position i |
| Registry.ReversedTwice | src/main/java/org/mockito/internal/stubbing/InvocationContainerImpl.java:164 | reversing twice gives the list back |
| Registry.AscendingReversesDescending | src/main/java/org/mockito/internal/stubbing/InvocationContainerImpl.java:155-166 | the ascending view is the reverse of the descending one, and conversely |
| Invocations.EqualityMatchers | src/main/java/org/mockito/internal/handler/MockHandlerImpl.java:66-69 | one equality matcher per argument, for that argument |
| Invocations.EqualityBindingMatchesExactly | src/main/java/org/mockito/internal/handler/MockHandlerImpl.java:66-69 | a call bound with equality matchers matches exactly the calls on its mock with its method and arguments |
| Invocations.BindMatchers | src/main/java/org/mockito/internal/handler/MockHandlerImpl.java:66-69 | binding succeeds exactly when no matchers are pending or there is one per argument, otherwise it is an invalid use of matchers; declared matchers are used as given, and with none the bound call matches exactly equal calls on the same mock |
| Session.OtherMocksNotCounted | src/main/java/org/mockito/internal/handler/MockHandlerImpl.java:82-83 | calls on other mocks never change the number of matching calls a verification counts |
| Session.Occurrences | src/main/java/org/mockito/internal/handler/MockHandlerImpl.java:82-83 | the number of matching calls in the history: at most its length, zero exactly when none matches, the length exactly when all match |
| Session.PullVerificationMode | src/main/java/org/mockito/internal/handler/MockHandlerImpl.java:64 | hands out the pending mode and leaves none pending |
| Progress.MockingProgress.PullVerificationMode | src/main/java/org/mockito/internal/handler/MockHandlerImpl.java:64 | result and new state are those of Session.PullVerificationMode |
| Session.PullMatchers | src/main/java/org/mockito/internal/handler/MockHandlerImpl.java:57-60 | hands out the pending matchers and clears them, so they apply to one call only |
| Progress.MockingProgress.PullMatchers | src/main/java/org/mockito/internal/handler/MockHandlerImpl.java:57-60 | result and new state are those of Session.PullMatchers |
| Session.ValidateState | src/main/java/org/mockito/internal/handler/MockHandlerImpl.java:70-74 | fails with an unfinished-stubbing error exactly when a stubbing is in progress, and clears the flag |
| Progress.MockingProgress.ValidateState | src/main/java/org/mockito/internal/handler/MockHandlerImpl.java:70-74 | result and new state are those of Session.ValidateState |
| Session.VerificationStarted | src/main/java/org/mockito/internal/handler/MockHandlerImpl.java:88 | the given mode becomes pending; nothing else changes |
| Progress.MockingProgress.VerificationStarted | src/main/java/org/mockito/internal/handler/MockHandlerImpl.java:88 | the new state is that of Session.VerificationStarted |
| Session.ReportOngoingStubbing | src/main/java/org/mockito/internal/handler/MockHandlerImpl.java:100 | the container's ongoing stubbing is published; nothing else changes |
| Progress.MockingProgress.ReportOngoingStubbing | src/main/java/org/mockito/internal/handler/MockHandlerImpl.java:100 | the new state is that of Session.ReportOngoingStubbing |
| Session.StubbingCompleted | src/main/java/org/mockito/internal/stubbing/InvocationContainerImpl.java:69 | only the stubbing-in-progress flag changes, to false |
| Progress.MockingProgress.StubbingCompleted | src/main/java/org/mockito/internal/stubbing/InvocationContainerImpl.java:69 | the new state is that of Session.StubbingCompleted |
| Session.StubbingStarted | src/main/java/org/mockito/internal/handler/MockHandlerImpl.java:70-74 | only the stubbing-in-progress flag changes, to true |
| Progress.MockingProgress.StubbingStarted | src/main/java/org/mockito/internal/handler/MockHandlerImpl.java:70-74 | the new state is that of Session.StubbingStarted |
| Progress.MockingProgress.constructor | src/main/java/org/mockito/internal/handler/MockHandlerImpl.java:64-74 | a new progress has nothing pending and no stubbing in progress |
| Handler.MockHandler.constructor | src/main/java/org/mockito/internal/handler/MockHandlerImpl.java:40-45 | the handler owns a fresh, empty container built from its settings |
| Dispatch.Handle | src/main/java/org/mockito/internal/handler/MockHandlerImpl.java:54-131 | one call keeps the registry invariant (every stub record has an answer) |
| Handler.MockHandler.Handle | src/main/java/org/mockito/internal/handler/MockHandlerImpl.java:54-131 | the result, the container's new state and the progress's new state are exactly those of Dispatch.Handle, and the container stays valid |
| Handler.MockHandler.HandleStaged | src/main/java/org/mockito/internal/handler/MockHandlerImpl.java:55-63 | the staged branch of handle agrees with Dispatch.Handle |
| Handler.MockHandler.HandleCall | src/main/java/org/mockito/internal/handler/MockHandlerImpl.java:94-130 | a normal call is registered and reported, then answered by the newest matching record or by the checked default answer, after which the candidate is reset |
| Dispatch.StagedAnswersCommitted | src/main/java/org/mockito/internal/handler/MockHandlerImpl.java:55-63 | with staged answers, the call only selects their method: they become one front record keyed by the bound call, the stage is cleared, null is returned, and the history and the pending verification are untouched |
| Dispatch.VerificationModeConsumed | src/main/java/org/mockito/internal/handler/MockHandlerImpl.java:64-90 | the pending verification mode is gone after the call unless the call is a normal call on another mock, in which case it is pending again |
| Dispatch.UnfinishedStubbingRejected | src/main/java/org/mockito/internal/handler/MockHandlerImpl.java:64-74 | an unfinished stubbing fails the next call with a usage error before any verification or stubbing work; the registry is untouched |
| Dispatch.VerificationOnSameMock | src/main/java/org/mockito/internal/handler/MockHandlerImpl.java:78-84 | verify(mock) then a call on that mock checks the mode against the history and returns null, or fails verification; the call is not recorded |
| Dispatch.PendingVerificationSurvivesOtherMock | src/main/java/org/mockito/internal/handler/MockHandlerImpl.java:78-90 | with one container per mock, a call on mock n between verify(m) and the call on m is recorded in n's container and does not consume the verification; the later call on m is the one verified, against m's own history, and m's container is unchanged |
| Dispatch.VerifyIgnoresOtherMockCall | src/main/java/org/mockito/internal/handler/MockHandlerImpl.java:78-90 | verify(mock1, times(1)) with no calls on mock1, then mock2.f(1), then mock1.f(1): the call on mock2 is recorded by mock2 and the verification fails |
| Dispatch.StubbingLeftUnfinished | src/main/java/org/mockito/internal/handler/MockHandlerImpl.java:70-74 | a stubbing started by when() and left without an answer fails the next call with a usage error, leaves the registry untouched and is no longer in progress |
| Dispatch.NormalCallRegistered | src/main/java/org/mockito/internal/handler/MockHandlerImpl.java:92-100 | a normal call is appended to the history, becomes the candidate, and this container's ongoing stubbing is reported |
| Dispatch.StubbedCallAnswered | src/main/java/org/mockito/internal/handler/MockHandlerImpl.java:104-118 | when a stub matches, the call is answered exactly as answerTo answers it, and is recorded |
| Dispatch.FrontStubAnswers | src/main/java/org/mockito/internal/handler/MockHandlerImpl.java:104-118 | a plain call that the newest record matches gets that record's current answer, the chain advances by one (the last answer stays), and the progress is clean for the next call |
| Dispatch.UnstubbedCallDefaults | src/main/java/org/mockito/internal/handler/MockHandlerImpl.java:119-130 | with no matching stub, the default answer decides the result, a value of the wrong type is a usage error, and the candidate is the bound call |
| Dispatch.DefaultAnswerReturns | src/main/java/org/mockito/internal/handler/MockHandlerImpl.java:119-130 | a fitting default answer is returned, and the call is recorded and is the candidate |
| Dispatch.WhenThenReturnChain | src/main/java/org/mockito/internal/stubbing/InvocationContainerImpl.java:54-94 | when(f(1)).thenReturn(111).thenReturn(222) on a fresh mock: the wrapped call gets the default answer and is recorded, thenReturn removes it from the history and pushes one record keyed by f(1), and the second thenReturn extends that record's chain |

## Left out

- Stub-only mock mode: the history retains only the newest call there. Only the default list-backed history is modelled.
- `invocation.markStubbed(new StubInfoImpl(s))` (the back-reference from the call to the matched stub) is not modelled. Only the record's own "used at" mark is kept.
- `notifyStubbedAnswerLookup` and the stubbing lookup listeners are not modelled. They observe the lookup and do not change the container.
- `captureArgumentsFrom` (argument captors) is not modelled.
- The `synchronized` blocks and concurrent callers are not modelled. The per-thread mocking progress is an explicit parameter instead of a thread-local.
- Stubbing.InvocationContainer.GetStubbingsDescending: returns a snapshot of the records as values. In Java it returns the live list of record objects, so a caller also sees stubs added and "used" marks set after the call. Aliasing and record identity are not modelled.
- `invokedMock`, `toString`, `getMockSettings` and serialization are not modelled.
- Invocation creation (`DefaultInvocationFactory`, locations, the real-method delegate): an invocation is a plain value.
- Answer validation by reflection is reduced to `ReturnCompatible` over three return kinds. Checked-exception validation of throwing answers is not modelled: every throwing answer is accepted.
- Custom `Answer` implementations are not modelled. An answer either returns a value or throws. Answers that call back into mocks, and the "finally" re-publication of the ongoing stubbing on exceptions thrown by such answers, are therefore not modelled.
- `MockingProgressImpl.validateState` also validates matcher state and the mock-creation listeners. Only the unfinished-stubbing check is modelled.
- The `OngoingStubbingImpl` reported to the progress is represented by the container object it wraps.
- Registry.AddAnswer, Registry.AddConsecutiveAnswer: require a candidate (and for consecutive answers a front record), where Java throws a NullPointerException or NoSuchElementException. These are programming errors that no caller in the core reaches.
- Registry.AnswerTo: requires a matching record, where Java dereferences null.
- Dispatch.Handle: a sequence of calls is stated call by call (each lemma describes one step from any state), not as one lemma by induction over a list of calls. Stubs.ConsecutiveAnswersStick states the answers that successive matching calls receive.
- Session.Verify: verification modes are reduced to counting matching calls (`times`, `atLeast`). Order-aware modes, timeouts and failure messages are not modelled.
