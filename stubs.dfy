/**
 * Answers and stub records (one stubbing declaration each): the key they match
 * calls against, their chain of consecutive answers, strictness and use.
 */
module Stubs {
  import opened Wrappers
  import opened Exceptions
  import opened Invocations

  datatype Strictness = Lenient | Warn | StrictStubs

  /** An answer: return a value, or throw. */
  datatype Answer = Returns(value: Value) | ThrowsException(throwable: nat)

  /** ValidableAnswer.validateFor: a returned value must fit the stubbed method. */
  predicate ValidFor(a: Answer, inv: Invocation)
  {
    match a
    case Returns(v) => ReturnCompatible(inv, v)
    case ThrowsException(_) => true
  }

  /** Running an answer: its value, or its exception passed on unchanged. */
  function Respond(a: Answer): (r: Result<Value, Failure>)
    ensures a.Returns? <==> r.Ok?
    ensures a.Returns? ==> r.value == a.value
    ensures a.ThrowsException? ==> r.error == Thrown(a.throwable)
  {
    match a
    case Returns(v) => Ok(v)
    case ThrowsException(t) => Err(Thrown(t))
  }

  /** A stub record (StubbedInvocationMatcher); `answers` is never empty while it is registered. */
  datatype Stub = Stub(key: InvocationMatcher, answers: seq<Answer>, strictness: Option<Strictness>, usedAt: Option<Invocation>)

  /**
   * Takes the current answer of a stub: the head of its chain, which is
   * dropped unless it is the last one, so that the last answer sticks.
   */
  function Consume(s: Stub): (r: (Answer, Stub))
    requires s.answers != []
    ensures r.0 == s.answers[0]
    ensures r.1.answers != []
    ensures r.1 == s.(answers := Remaining(s.answers))
  {
    (s.answers[0], s.(answers := Remaining(s.answers)))
  }

  /** The chain left after one matching call: the head is dropped unless it is the last answer. */
  function Remaining(answers: seq<Answer>): seq<Answer>
    requires answers != []
  {
    if |answers| == 1 then answers else answers[1..]
  }

  /** The answers handed out by `calls` successive matching calls to a record with this chain. */
  function AnswersOver(answers: seq<Answer>, calls: nat): seq<Answer>
    requires answers != []
    decreases calls
  {
    if calls == 0 then [] else [answers[0]] + AnswersOver(Remaining(answers), calls - 1)
  }

  function Min(a: int, b: int): int { if a <= b then a else b }

  /**
   * Consecutive answers are used in order, and the last one repeats once the
   * chain is exhausted: call j gets answer min(j, n - 1).
   */
  lemma {:induction false} ConsecutiveAnswersStick(answers: seq<Answer>, calls: nat)
    requires answers != []
    ensures |AnswersOver(answers, calls)| == calls
    ensures forall j :: 0 <= j < calls ==> AnswersOver(answers, calls)[j] == answers[Min(j, |answers| - 1)]
    decreases calls
  {
    if calls > 0 {
      var rest := Remaining(answers);
      ConsecutiveAnswersStick(rest, calls - 1);
      forall j | 0 <= j < calls
        ensures AnswersOver(answers, calls)[j] == answers[Min(j, |answers| - 1)]
      {
        if j > 0 {
          assert AnswersOver(answers, calls)[j] == AnswersOver(rest, calls - 1)[j - 1];
          if |answers| > 1 {
            assert rest[Min(j - 1, |rest| - 1)] == answers[Min(j, |answers| - 1)];
          }
        }
      }
    }
  }

  /** thenReturn(111).thenReturn(222), called three times: 111, 222, 222. */
  lemma ThenReturnChainOfTwo()
    ensures AnswersOver([Returns(IntValue(111)), Returns(IntValue(222))], 3)
            == [Returns(IntValue(111)), Returns(IntValue(222)), Returns(IntValue(222))]
  {
    var chain := [Returns(IntValue(111)), Returns(IntValue(222))];
    ConsecutiveAnswersStick(chain, 3);
  }
}
