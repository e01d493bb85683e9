/**
 * Invocations of mock methods, argument matchers, and the binding of the
 * matchers declared on the calling thread to one invocation.
 */
module Invocations {
  import opened Wrappers
  import opened Exceptions

  /** Identity of a mock object (the target of the weak reference held by an invocation). */
  type MockId = nat

  /** Values passed to and returned from mock methods. */
  datatype Value = Null | IntValue(i: int) | Ref(id: nat)

  /** The shape of a method's declared return type, as far as answer validation needs it. */
  datatype ReturnType = VoidReturn | PrimitiveReturn | ReferenceReturn

  /** A method descriptor: compared by equality when a stub is matched. */
  datatype MethodDescriptor = MethodDescriptor(name: nat, returnType: ReturnType)

  /** One intercepted call: mock, method, arguments and its global sequence number. */
  datatype Invocation = Invocation(mock: MockId, calledMethod: MethodDescriptor, args: seq<Value>, sequenceNumber: nat)

  /**
   * Whether a value may be returned from the invoked method. This stands for the
   * reflective return-type checks of the answer validators.
   */
  predicate ReturnCompatible(inv: Invocation, v: Value)
  {
    match inv.calledMethod.returnType
    case VoidReturn => v.Null?
    case PrimitiveReturn => v.IntValue?
    case ReferenceReturn => !v.IntValue?
  }

  /** A per-argument matcher. */
  datatype ArgMatcher = Equals(expected: Value) | AnyArg | OneOf(accepted: set<Value>)

  predicate Accepts(m: ArgMatcher, v: Value)
  {
    match m
    case Equals(e) => v == e
    case AnyArg => true
    case OneOf(vs) => v in vs
  }

  /** A matchable invocation: an invocation with one matcher per argument position. */
  datatype InvocationMatcher = InvocationMatcher(invocation: Invocation, matchers: seq<ArgMatcher>)

  /**
   * The candidate call is on the matcher's mock, has its method, and every
   * argument is accepted by its matcher.
   */
  predicate Matches(m: InvocationMatcher, candidate: Invocation)
  {
    && m.invocation.mock == candidate.mock
    && m.invocation.calledMethod == candidate.calledMethod
    && |m.matchers| == |candidate.args|
    && forall i :: 0 <= i < |candidate.args| ==> Accepts(m.matchers[i], candidate.args[i])
  }

  /** The matchers used when none were declared: literal equality with each argument. */
  function EqualityMatchers(args: seq<Value>): (ms: seq<ArgMatcher>)
    ensures |ms| == |args|
    ensures forall i :: 0 <= i < |args| ==> ms[i] == Equals(args[i])
  {
    seq(|args|, i requires 0 <= i < |args| => Equals(args[i]))
  }

  /** An invocation bound with equality matchers matches exactly the calls on its mock with its method and arguments. */
  lemma EqualityBindingMatchesExactly(inv: Invocation)
    ensures forall c :: Matches(InvocationMatcher(inv, EqualityMatchers(inv.args)), c)
                        <==> c.mock == inv.mock && c.calledMethod == inv.calledMethod && c.args == inv.args
  {
    var m := InvocationMatcher(inv, EqualityMatchers(inv.args));
    forall c | Matches(m, c)
      ensures c.args == inv.args
    {
      assert forall i :: 0 <= i < |c.args| ==> c.args[i] == inv.args[i];
    }
  }

  /**
   * Binds the pending matchers to an invocation. With no pending matchers every
   * argument is compared by equality; otherwise there must be exactly one matcher
   * per argument.
   */
  function BindMatchers(pending: seq<ArgMatcher>, inv: Invocation): (r: Result<InvocationMatcher, Failure>)
    ensures r.Ok? <==> pending == [] || |pending| == |inv.args|
    ensures r.Err? ==> r.error == InvalidUseOfMatchers
    ensures r.Ok? ==> r.value.invocation == inv && |r.value.matchers| == |inv.args|
    ensures r.Ok? && pending != [] ==> r.value.matchers == pending
    ensures r.Ok? && pending == [] ==>
              forall c :: Matches(r.value, c) <==> c.mock == inv.mock && c.calledMethod == inv.calledMethod && c.args == inv.args
  {
    if pending == [] then
      EqualityBindingMatchesExactly(inv);
      Ok(InvocationMatcher(inv, EqualityMatchers(inv.args)))
    else if |pending| == |inv.args| then
      Ok(InvocationMatcher(inv, pending))
    else
      Err(InvalidUseOfMatchers)
  }
}
