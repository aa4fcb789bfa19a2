/**
 * `jsUnity.run`: the per-test setUp / test / tearDown retry loop and the result counters
 * (js/common/modules/jsunity/jsunity.js). Which calls throw is a parameter: a test or
 * fixture function is known by its identity, and `Calls` says what calling it with an
 * argument throws, if anything.
 */
module JsUnityRun {
  import opened Wrappers
  import opened JsUnityHash
  import opened JsUnitySuite
  import JsUnityText

  /** A thrown value. An error carries `String(ex.stack)` (the text "undefined" for a thrown
      value without a stack; a thrown string is first wrapped in an Error, which has one)
      and whether it is an ArangoError with a cluster or lock timeout code, which makes the
      loop skip the rest of the test. `Nullish` is a thrown `null` or `undefined`: reading
      its `stack` in a `catch` block raises a TypeError that no handler of `run` catches. */
  datatype Fault = Fault(stack: string, timeout: bool) | Nullish

  /** What calling function `f` with argument `arg` throws; None when it returns. */
  type Calls = (FuncId, JsValue) -> Option<Fault>

  datatype Stage = SetUp | Body | TearDown

  /** What each of the three calls of one test throws. */
  datatype TestBehaviour = TestBehaviour(setUp: Option<Fault>, body: Option<Fault>, tearDown: Option<Fault>)

  /** What the call of a stage throws. */
  function FaultOf(b: TestBehaviour, s: Stage): Option<Fault> {
    match s
    case SetUp => b.setUp
    case Body => b.body
    case TearDown => b.tearDown
  }

  predicate IsNullish(f: Option<Fault>) {
    f.Some? && f.value.Nullish?
  }

  /** The loop's local variables, the calls made so far, and whether a TypeError escaped
      the `catch` block, which ends the loop and `run` with it. */
  datatype LoopState = LoopState(
    didSetUp: bool,
    didTest: bool,
    skipTest: bool,
    didTearDown: bool,
    messages: seq<string>,
    calls: seq<Stage>,
    escaped: bool)

  const Start: LoopState := LoopState(false, false, false, false, [], [], false)

  datatype Attempted = Completed(st: LoopState) | Threw(st: LoopState, fault: Fault)

  /** One pass through the `try` block: each stage not yet done runs unless the test is
      skipped, and the first that throws ends the pass. */
  function Attempt(b: TestBehaviour, st: LoopState): Attempted {
    if !st.didSetUp && !st.skipTest && b.setUp.Some? then
      Threw(st.(calls := st.calls + [SetUp]), b.setUp.value)
    else
      var s1 := if !st.didSetUp && !st.skipTest then st.(didSetUp := true, calls := st.calls + [SetUp]) else st;
      if !s1.didTest && !s1.skipTest && b.body.Some? then
        Threw(s1.(calls := s1.calls + [Body]), b.body.value)
      else
        var s2 := if !s1.didTest && !s1.skipTest then s1.(didTest := true, calls := s1.calls + [Body]) else s1;
        if !s2.didTearDown && !s2.skipTest && b.tearDown.Some? then
          Threw(s2.(calls := s2.calls + [TearDown]), b.tearDown.value)
        else
          Completed(if !s2.didTearDown && !s2.skipTest then s2.(didTearDown := true, calls := s2.calls + [TearDown]) else s2)
  }

  /** The message recorded for an error: the reduced stack and which stage is blamed. */
  function Report(f: Fault, stage: string): string
    requires f.Fault?
  {
    JsUnityText.ReduceStack(f.stack) + " - " + stage + " failed"
  }

  /** The `catch` block. A nullish value escapes it. Otherwise a timeout sets skipTest, and
      the failure is blamed on the first stage not yet done (the test only if it is not
      skipped), which is marked done. */
  function Catch(st: LoopState, f: Fault): LoopState {
    match f
    case Nullish => st.(escaped := true)
    case Fault(_, timeout) =>
      var skip := st.skipTest || timeout;
      if !st.didSetUp then
        st.(didSetUp := true, skipTest := true, messages := st.messages + [Report(f, "setUp")])
      else if !st.didTest && !skip then
        st.(didTest := true, skipTest := skip, messages := st.messages + [Report(f, "test")])
      else if !st.didTearDown then
        st.(didTearDown := true, skipTest := skip, messages := st.messages + [Report(f, "tearDown")])
      else
        st.(skipTest := skip)
  }

  /** The flags only become true in stage order. */
  predicate LoopInv(st: LoopState) {
    && (st.didTest ==> st.didSetUp)
    && (st.skipTest ==> st.didSetUp)
    && (st.didTearDown ==> st.didSetUp && (st.didTest || st.skipTest))
  }

  /** Stages still to go. */
  function Rank(st: LoopState): nat {
    (if st.didSetUp then 0 else 1)
    + (if st.didTest || st.skipTest then 0 else 1)
    + (if st.didTearDown || st.skipTest then 0 else 1)
  }

  /** A pass that throws an error is always caught by one of the three branches, so the
      loop keeps its invariant and comes closer to the end. */
  lemma AttemptProgress(b: TestBehaviour, st: LoopState)
    requires LoopInv(st)
    ensures Attempt(b, st).Threw? && Attempt(b, st).fault.Fault? ==>
      LoopInv(Catch(Attempt(b, st).st, Attempt(b, st).fault)) && Rank(Catch(Attempt(b, st).st, Attempt(b, st).fault)) < Rank(st)
    ensures Attempt(b, st).Completed? ==> LoopInv(Attempt(b, st).st)
  {
  }

  /** The `while (1)` loop: it ends with `break` once a pass completes, or when a TypeError
      escapes the `catch` block. */
  function RunLoop(b: TestBehaviour, st: LoopState): LoopState
    requires LoopInv(st)
    decreases Rank(st)
  {
    match Attempt(b, st)
    case Completed(s) => s
    case Threw(s, f) =>
      if f.Nullish? then Catch(s, f)
      else
        AttemptProgress(b, st);
        RunLoop(b, Catch(s, f))
  }

  /** One test, from fresh flags. */
  function RunTest(b: TestBehaviour): LoopState {
    RunLoop(b, Start)
  }

  /** `messages.length === 0` at the `break`: the test is reported as passed. */
  predicate Passed(st: LoopState) {
    !st.escaped && st.messages == []
  }

  /** A stage's call throws a value that stops the test: a nullish value or a timeout. */
  predicate Stops(f: Option<Fault>) {
    f.Some? && (f.value.Nullish? || f.value.timeout)
  }

  /** Reference table of the calls a test makes: setUp alone when it throws; no tearDown
      when the body throws a timeout or a nullish value; otherwise all three. */
  function ExpectedCalls(b: TestBehaviour): seq<Stage> {
    if b.setUp.Some? then [SetUp]
    else if Stops(b.body) then [SetUp, Body]
    else [SetUp, Body, TearDown]
  }

  /** The message an error thrown by a call records, under the given label. */
  function Logged(f: Option<Fault>, stage: string): seq<string> {
    if f.Some? && f.value.Fault? then [Report(f.value, stage)] else []
  }

  /** Reference table of the messages a test records. */
  function ExpectedMessages(b: TestBehaviour): seq<string> {
    if b.setUp.Some? then Logged(b.setUp, "setUp")
    else if Stops(b.body) then Logged(b.body, "tearDown")
    else Logged(b.body, "test") + Logged(b.tearDown, "tearDown")
  }

  /** Reference table of when a TypeError escapes: the last call made threw a nullish value. */
  predicate ExpectedEscaped(b: TestBehaviour) {
    if b.setUp.Some? then IsNullish(b.setUp)
    else if Stops(b.body) then IsNullish(b.body)
    else IsNullish(b.tearDown)
  }

  /** The loop agrees with the table for every combination of faults. */
  lemma RunTestMatchesTable(b: TestBehaviour)
    ensures RunTest(b).calls == ExpectedCalls(b)
    ensures RunTest(b).messages == ExpectedMessages(b)
    ensures RunTest(b).escaped == ExpectedEscaped(b)
  {
    var s0 := Start;
    if b.setUp.Some? {
      var s1 := Catch(Attempt(b, s0).st, b.setUp.value);
      if b.setUp.value.Nullish? {
        assert RunTest(b) == s1;
      } else {
        assert RunTest(b) == RunLoop(b, s1);
        assert Attempt(b, s1).Completed?;
      }
    } else if b.body.Some? {
      var s1 := Catch(Attempt(b, s0).st, b.body.value);
      if b.body.value.Nullish? {
        assert RunTest(b) == s1;
      } else {
        assert RunTest(b) == RunLoop(b, s1);
        if b.body.value.timeout {
          assert Attempt(b, s1).Completed?;
        } else if b.tearDown.Some? {
          var s2 := Catch(Attempt(b, s1).st, b.tearDown.value);
          if b.tearDown.value.Nullish? {
            assert RunLoop(b, s1) == s2;
          } else {
            assert RunLoop(b, s1) == RunLoop(b, s2);
            assert Attempt(b, s2).Completed?;
          }
        } else {
          assert Attempt(b, s1).Completed?;
        }
      }
    } else if b.tearDown.Some? {
      var s1 := Catch(Attempt(b, s0).st, b.tearDown.value);
      if b.tearDown.value.Nullish? {
        assert RunTest(b) == s1;
      } else {
        assert RunTest(b) == RunLoop(b, s1);
        assert Attempt(b, s1).Completed?;
      }
    }
  }

  /** A TypeError escapes exactly when one of the calls the test made threw a nullish value,
      and then it is the last call made. */
  lemma EscapesIffNullishThrown(b: TestBehaviour)
    ensures RunTest(b).escaped <==> exists s :: s in RunTest(b).calls && IsNullish(FaultOf(b, s))
    ensures RunTest(b).escaped ==> IsNullish(FaultOf(b, RunTest(b).calls[|RunTest(b).calls| - 1]))
  {
    RunTestMatchesTable(b);
    var calls := RunTest(b).calls;
    if b.setUp.Some? {
      assert calls == [SetUp] && FaultOf(b, calls[0]) == b.setUp;
    } else if Stops(b.body) {
      assert calls == [SetUp, Body] && FaultOf(b, calls[1]) == b.body;
      assert !IsNullish(FaultOf(b, calls[0]));
    } else {
      assert calls == [SetUp, Body, TearDown] && FaultOf(b, calls[2]) == b.tearDown;
      assert !IsNullish(FaultOf(b, calls[0])) && !IsNullish(FaultOf(b, calls[1]));
    }
  }

  /** If setUp throws, neither the body nor tearDown runs. An error fails the test with
      "setUp failed"; a nullish value escapes. */
  lemma SetUpFailureSkipsTest(b: TestBehaviour)
    requires b.setUp.Some?
    ensures RunTest(b).calls == [SetUp]
    ensures b.setUp.value.Fault? ==> RunTest(b).messages == [Report(b.setUp.value, "setUp")]
    ensures RunTest(b).escaped <==> b.setUp.value.Nullish?
    ensures !Passed(RunTest(b))
  {
    RunTestMatchesTable(b);
  }

  /** If the body throws an error other than a timeout, tearDown still runs and the test
      fails with "test failed" first. */
  lemma BodyFailureStillTearsDown(b: TestBehaviour)
    requires b.setUp.None? && b.body.Some? && b.body.value.Fault? && !b.body.value.timeout
    ensures RunTest(b).calls == [SetUp, Body, TearDown]
    ensures |RunTest(b).messages| >= 1 && RunTest(b).messages[0] == Report(b.body.value, "test")
    ensures !Passed(RunTest(b))
  {
    RunTestMatchesTable(b);
  }

  /** A timeout in the body skips tearDown, and the failure is recorded under the
      "tearDown failed" label. */
  lemma BodyTimeoutSkipsTearDown(b: TestBehaviour)
    requires b.setUp.None? && b.body.Some? && b.body.value.Fault? && b.body.value.timeout
    ensures RunTest(b).calls == [SetUp, Body]
    ensures RunTest(b).messages == [Report(b.body.value, "tearDown")]
    ensures !RunTest(b).escaped
  {
    RunTestMatchesTable(b);
  }

  /** A test passes exactly when none of its three calls throws. */
  lemma PassedIffNoFault(b: TestBehaviour)
    ensures Passed(RunTest(b)) <==> b.setUp.None? && b.body.None? && b.tearDown.None?
  {
    RunTestMatchesTable(b);
  }

  /** Every stage runs at most once, in stage order, and setUp always runs. */
  lemma StagesRunOnceInOrder(b: TestBehaviour)
    ensures 1 <= |RunTest(b).calls| <= 3
    ensures RunTest(b).calls == [SetUp, Body, TearDown][..|RunTest(b).calls|]
    ensures |RunTest(b).messages| <= 2
  {
    RunTestMatchesTable(b);
  }

  /** A fixture the suite does not define is the empty function, which never throws. */
  function FixtureFault(fixture: Option<FuncId>, arg: JsValue, calls: Calls): (r: Option<Fault>)
    ensures fixture.None? ==> r.None?
  {
    match fixture
    case None => None
    case Some(f) => calls(f, arg)
  }

  /** setUp, the test function and tearDown are each called with the test's name. */
  function BehaviourOf(suite: TestSuite, t: TestCase, calls: Calls): TestBehaviour {
    TestBehaviour(
      FixtureFault(suite.setUp, Str(t.name), calls),
      calls(t.fn, Str(t.name)),
      FixtureFault(suite.tearDown, Str(t.name), calls))
  }

  /** What `run` is given: a compiled suite, a plain object, or a value `compile` rejects
      (anything that is not a function, array, object, string or suite). */
  datatype SuiteArg = Compiled(suite: TestSuite) | ObjectArg(props: seq<Prop>) | Invalid

  function Compile(arg: SuiteArg): (r: Option<TestSuite>)
    ensures r.None? <==> arg.Invalid?
    ensures arg.ObjectArg? ==> r == Some(ParseSuiteObject(arg.props))
    ensures arg.Compiled? ==> r == Some(arg.suite)
  {
    match arg
    case Compiled(s) => Some(s)
    case ObjectArg(props) => Some(ParseSuiteObject(props))
    case Invalid => None
  }

  /** Observable calls, per suite position: setUpAll and tearDownAll are always called,
      test bodies only when they are reached. */
  datatype Event = SetUpAllCalled(suite: nat) | TestBodyCalled(suite: nat, test: string) | TearDownAllCalled(suite: nat)

  /** `results` after the run; `failed` is `total - passed`. */
  datatype Results = Results(suiteNames: seq<JsValue>, total: nat, passed: nat, failed: int)

  predicate SetUpAllFails(suite: TestSuite, calls: Calls) {
    FixtureFault(suite.setUpAll, suite.suiteName, calls).Some?
  }

  predicate TearDownAllFails(suite: TestSuite, calls: Calls) {
    FixtureFault(suite.tearDownAll, suite.suiteName, calls).Some?
  }

  /** A test whose loop lets a TypeError escape. */
  predicate TestEscapes(suite: TestSuite, t: TestCase, calls: Calls) {
    RunTest(BehaviourOf(suite, t, calls)).escaped
  }

  /** The position of the first test that lets a TypeError escape, or the number of tests. */
  function FirstEscape(suite: TestSuite, tests: seq<TestCase>, calls: Calls): (n: nat)
    ensures n <= |tests|
    ensures forall k :: 0 <= k < n ==> !TestEscapes(suite, tests[k], calls)
    ensures n < |tests| ==> TestEscapes(suite, tests[n], calls)
  {
    if |tests| == 0 || TestEscapes(suite, tests[0], calls) then 0 else 1 + FirstEscape(suite, tests[1..], calls)
  }

  /** The suite ends `run` with a TypeError: setUpAll throws a nullish value, or it returns
      and some test lets one escape, or tearDownAll throws a nullish value. */
  predicate SuiteEscapes(suite: TestSuite, calls: Calls) {
    || IsNullish(FixtureFault(suite.setUpAll, suite.suiteName, calls))
    || (!SetUpAllFails(suite, calls) && FirstEscape(suite, suite.tests, calls) < |suite.tests|)
    || IsNullish(FixtureFault(suite.tearDownAll, suite.suiteName, calls))
  }

  /** Reference tally: the passing tests among `tests`. */
  function TestsPassed(suite: TestSuite, tests: seq<TestCase>, calls: Calls): (n: nat)
    ensures n <= |tests|
  {
    if |tests| == 0 then 0
    else
      var t := tests[|tests| - 1];
      TestsPassed(suite, tests[..|tests| - 1], calls) + (if Passed(RunTest(BehaviourOf(suite, t, calls))) then 1 else 0)
  }

  /** Reference trace: the bodies reached among `tests`. */
  function TestEvents(k: nat, suite: TestSuite, tests: seq<TestCase>, calls: Calls): seq<Event> {
    if |tests| == 0 then []
    else
      var t := tests[|tests| - 1];
      TestEvents(k, suite, tests[..|tests| - 1], calls) + (if Body in RunTest(BehaviourOf(suite, t, calls)).calls then [TestBodyCalled(k, t.name)] else [])
  }

  /** A suite adds all its tests to `total`, plus one when tearDownAll throws. */
  function SuiteTotal(suite: TestSuite, calls: Calls): nat {
    |suite.tests| + (if TearDownAllFails(suite, calls) then 1 else 0)
  }

  /** Tests only pass when setUpAll did not throw. */
  function SuitePassed(suite: TestSuite, calls: Calls): nat {
    if SetUpAllFails(suite, calls) then 0 else TestsPassed(suite, suite.tests, calls)
  }

  /** Reference trace of one suite: setUpAll; then, unless it threw, the bodies reached, up
      to the test that lets a TypeError escape if there is one; then tearDownAll, unless a
      TypeError has escaped already. */
  function SuiteEvents(k: nat, suite: TestSuite, calls: Calls): seq<Event> {
    if IsNullish(FixtureFault(suite.setUpAll, suite.suiteName, calls)) then [SetUpAllCalled(k)]
    else if SetUpAllFails(suite, calls) then [SetUpAllCalled(k), TearDownAllCalled(k)]
    else
      var n := FirstEscape(suite, suite.tests, calls);
      if n < |suite.tests| then [SetUpAllCalled(k)] + TestEvents(k, suite, suite.tests[..n + 1], calls)
      else [SetUpAllCalled(k)] + TestEvents(k, suite, suite.tests, calls) + [TearDownAllCalled(k)]
  }

  function TotalOf(suites: seq<TestSuite>, calls: Calls): nat {
    if |suites| == 0 then 0 else TotalOf(suites[..|suites| - 1], calls) + SuiteTotal(suites[|suites| - 1], calls)
  }

  function PassedOf(suites: seq<TestSuite>, calls: Calls): nat {
    if |suites| == 0 then 0 else PassedOf(suites[..|suites| - 1], calls) + SuitePassed(suites[|suites| - 1], calls)
  }

  function EventsOf(suites: seq<TestSuite>, calls: Calls): seq<Event> {
    if |suites| == 0 then []
    else EventsOf(suites[..|suites| - 1], calls) + SuiteEvents(|suites| - 1, suites[|suites| - 1], calls)
  }

  function SuitesOf(args: seq<SuiteArg>): (suites: seq<TestSuite>)
    requires forall i :: 0 <= i < |args| ==> !args[i].Invalid?
    ensures |suites| == |args|
  {
    if |args| == 0 then [] else SuitesOf(args[..|args| - 1]) + [Compile(args[|args| - 1]).value]
  }

  /** The suites are the compiled arguments, position by position. */
  lemma {:induction false} SuitesOfCompiles(args: seq<SuiteArg>)
    requires forall i :: 0 <= i < |args| ==> !args[i].Invalid?
    ensures forall i :: 0 <= i < |args| ==> Compile(args[i]) == Some(SuitesOf(args)[i])
  {
    if |args| > 0 {
      var init := args[..|args| - 1];
      SuitesOfCompiles(init);
      forall i | 0 <= i < |args| ensures Compile(args[i]) == Some(SuitesOf(args)[i]) {
        if i < |args| - 1 {
          assert args[i] == init[i];
        }
      }
    }
  }

  function NamesOf(suites: seq<TestSuite>): (names: seq<JsValue>)
    ensures |names| == |suites|
    ensures forall i :: 0 <= i < |suites| ==> names[i] == suites[i].suiteName
  {
    if |suites| == 0 then [] else NamesOf(suites[..|suites| - 1]) + [suites[|suites| - 1].suiteName]
  }

  /** Passing tests never outnumber the total, so `failed` is never negative. */
  lemma {:induction false} PassedAtMostTotal(suites: seq<TestSuite>, calls: Calls)
    ensures PassedOf(suites, calls) <= TotalOf(suites, calls)
  {
    if |suites| > 0 {
      PassedAtMostTotal(suites[..|suites| - 1], calls);
    }
  }

  /** None of setUp, the test function and tearDown throws. */
  predicate FaultFree(suite: TestSuite, t: TestCase, calls: Calls) {
    var b := BehaviourOf(suite, t, calls);
    b.setUp.None? && b.body.None? && b.tearDown.None?
  }

  function CountFaultFree(suite: TestSuite, tests: seq<TestCase>, calls: Calls): nat {
    if |tests| == 0 then 0
    else (if FaultFree(suite, tests[0], calls) then 1 else 0) + CountFaultFree(suite, tests[1..], calls)
  }

  lemma {:induction false} CountFaultFreeSnoc(suite: TestSuite, tests: seq<TestCase>, calls: Calls)
    requires |tests| > 0
    ensures CountFaultFree(suite, tests, calls)
      == CountFaultFree(suite, tests[..|tests| - 1], calls) + (if FaultFree(suite, tests[|tests| - 1], calls) then 1 else 0)
    decreases |tests|
  {
    if |tests| > 1 {
      CountFaultFreeSnoc(suite, tests[1..], calls);
      assert tests[1..][..|tests[1..]| - 1] == tests[..|tests| - 1][1..];
    }
  }

  /** The tests counted as passed are exactly those none of whose three calls throws. */
  lemma {:induction false} TestsPassedAreFaultFree(suite: TestSuite, tests: seq<TestCase>, calls: Calls)
    ensures TestsPassed(suite, tests, calls) == CountFaultFree(suite, tests, calls)
    decreases |tests|
  {
    if |tests| > 0 {
      TestsPassedAreFaultFree(suite, tests[..|tests| - 1], calls);
      CountFaultFreeSnoc(suite, tests, calls);
      PassedIffNoFault(BehaviourOf(suite, tests[|tests| - 1], calls));
    }
  }

  /** When setUpAll throws, no test of the suite runs and none passes, yet all count in
      `total`; tearDownAll is still called unless setUpAll threw a nullish value, and the
      suite ends `run` exactly when one of the two threw one. */
  lemma SetUpAllFailureSkipsSuite(k: nat, suite: TestSuite, calls: Calls)
    requires SetUpAllFails(suite, calls)
    ensures SuiteEvents(k, suite, calls)
      == [SetUpAllCalled(k)] + (if IsNullish(FixtureFault(suite.setUpAll, suite.suiteName, calls)) then [] else [TearDownAllCalled(k)])
    ensures SuitePassed(suite, calls) == 0
    ensures SuiteTotal(suite, calls) >= |suite.tests|
    ensures SuiteEscapes(suite, calls) <==>
      IsNullish(FixtureFault(suite.setUpAll, suite.suiteName, calls)) || IsNullish(FixtureFault(suite.tearDownAll, suite.suiteName, calls))
  {
  }

  /** A test's body is reached exactly when its setUp did not throw. */
  lemma {:induction false} TestEventsAreReachedBodies(k: nat, suite: TestSuite, tests: seq<TestCase>, calls: Calls)
    ensures forall e :: e in TestEvents(k, suite, tests, calls) <==>
      exists t :: t in tests && e == TestBodyCalled(k, t.name) && BehaviourOf(suite, t, calls).setUp.None?
  {
    if |tests| > 0 {
      var last := tests[|tests| - 1];
      TestEventsAreReachedBodies(k, suite, tests[..|tests| - 1], calls);
      RunTestMatchesTable(BehaviourOf(suite, last, calls));
      assert tests == tests[..|tests| - 1] + [last];
    }
  }

  /** The tests of a suite whose setUpAll returned, in order, up to and including the first
      that lets a TypeError escape: its position, the bodies reached and, when no test
      escapes, how many passed. */
  method RunTests(k: nat, suite: TestSuite, calls: Calls) returns (passed: nat, bodies: seq<Event>, n: nat)
    ensures n == FirstEscape(suite, suite.tests, calls)
    ensures passed == TestsPassed(suite, suite.tests[..n], calls)
    ensures n < |suite.tests| ==> bodies == TestEvents(k, suite, suite.tests[..n + 1], calls)
    ensures n == |suite.tests| ==>
      bodies == TestEvents(k, suite, suite.tests, calls) && passed == TestsPassed(suite, suite.tests, calls)
  {
    var tests := suite.tests;
    passed, bodies, n := 0, [], 0;
    var stop := false;
    while n < |tests| && !stop
      invariant 0 <= n <= |tests|
      invariant n <= FirstEscape(suite, tests, calls)
      invariant stop ==> n < |tests| && TestEscapes(suite, tests[n], calls)
      invariant passed == TestsPassed(suite, tests[..n], calls)
      invariant bodies == TestEvents(k, suite, tests[..if stop then n + 1 else n], calls)
      decreases |tests| - n, if stop then 0 else 1
    {
      var t := tests[n];
      var st := RunTest(BehaviourOf(suite, t, calls));
      assert TestEscapes(suite, t, calls) == st.escaped;
      TestStep(k, suite, tests, n, calls);
      if Body in st.calls {
        bodies := bodies + [TestBodyCalled(k, t.name)];
      }
      if st.escaped {
        stop := true;
      } else {
        if Passed(st) {
          passed := passed + 1;
        }
        FirstEscapeStep(suite, tests, calls, n);
        n := n + 1;
      }
    }
    if !stop {
      assert tests[..n] == tests;
    }
  }

  lemma TestStep(k: nat, suite: TestSuite, tests: seq<TestCase>, n: nat, calls: Calls)
    requires n < |tests|
    ensures TestsPassed(suite, tests[..n + 1], calls)
      == TestsPassed(suite, tests[..n], calls) + (if Passed(RunTest(BehaviourOf(suite, tests[n], calls))) then 1 else 0)
    ensures TestEvents(k, suite, tests[..n + 1], calls)
      == TestEvents(k, suite, tests[..n], calls)
      + (if Body in RunTest(BehaviourOf(suite, tests[n], calls)).calls then [TestBodyCalled(k, tests[n].name)] else [])
  {
    assert tests[..n + 1][..n] == tests[..n];
  }

  lemma FirstEscapeStep(suite: TestSuite, tests: seq<TestCase>, calls: Calls, n: nat)
    requires n <= FirstEscape(suite, tests, calls) && n < |tests| && !TestEscapes(suite, tests[n], calls)
    ensures n + 1 <= FirstEscape(suite, tests, calls)
  {
  }

  /** One suite inside `run`: setUpAll, then (unless it threw) every test in order, then
      tearDownAll; the calls it makes, whether it ends `run` with a TypeError, and otherwise
      what it adds to `total` and `passed`. */
  method RunSuite(k: nat, suite: TestSuite, calls: Calls) returns (total: nat, passed: nat, events: seq<Event>, escaped: bool)
    ensures escaped == SuiteEscapes(suite, calls)
    ensures events == SuiteEvents(k, suite, calls)
    ensures !escaped ==> total == SuiteTotal(suite, calls) && passed == SuitePassed(suite, calls)
  {
    total := |suite.tests|;
    passed := 0;
    escaped := false;
    var setUpAll := FixtureFault(suite.setUpAll, suite.suiteName, calls);
    if setUpAll.Some? && setUpAll.value.Nullish? {
      return total, passed, [SetUpAllCalled(k)], true;
    }
    var bodies := [];
    if setUpAll.None? {
      var n;
      passed, bodies, n := RunTests(k, suite, calls);
      if n < |suite.tests| {
        return total, passed, [SetUpAllCalled(k)] + bodies, true;
      }
    }
    var tearDownAll := FixtureFault(suite.tearDownAll, suite.suiteName, calls);
    if tearDownAll.Some? {
      total := total + 1;
      escaped := tearDownAll.value.Nullish?;
    }
    events := [SetUpAllCalled(k)] + bodies + [TearDownAllCalled(k)];
  }

  lemma TallyStep(suites: seq<TestSuite>, i: nat, calls: Calls)
    requires i < |suites|
    ensures TotalOf(suites[..i + 1], calls) == TotalOf(suites[..i], calls) + SuiteTotal(suites[i], calls)
    ensures PassedOf(suites[..i + 1], calls) == PassedOf(suites[..i], calls) + SuitePassed(suites[i], calls)
    ensures NamesOf(suites[..i + 1]) == NamesOf(suites[..i]) + [suites[i].suiteName]
    ensures EventsOf(suites[..i + 1], calls) == EventsOf(suites[..i], calls) + SuiteEvents(i, suites[i], calls)
  {
    assert suites[..i + 1][..i] == suites[..i];
  }

  /** The position of the first suite that ends `run` with a TypeError, or the number of suites. */
  function FirstEscaping(suites: seq<TestSuite>, calls: Calls): (n: nat)
    ensures n <= |suites|
    ensures forall k :: 0 <= k < n ==> !SuiteEscapes(suites[k], calls)
    ensures n < |suites| ==> SuiteEscapes(suites[n], calls)
  {
    if |suites| == 0 || SuiteEscapes(suites[0], calls) then 0 else 1 + FirstEscaping(suites[1..], calls)
  }

  lemma FirstEscapingStep(suites: seq<TestSuite>, calls: Calls, i: nat)
    requires i <= FirstEscaping(suites, calls) && i < |suites| && !SuiteEscapes(suites[i], calls)
    ensures i + 1 <= FirstEscaping(suites, calls)
  {
  }

  /** The suites in order, up to the first that ends `run` with a TypeError: the calls they
      make, and the totals and names of the suites before it, which are all of them when
      none does. */
  method RunSuites(suites: seq<TestSuite>, calls: Calls)
    returns (total: nat, passed: nat, names: seq<JsValue>, trace: seq<Event>, escaped: bool)
    ensures escaped <==> FirstEscaping(suites, calls) < |suites|
    ensures trace == EventsOf(suites[..FirstEscaping(suites, calls)], calls)
      + (if escaped then SuiteEvents(FirstEscaping(suites, calls), suites[FirstEscaping(suites, calls)], calls) else [])
    ensures var e := FirstEscaping(suites, calls);
      total == TotalOf(suites[..e], calls) && passed == PassedOf(suites[..e], calls) && names == NamesOf(suites[..e])
    ensures !escaped ==> total == TotalOf(suites, calls) && passed == PassedOf(suites, calls) && names == NamesOf(suites)
  {
    total, passed, names, trace, escaped := 0, 0, [], [], false;
    var i := 0;
    while i < |suites| && !escaped
      invariant 0 <= i <= |suites|
      invariant i <= FirstEscaping(suites, calls)
      invariant escaped ==> i < |suites| && SuiteEscapes(suites[i], calls)
      invariant total == TotalOf(suites[..i], calls)
      invariant passed == PassedOf(suites[..i], calls)
      invariant names == NamesOf(suites[..i])
      invariant !escaped ==> trace == EventsOf(suites[..i], calls)
      invariant escaped ==> trace == EventsOf(suites[..i], calls) + SuiteEvents(i, suites[i], calls)
      decreases |suites| - i, if escaped then 0 else 1
    {
      var t, p, events, e := RunSuite(i, suites[i], calls);
      if e {
        trace := trace + events;
        escaped := true;
      } else {
        FirstEscapingStep(suites, calls, i);
        TallyStep(suites, i, calls);
        names := names + [suites[i].suiteName];
        total := total + t;
        passed := passed + p;
        trace := trace + events;
        i := i + 1;
      }
    }
    if escaped {
      assert i == FirstEscaping(suites, calls);
    } else {
      assert i == |suites| == FirstEscaping(suites, calls);
      assert suites[..i] == suites;
    }
  }

  /** Where `compile` first throws, or the number of arguments if it never does. */
  function FirstInvalid(args: seq<SuiteArg>): (n: nat)
    ensures n <= |args|
    ensures forall k :: 0 <= k < n ==> !args[k].Invalid?
    ensures n < |args| ==> args[n].Invalid?
  {
    if |args| == 0 || args[0].Invalid? then 0 else 1 + FirstInvalid(args[1..])
  }

  /** How `run` ends: it returns its results, returns false, or raises a TypeError. */
  datatype Outcome = Finished(results: Results) | Rejected | Raised

  /** `jsUnity.run(args...)`. The arguments are compiled and run in order until one is
      rejected (the result is false) or a suite lets a TypeError escape (`run` raises it);
      the trace lists the calls made until then. Otherwise the results hold the suite names,
      `total` = every suite's tests plus one per throwing tearDownAll, `passed` = the tests
      whose loop recorded no message in suites whose setUpAll did not throw, and
      `failed` = `total - passed`. */
  method Run(args: seq<SuiteArg>, calls: Calls) returns (r: Outcome, trace: seq<Event>)
    ensures
      var n := FirstInvalid(args);
      var suites := SuitesOf(args[..n]);
      var e := FirstEscaping(suites, calls);
      && (r.Raised? <==> e < n)
      && (r.Rejected? <==> e == n < |args|)
      && trace == EventsOf(suites[..e], calls) + (if e < n then SuiteEvents(e, suites[e], calls) else [])
    ensures r.Rejected? ==> exists i :: 0 <= i < |args| && args[i].Invalid?
    ensures r.Finished? <==>
      (forall i :: 0 <= i < |args| ==> !args[i].Invalid?) && FirstEscaping(SuitesOf(args), calls) == |args|
    ensures r.Finished? ==>
      var suites := SuitesOf(args);
      && r.results.suiteNames == NamesOf(suites)
      && r.results.total == TotalOf(suites, calls)
      && r.results.passed == PassedOf(suites, calls)
      && r.results.failed == r.results.total - r.results.passed >= 0
  {
    var n := FirstInvalid(args);
    if n == |args| {
      assert args[..n] == args;
    }
    var total, passed, names, escaped;
    total, passed, names, trace, escaped := RunSuites(SuitesOf(args[..n]), calls);
    if escaped {
      return Raised, trace;
    }
    if n < |args| {
      return Rejected, trace;
    }
    PassedAtMostTotal(SuitesOf(args), calls);
    r := Finished(Results(names, total, passed, total - passed));
  }
}
