/**
 * Test suites of the jsUnity runner and `parseSuiteObject`, which turns a plain object
 * into a suite by looking at its property names (js/common/modules/jsunity/jsunity.js).
 */
module JsUnitySuite {
  import opened Wrappers
  import opened JsUnityHash

  datatype TestCase = TestCase(name: string, fn: FuncId)

  /** `jsUnity.TestSuite`: the tests in order and the four optional fixtures. */
  datatype TestSuite = TestSuite(
    suiteName: JsValue,
    tests: seq<TestCase>,
    setUp: Option<FuncId>,
    tearDown: Option<FuncId>,
    setUpAll: Option<FuncId>,
    tearDownAll: Option<FuncId>)

  /** `/^test/`. */
  predicate IsTestName(name: string) {
    |name| >= 4 && name[..4] == "test"
  }

  /** `/^(setUp|tearDown|setUpAll|tearDownAll)$/`. */
  predicate IsFixtureName(name: string) {
    name == "setUp" || name == "tearDown" || name == "setUpAll" || name == "tearDownAll"
  }

  /** A fresh suite: no tests, no fixtures. */
  function NewSuite(suiteName: JsValue): (s: TestSuite)
    ensures s.suiteName == suiteName && s.tests == []
    ensures s.setUp.None? && s.tearDown.None? && s.setUpAll.None? && s.tearDownAll.None?
  {
    TestSuite(suiteName, [], None, None, None, None)
  }

  /** The effect of one property on the suite being built: a function whose name starts
      with "test" becomes the next test, a function with a fixture name becomes that
      fixture, anything else is ignored. */
  function Classify(s: TestSuite, p: Prop): TestSuite {
    match p.value
    case Func(f) =>
      if IsTestName(p.key) then s.(tests := s.tests + [TestCase(p.key, f)])
      else if p.key == "setUp" then s.(setUp := Some(f))
      else if p.key == "tearDown" then s.(tearDown := Some(f))
      else if p.key == "setUpAll" then s.(setUpAll := Some(f))
      else if p.key == "tearDownAll" then s.(tearDownAll := Some(f))
      else s
    case _ => s
  }

  /** The `for (var name in obj)` loop over the own properties, in order. */
  function ClassifyAll(s: TestSuite, props: seq<Prop>): TestSuite
    decreases |props|
  {
    if |props| == 0 then s else ClassifyAll(Classify(s, props[0]), props[1..])
  }

  /** `obj.suiteName`. */
  function Lookup(props: seq<Prop>, k: string): JsValue {
    if k in Keys(props) then props[Binding(props, k)].value else Undefined
  }

  /** `parseSuiteObject(obj)` for an object with the given own properties. */
  function ParseSuiteObject(props: seq<Prop>): TestSuite {
    ClassifyAll(NewSuite(Lookup(props, "suiteName")), props)
  }

  /** A function-valued property whose name starts with "test". */
  predicate TestProp(p: Prop) {
    p.value.Func? && IsTestName(p.key)
  }

  /** Classifying never touches the suite name, and leaves tests alone except for
      appending one at the end. */
  lemma {:induction false} ClassifyAllShape(s: TestSuite, props: seq<Prop>)
    ensures ClassifyAll(s, props).suiteName == s.suiteName
    ensures |ClassifyAll(s, props).tests| >= |s.tests|
    ensures ClassifyAll(s, props).tests[..|s.tests|] == s.tests
    decreases |props|
  {
    if |props| > 0 {
      var s1 := Classify(s, props[0]);
      ClassifyAllShape(s1, props[1..]);
      assert s1.tests[..|s.tests|] == s.tests;
    }
  }

  /** A test is exactly what a function-valued "test…" property contributes. */
  lemma {:induction false} ClassifyAllTests(s: TestSuite, props: seq<Prop>)
    ensures forall t :: t in ClassifyAll(s, props).tests <==>
      t in s.tests || exists i :: 0 <= i < |props| && TestProp(props[i]) && TestCase(props[i].key, props[i].value.id) == t
    decreases |props|
  {
    if |props| > 0 {
      var s1 := Classify(s, props[0]);
      ClassifyAllTests(s1, props[1..]);
      forall t ensures t in ClassifyAll(s, props).tests <==>
        t in s.tests || exists i :: 0 <= i < |props| && TestProp(props[i]) && TestCase(props[i].key, props[i].value.id) == t
      {
        if exists i :: 0 <= i < |props[1..]| && TestProp(props[1..][i]) && TestCase(props[1..][i].key, props[1..][i].value.id) == t {
          var i :| 0 <= i < |props[1..]| && TestProp(props[1..][i]) && TestCase(props[1..][i].key, props[1..][i].value.id) == t;
          assert props[i + 1] == props[1..][i];
        }
        if exists i :: 0 <= i < |props| && TestProp(props[i]) && TestCase(props[i].key, props[i].value.id) == t {
          var i :| 0 <= i < |props| && TestProp(props[i]) && TestCase(props[i].key, props[i].value.id) == t;
          if i > 0 {
            assert props[1..][i - 1] == props[i];
          }
        }
      }
    }
  }

  /** The test cases the "test…" function properties describe, in property order. */
  function TestsIn(props: seq<Prop>): seq<TestCase> {
    if |props| == 0 then []
    else (if TestProp(props[0]) then [TestCase(props[0].key, props[0].value.id)] else []) + TestsIn(props[1..])
  }

  /** Tests are appended in the order the properties are enumerated. */
  lemma {:induction false} ClassifyAllTestsInOrder(s: TestSuite, props: seq<Prop>)
    ensures ClassifyAll(s, props).tests == s.tests + TestsIn(props)
    decreases |props|
  {
    if |props| > 0 {
      var s1 := Classify(s, props[0]);
      ClassifyAllTestsInOrder(s1, props[1..]);
      assert s1.tests == s.tests + (if TestProp(props[0]) then [TestCase(props[0].key, props[0].value.id)] else []);
    }
  }

  /** The number of tests is the number of function-valued "test…" properties. */
  function CountTestProps(props: seq<Prop>): nat {
    if |props| == 0 then 0 else (if TestProp(props[0]) then 1 else 0) + CountTestProps(props[1..])
  }

  lemma {:induction false} ClassifyAllCount(s: TestSuite, props: seq<Prop>)
    ensures |ClassifyAll(s, props).tests| == |s.tests| + CountTestProps(props)
    decreases |props|
  {
    if |props| > 0 {
      ClassifyAllCount(Classify(s, props[0]), props[1..]);
    }
  }

  function FixtureOf(s: TestSuite, name: string): Option<FuncId> {
    if name == "setUp" then s.setUp
    else if name == "tearDown" then s.tearDown
    else if name == "setUpAll" then s.setUpAll
    else if name == "tearDownAll" then s.tearDownAll
    else None
  }

  /** The function of the last function-valued property named `name`, else `d`. */
  function LastFunction(props: seq<Prop>, name: string, d: Option<FuncId>): Option<FuncId>
    decreases |props|
  {
    if |props| == 0 then d
    else LastFunction(props[1..], name, if props[0].key == name && props[0].value.Func? then Some(props[0].value.id) else d)
  }

  lemma {:induction false} ClassifyAllFixture(s: TestSuite, props: seq<Prop>, name: string)
    requires IsFixtureName(name)
    ensures FixtureOf(ClassifyAll(s, props), name) == LastFunction(props, name, FixtureOf(s, name))
    decreases |props|
  {
    assert !IsTestName(name) by {
      assert name[..4][2] == name[2] != "test"[2];
    }
    if |props| > 0 {
      ClassifyAllFixture(Classify(s, props[0]), props[1..], name);
    }
  }

  /** Among distinct keys, the last function-valued property of a name is the only one. */
  lemma {:induction false} LastFunctionOfDistinct(props: seq<Prop>, name: string, d: Option<FuncId>)
    requires DistinctKeys(props)
    ensures forall f: FuncId :: LastFunction(props, name, d) == Some(f) <==>
      Prop(name, Func(f)) in props || (d == Some(f) && Prop(name, Func(f)) !in props && forall i :: 0 <= i < |props| ==> !(props[i].key == name && props[i].value.Func?))
    decreases |props|
  {
    if |props| > 0 {
      var d1 := if props[0].key == name && props[0].value.Func? then Some(props[0].value.id) else d;
      LastFunctionOfDistinct(props[1..], name, d1);
      assert props == [props[0]] + props[1..];
      if props[0].key == name {
        forall i | 0 <= i < |props[1..]| ensures props[1..][i].key != name {
          assert props[0].key != props[i + 1].key;
        }
      }
      forall i | 0 <= i < |props[1..]| ensures props[1..][i] == props[i + 1] {
      }
    }
  }

  /** `parseSuiteObject`: the suite is named after the "suiteName" property; its tests are
      exactly the function-valued properties whose names start with "test", as many as
      there are such properties and in property order; each fixture is set exactly when a function-valued
      property of that name exists. */
  lemma ParseSuiteObjectClassifies(props: seq<Prop>)
    requires DistinctKeys(props)
    ensures var s := ParseSuiteObject(props);
      && s.suiteName == Lookup(props, "suiteName")
      && |s.tests| == CountTestProps(props)
      && s.tests == TestsIn(props)
      && (forall t :: t in s.tests <==> exists i :: 0 <= i < |props| && TestProp(props[i]) && TestCase(props[i].key, props[i].value.id) == t)
      && (forall f: FuncId :: s.setUp == Some(f) <==> Prop("setUp", Func(f)) in props)
      && (forall f: FuncId :: s.tearDown == Some(f) <==> Prop("tearDown", Func(f)) in props)
      && (forall f: FuncId :: s.setUpAll == Some(f) <==> Prop("setUpAll", Func(f)) in props)
      && (forall f: FuncId :: s.tearDownAll == Some(f) <==> Prop("tearDownAll", Func(f)) in props)
  {
    var s0 := NewSuite(Lookup(props, "suiteName"));
    ClassifyAllShape(s0, props);
    ClassifyAllTests(s0, props);
    ClassifyAllCount(s0, props);
    ClassifyAllTestsInOrder(s0, props);
    ClassifyAllFixture(s0, props, "setUp");
    ClassifyAllFixture(s0, props, "tearDown");
    ClassifyAllFixture(s0, props, "setUpAll");
    ClassifyAllFixture(s0, props, "tearDownAll");
    LastFunctionOfDistinct(props, "setUp", None);
    LastFunctionOfDistinct(props, "tearDown", None);
    LastFunctionOfDistinct(props, "setUpAll", None);
    LastFunctionOfDistinct(props, "tearDownAll", None);
  }

  /** A property that is not a function, or whose name is neither a test name nor a
      fixture name, has no effect on the tests and fixtures. */
  lemma IgnoredPropertyHasNoEffect(s: TestSuite, p: Prop)
    requires !p.value.Func? || (!IsTestName(p.key) && !IsFixtureName(p.key))
    ensures Classify(s, p) == s
  {
  }
}
