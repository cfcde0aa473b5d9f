/**
 * The TAP/JUnit-style test report parser (`tap::Parser`): a
 * `<testsuites>` document becomes one record per `<testsuite>`, each with
 * one record per `<testcase>`, each with one record per `<failure>`, all in
 * document order. The suite counters are read from attributes, never
 * recomputed from the children.
 */
module TapParser {
  import opened Wrappers
  import opened Xml

  datatype TestFailure = TestFailure(kind: string, message: string, data: string)

  datatype TestCase = TestCase(name: string, failures: seq<TestFailure>)

  /** `failures` is a flag: the source stores the signed count in a `bool`. */
  datatype TestSuite = TestSuite(
    failures: bool, errors: nat, tests: nat, name: string, testcases: seq<TestCase>)

  /** Why a file is refused: it did not load, or it has no `<testsuites>` root. */
  datatype ParseError = CannotParse | NotTap

  /** `parse_failure`: `type` and `message` attributes, and the text of the
      first child as the failure data ("" when there is none). */
  function ParseFailure(node: Node): (f: TestFailure)
    ensures f.kind == node.Attr("type") && f.message == node.Attr("message")
    ensures |node.Kids()| > 0 && node.Kids()[0].Text? ==> f.data == node.Kids()[0].text
    ensures |node.Kids()| == 0 || node.Kids()[0].Element? ==> f.data == ""
  {
    TestFailure(node.Attr("type"), node.Attr("message"), node.FirstChildValue())
  }

  /** The record `parse_testcase` builds. */
  function TestcaseOf(node: Node): TestCase {
    TestCase(node.Attr("name"), MapSeq(ParseFailure, node.ChildrenNamed("failure")))
  }

  /** The record `parse_testsuite` builds. */
  function TestsuiteOf(node: Node): TestSuite {
    TestSuite(node.Int("failures") != 0, node.Uint("errors"), node.Uint("tests"), node.Attr("name"),
      MapSeq(TestcaseOf, node.ChildrenNamed("testcase")))
  }

  /** A test case has its `name` and one failure per `<failure>` child, in
      document order. */
  lemma TestcaseKeepsEveryFailure(node: Node)
    ensures var c := TestcaseOf(node);
      && c.name == node.Attr("name")
      && |c.failures| == |node.ChildrenNamed("failure")|
      && forall i :: 0 <= i < |c.failures| ==> c.failures[i] == ParseFailure(node.ChildrenNamed("failure")[i])
  {
    MapSeqIndex(ParseFailure, node.ChildrenNamed("failure"));
  }

  /** A suite's `failures` flag is whether the signed attribute is non-zero,
      `errors` and `tests` are unsigned reads, and it has one test case per
      `<testcase>` child, in document order. */
  lemma TestsuiteKeepsEveryTestcase(node: Node)
    ensures var t := TestsuiteOf(node);
      && (t.failures <==> node.Int("failures") != 0)
      && t.errors == node.Uint("errors") && t.tests == node.Uint("tests")
      && t.name == node.Attr("name")
      && |t.testcases| == |node.ChildrenNamed("testcase")|
      && forall i :: 0 <= i < |t.testcases| ==> t.testcases[i] == TestcaseOf(node.ChildrenNamed("testcase")[i])
  {
    MapSeqIndex(TestcaseOf, node.ChildrenNamed("testcase"));
  }

  /** `Parser::operator()`: the errors it throws, else one suite record per
      `<testsuite>` child of the root. */
  function ResultsOf(input: LoadResult): Result<seq<TestSuite>, ParseError> {
    if input.LoadFailed? then Err(CannotParse)
    else if !input.document.HasChild("testsuites") then Err(NotTap)
    else Ok(MapSeq(TestsuiteOf, input.document.Child("testsuites").ChildrenNamed("testsuite")))
  }

  /** A file is refused exactly when it failed to load or has no
      `<testsuites>` element; otherwise every `<testsuite>` of the first such
      element gives one record, in order, and nothing else does. */
  lemma ResultsOfSpec(input: LoadResult)
    ensures ResultsOf(input) == Err(CannotParse) <==> input.LoadFailed?
    ensures ResultsOf(input) == Err(NotTap) <==> input.Loaded? && !input.document.HasChild("testsuites")
    ensures ResultsOf(input).Ok? ==>
      var suites := input.document.ChildrenNamed("testsuites")[0].ChildrenNamed("testsuite");
      && |ResultsOf(input).value| == |suites|
      && forall i :: 0 <= i < |suites| ==> ResultsOf(input).value[i] == TestsuiteOf(suites[i])
  {
    if input.Loaded? && input.document.HasChild("testsuites") {
      MapSeqIndex(TestsuiteOf, input.document.Child("testsuites").ChildrenNamed("testsuite"));
    }
  }

  /** The `failures` flag read back from a rendered count: set exactly when
      the count is non-zero, whatever its sign. */
  lemma FailuresFlag(node: Node, k: nat)
    ensures node.Attr("failures") == Decimal(k) ==> (TestsuiteOf(node).failures <==> k != 0)
    ensures node.Attr("failures") == "-" + Decimal(k) ==> (TestsuiteOf(node).failures <==> k != 0)
    ensures !node.Has("failures") ==> !TestsuiteOf(node).failures
  {
    ReadDecimal(k);
  }

  /** The suite counters come from the attributes alone: two suites with the
      same attributes agree on them whatever test cases they hold. */
  lemma CountersIgnoreChildren(a: Node, b: Node)
    requires a.Element? && b.Element? && a.attrs == b.attrs
    ensures TestsuiteOf(a).failures == TestsuiteOf(b).failures
    ensures TestsuiteOf(a).errors == TestsuiteOf(b).errors
    ensures TestsuiteOf(a).tests == TestsuiteOf(b).tests
    ensures TestsuiteOf(a).name == TestsuiteOf(b).name
  {
  }

  /** `parse_testcase`: one sibling loop over the `<failure>` children. */
  method ParseTestcase(root: Node) returns (testcase: TestCase)
    ensures testcase == TestcaseOf(root)
  {
    testcase := TestCase(root.Attr("name"), []);
    var kids := root.Kids();
    var j := 0;
    while j < |kids|
      invariant j <= |kids|
      invariant testcase == TestCase(root.Attr("name"), MapSeq(ParseFailure, Named(kids[..j], "failure")))
    {
      NamedStep(kids, j, "failure");
      if kids[j].IsNamed("failure") {
        MapSeqSnoc(ParseFailure, Named(kids[..j], "failure"), kids[j]);
        testcase := testcase.(failures := testcase.failures + [ParseFailure(kids[j])]);
      }
      j := j + 1;
    }
    assert kids[..|kids|] == kids;
  }

  /** `parse_testsuite`: the counters, then one sibling loop over `<testcase>`. */
  method ParseTestsuite(root: Node) returns (testsuite: TestSuite)
    ensures testsuite == TestsuiteOf(root)
  {
    testsuite := TestSuite(root.Int("failures") != 0, root.Uint("errors"), root.Uint("tests"), root.Attr("name"), []);
    var kids := root.Kids();
    var j := 0;
    while j < |kids|
      invariant j <= |kids|
      invariant testsuite == TestsuiteOf(root).(testcases := MapSeq(TestcaseOf, Named(kids[..j], "testcase")))
    {
      NamedStep(kids, j, "testcase");
      if kids[j].IsNamed("testcase") {
        MapSeqSnoc(TestcaseOf, Named(kids[..j], "testcase"), kids[j]);
        var testcase := ParseTestcase(kids[j]);
        testsuite := testsuite.(testcases := testsuite.testcases + [testcase]);
      }
      j := j + 1;
    }
    assert kids[..|kids|] == kids;
  }

  /** `Parser::operator()`: a thrown error becomes `Err`. */
  method Parse(input: LoadResult) returns (r: Result<seq<TestSuite>, ParseError>)
    ensures r == ResultsOf(input)
  {
    if input.LoadFailed? {
      return Err(CannotParse);
    }
    if !input.document.HasChild("testsuites") {
      return Err(NotTap);
    }
    var root := input.document.Child("testsuites");
    var kids := root.Kids();
    assert ResultsOf(input) == Ok(MapSeq(TestsuiteOf, Named(kids, "testsuite")));
    var results: seq<TestSuite> := [];
    var j := 0;
    while j < |kids|
      invariant j <= |kids|
      invariant results == MapSeq(TestsuiteOf, Named(kids[..j], "testsuite"))
    {
      NamedStep(kids, j, "testsuite");
      if kids[j].IsNamed("testsuite") {
        MapSeqSnoc(TestsuiteOf, Named(kids[..j], "testsuite"), kids[j]);
        var suite := ParseTestsuite(kids[j]);
        results := results + [suite];
      }
      j := j + 1;
    }
    assert kids[..|kids|] == kids;
    return Ok(results);
  }
}
